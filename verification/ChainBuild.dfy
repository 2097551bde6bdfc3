/** The constructor of `Chain` in core/chain.cpp: main chain first, then a sub-chain for every extra output
    that a module copy has requested, until no request is left. */
module ChainBuild {
  import opened ChainTree

  // ----- How many ports there will be -----

  /** The number of ports behind one copy of module `c`: the product of 1 + extra over the modules from `c`
      on, the last one excepted. */
  function Width(extra: Extra, c: nat): (w: nat)
    requires c < |extra|
    ensures w >= 1
    decreases |extra| - c
  {
    if c + 1 >= |extra| then 1 else (1 + extra[c]) * Width(extra, c + 1)
  }

  /** The ports that a request of a copy of module `c` still has to bring. */
  function Owed(extra: Extra, c: nat): nat
    requires c < |extra|
  {
    if c + 1 >= |extra| then 0 else extra[c] * Width(extra, c + 1)
  }

  function OwedAll(extra: Extra, t: Tree, pending: seq<nat>): nat
    requires forall i :: 0 <= i < |pending| ==> pending[i] < |t.nodes| && t.nodes[pending[i]].cfg < |extra|
  {
    if pending == [] then 0
    else Owed(extra, t.nodes[pending[0]].cfg) + OwedAll(extra, t, pending[1..])
  }

  /** The requests that a run of fresh copies of the modules from `c` on makes, the first copy being number
      `base`. */
  function Requests(extra: Extra, base: nat, c: nat): (r: seq<nat>)
    requires c <= |extra|
    ensures forall i :: 0 <= i < |r| ==> base <= r[i] < base + (|extra| - c)
    decreases |extra| - c
  {
    if c == |extra| then [] else (if extra[c] >= 1 then [base] else []) + Requests(extra, base + 1, c + 1)
  }

  predicate InTree(extra: Extra, t: Tree, pending: seq<nat>)
  {
    forall i :: 0 <= i < |pending| ==> pending[i] < |t.nodes| && t.nodes[pending[i]].cfg < |extra|
  }

  lemma {:induction false} OwedConcat(extra: Extra, t: Tree, a: seq<nat>, b: seq<nat>)
    requires InTree(extra, t, a) && InTree(extra, t, b)
    ensures InTree(extra, t, a + b) && OwedAll(extra, t, a + b) == OwedAll(extra, t, a) + OwedAll(extra, t, b)
    decreases |a|
  {
    if a == [] {
      assert a + b == b;
    } else {
      assert (a + b)[1..] == a[1..] + b;
      OwedConcat(extra, t, a[1..], b);
    }
  }

  /** The debt depends only on the configuration indices. */
  lemma {:induction false} OwedSame(extra: Extra, t: Tree, t': Tree, a: seq<nat>)
    requires InTree(extra, t, a) && |t.nodes| <= |t'.nodes|
    requires forall v :: 0 <= v < |t.nodes| ==> t'.nodes[v].cfg == t.nodes[v].cfg
    ensures InTree(extra, t', a) && OwedAll(extra, t', a) == OwedAll(extra, t, a)
    decreases |a|
  {
    if a != [] {
      OwedSame(extra, t, t', a[1..]);
    }
  }

  /** A fresh run of copies owes all the ports behind its first copy except the one it brings itself. */
  lemma {:induction false} RequestsOwe(extra: Extra, t: Tree, base: nat, c: nat)
    requires c < |extra| && base + (|extra| - c) <= |t.nodes|
    requires forall v :: base <= v < base + (|extra| - c) ==> t.nodes[v].cfg == c + (v - base)
    ensures InTree(extra, t, Requests(extra, base, c))
    ensures OwedAll(extra, t, Requests(extra, base, c)) == Width(extra, c) - 1
    decreases |extra| - c
  {
    hide Width, OwedAll, Owed, Requests, InTree;
    OwedNone(extra, t);
    RequestsEnd(extra, base + 1);
    if c + 1 < |extra| {
      RequestsOwe(extra, t, base + 1, c + 1);
    }
    WidthStep(extra, c);
    RequestsStep(extra, t, base, c);
  }

  lemma RequestsEnd(extra: Extra, base: nat)
    ensures Requests(extra, base, |extra|) == []
  {
  }

  lemma RequestsStep(extra: Extra, t: Tree, base: nat, c: nat)
    requires c < |extra| && base < |t.nodes| && t.nodes[base].cfg == c
    requires InTree(extra, t, Requests(extra, base + 1, c + 1))
    ensures InTree(extra, t, Requests(extra, base, c))
    ensures OwedAll(extra, t, Requests(extra, base, c)) ==
            Owed(extra, c) + OwedAll(extra, t, Requests(extra, base + 1, c + 1))
  {
    hide OwedAll, Width, Requests, InTree, Owed;
    RequestsDef(extra, base, c);
    if extra[c] >= 1 {
      OwedOne(extra, t, base);
      OwedConcat(extra, t, [base], Requests(extra, base + 1, c + 1));
    } else {
      OwedZero(extra, c);
    }
  }

  lemma RequestsDef(extra: Extra, base: nat, c: nat)
    requires c < |extra|
    ensures extra[c] >= 1 ==> Requests(extra, base, c) == [base] + Requests(extra, base + 1, c + 1)
    ensures extra[c] == 0 ==> Requests(extra, base, c) == Requests(extra, base + 1, c + 1)
  {
    var rest := Requests(extra, base + 1, c + 1);
    assert [] + rest == rest;
  }

  lemma OwedZero(extra: Extra, c: nat)
    requires c < |extra| && extra[c] == 0
    ensures Owed(extra, c) == 0
  {
    hide Width;
  }

  lemma OwedOne(extra: Extra, t: Tree, v: nat)
    requires v < |t.nodes| && t.nodes[v].cfg < |extra|
    ensures InTree(extra, t, [v]) && OwedAll(extra, t, [v]) == Owed(extra, t.nodes[v].cfg)
  {
    var one := [v];
    assert one[1..] == [];
  }

  lemma OwedNone(extra: Extra, t: Tree)
    ensures InTree(extra, t, []) && OwedAll(extra, t, []) == 0
  {
  }

  lemma WidthStep(extra: Extra, c: nat)
    requires c < |extra|
    ensures c + 1 < |extra| ==> Width(extra, c) == Width(extra, c + 1) + Owed(extra, c)
    ensures c + 1 == |extra| ==> Width(extra, c) == 1 && Owed(extra, c) == 0
  {
    if c + 1 < |extra| {
      Distribute(extra[c], Width(extra, c + 1));
    }
  }

  lemma Distribute(a: nat, w: nat)
    ensures (1 + a) * w == w + a * w
  {
  }

  // ----- The state of the construction -----

  /** The tree so far and the copies whose requests are still open. */
  datatype Build = Build(tree: Tree, open: seq<nat>)

  function Begin(extra: Extra): Build
    requires |extra| >= 1
  {
    Build(MainTree(|extra|), Requests(extra, 0, 0))
  }

  function Take(b: Build, k: nat): Build
    requires k < |b.open|
  {
    b.(open := b.open[..k] + b.open[k + 1..])
  }

  /** One more output for `mod`; the copies made for it file requests of their own. */
  function OneOutput(extra: Extra, b: Build, mod: nat): Build
    requires mod < |b.tree.nodes| && b.tree.nodes[mod].cfg + 1 < |extra|
  {
    Build(AddOutput(b.tree, |extra|, mod), b.open + Requests(extra, |b.tree.nodes|, b.tree.nodes[mod].cfg + 1))
  }

  predicate NoDup(s: seq<nat>)
  {
    forall i, j :: 0 <= i < j < |s| ==> s[i] != s[j]
  }

  lemma NoDupConcat(a: seq<nat>, b: seq<nat>)
    requires NoDup(a) && NoDup(b) && forall v :: v in a ==> v !in b
    ensures NoDup(a + b)
  {
    forall i, j | 0 <= i < j < |a + b|
      ensures (a + b)[i] != (a + b)[j]
    {
      if i < |a| <= j {
        assert a[i] in a && b[j - |a|] in b;
      }
    }
  }

  /** The open requests: each of a copy that asked for outputs, each once, and not the one being served. */
  predicate OpenOk(extra: Extra, b: Build, cur: int)
  {
    && InTree(extra, b.tree, b.open)
    && (forall i :: 0 <= i < |b.open| ==> extra[b.tree.nodes[b.open[i]].cfg] >= 1 && b.open[i] != cur)
    && NoDup(b.open)
  }

  /** A copy that is not last has all the outputs it asked for, or none yet and its request is open. `cur` is
      the copy being served, which has `done` extra outputs so far. */
  predicate OutputsOk(extra: Extra, b: Build, cur: int, done: nat)
  {
    forall v :: 0 <= v < |b.tree.nodes| && b.tree.nodes[v].cfg + 1 < |extra| ==>
      |b.tree.nodes[v].near| ==
        2 + (if v == cur then done else if v in b.open then 0 else extra[b.tree.nodes[v].cfg])
  }

  /** What the copy being served still owes. */
  function CurOwes(extra: Extra, t: Tree, cur: int, done: nat): int
    requires 0 <= cur < |t.nodes| ==> t.nodes[cur].cfg < |extra|
  {
    if 0 <= cur < |t.nodes| && t.nodes[cur].cfg + 1 < |extra| then
      (extra[t.nodes[cur].cfg] - done) * Width(extra, t.nodes[cur].cfg + 1)
    else 0
  }

  predicate CurOk(extra: Extra, t: Tree, cur: int, done: nat)
  {
    cur == -1 || (0 <= cur < |t.nodes| && t.nodes[cur].cfg + 1 < |extra| && done <= extra[t.nodes[cur].cfg])
  }

  /** Ports given out, plus ports still owed, are always the width of the configuration. */
  predicate Inv(extra: Extra, b: Build, cur: int, done: nat)
  {
    && |extra| >= 1
    && TreeOk(b.tree, |extra|)
    && CurOk(extra, b.tree, cur, done)
    && OpenOk(extra, b, cur)
    && OutputsOk(extra, b, cur, done)
    && |b.tree.wire| - 1 + OwedAll(extra, b.tree, b.open) + CurOwes(extra, b.tree, cur, done) == Width(extra, 0)
  }

  predicate Asks(extra: Extra, base: nat, c: nat, v: nat)
    requires c <= |extra|
  {
    base <= v < base + (|extra| - c) && extra[c + (v - base)] >= 1
  }

  lemma {:induction false} RequestsMembers(extra: Extra, base: nat, c: nat)
    requires c <= |extra|
    ensures forall v: nat :: v in Requests(extra, base, c) <==> Asks(extra, base, c, v)
    ensures NoDup(Requests(extra, base, c))
    decreases |extra| - c
  {
    if c < |extra| {
      RequestsMembers(extra, base + 1, c + 1);
      var rest := Requests(extra, base + 1, c + 1);
      var first: seq<nat> := if extra[c] >= 1 then [base] else [];
      assert Requests(extra, base, c) == first + rest;
      hide Requests, NoDup, Asks;
      forall v: nat
        ensures v in first + rest <==> Asks(extra, base, c, v)
        ensures v in first ==> v !in rest
      {
        AsksStep(extra, base, c, v);
      }
      assert NoDup(first) by { FewDiffer(first); }
      NoDupConcat(first, rest);
    }
  }

  lemma FewDiffer(s: seq<nat>)
    requires |s| <= 1
    ensures NoDup(s)
  {
  }

  lemma AsksStep(extra: Extra, base: nat, c: nat, v: nat)
    requires c < |extra|
    ensures Asks(extra, base, c, v) <==> (v == base && extra[c] >= 1) || Asks(extra, base + 1, c + 1, v)
    ensures v == base ==> !Asks(extra, base + 1, c + 1, v)
  {
    if v > base {
      assert c + 1 + (v - (base + 1)) == c + (v - base);
    }
  }

  lemma BeginInv(extra: Extra)
    requires |extra| >= 1
    ensures Inv(extra, Begin(extra), -1, 0)
  {
    var b := Begin(extra);
    MainOk(|extra|);
    RequestsMembers(extra, 0, 0);
    forall v | 0 <= v < |extra|
      ensures b.tree.nodes[v] == MainNode(|extra|, v)
    {
    }
    RequestsOwe(extra, b.tree, 0, 0);
    hide Width, OwedAll, Requests, TreeOk;
    forall i | 0 <= i < |b.open|
      ensures extra[b.tree.nodes[b.open[i]].cfg] >= 1
    {
      assert b.open[i] in b.open;
    }
  }

  lemma TakeOwed(extra: Extra, b: Build, k: nat)
    requires InTree(extra, b.tree, b.open) && k < |b.open|
    ensures InTree(extra, b.tree, Take(b, k).open)
    ensures OwedAll(extra, b.tree, b.open) ==
            Owed(extra, b.tree.nodes[b.open[k]].cfg) + OwedAll(extra, b.tree, Take(b, k).open)
  {
    var l, r, x := b.open[..k], b.open[k + 1..], b.open[k];
    assert b.open == l + ([x] + r);
    OwedConcat(extra, b.tree, l, r);
    assert InTree(extra, b.tree, [x]);
    OwedConcat(extra, b.tree, [x], r);
    OwedConcat(extra, b.tree, l, [x] + r);
    assert OwedAll(extra, b.tree, [x]) == Owed(extra, b.tree.nodes[x].cfg) by { assert [x][1..] == []; }
  }

  lemma TakeMembers(b: Build, k: nat, v: nat)
    requires k < |b.open| && NoDup(b.open)
    ensures v in Take(b, k).open <==> v in b.open && v != b.open[k]
  {
    var l, r := b.open[..k], b.open[k + 1..];
    if v in b.open && v != b.open[k] {
      var i :| 0 <= i < |b.open| && b.open[i] == v;
      if i < k {
        assert l[i] == v;
      } else {
        assert r[i - k - 1] == v;
      }
    }
  }

  lemma TakeOpen(extra: Extra, b: Build, k: nat)
    requires OpenOk(extra, b, -1) && k < |b.open|
    ensures OpenOk(extra, Take(b, k), b.open[k]) && OpenOk(extra, Take(b, k), -1)
    ensures forall v: nat :: v in Take(b, k).open <==> v in b.open && v != b.open[k]
  {
    forall v: nat
      ensures v in Take(b, k).open <==> v in b.open && v != b.open[k]
    {
      TakeMembers(b, k, v);
    }
    var open := Take(b, k).open;
    assert forall i :: 0 <= i < |open| ==> open[i] == b.open[if i < k then i else i + 1];
  }

  /** Taking up a request; one of a copy of the last module is dropped. */
  lemma TakeInv(extra: Extra, b: Build, k: nat)
    requires Inv(extra, b, -1, 0) && k < |b.open|
    ensures var mod := b.open[k];
            Inv(extra, Take(b, k), if b.tree.nodes[mod].cfg + 1 < |extra| then mod else -1, 0)
  {
    var mod := b.open[k];
    OpenAt(extra, b, k);
    hide Width, OwedAll, TreeOk, OpenOk, OutputsOk, InTree, NoDup, CurOwes, CurOk;
    TakeOwed(extra, b, k);
    TakeOpen(extra, b, k);
    TakeOutputs(extra, b, k);
    TakeCur(extra, b.tree, mod);
  }

  lemma OpenAt(extra: Extra, b: Build, k: nat)
    requires OpenOk(extra, b, -1) && k < |b.open|
    ensures b.open[k] < |b.tree.nodes| && b.tree.nodes[b.open[k]].cfg < |extra|
    ensures InTree(extra, b.tree, b.open)
  {
    hide NoDup;
  }

  lemma TakeOutputs(extra: Extra, b: Build, k: nat)
    requires OutputsOk(extra, b, -1, 0) && k < |b.open| && b.open[k] < |b.tree.nodes|
    requires forall v: nat :: v in Take(b, k).open <==> v in b.open && v != b.open[k]
    ensures var mod := b.open[k];
            OutputsOk(extra, Take(b, k), if b.tree.nodes[mod].cfg + 1 < |extra| then mod else -1, 0)
  {
    var b' := Take(b, k);
    assert b'.tree == b.tree;
    hide Take;
    assert b.open[k] in b.open;
  }

  lemma TakeCur(extra: Extra, t: Tree, mod: nat)
    requires mod < |t.nodes| && t.nodes[mod].cfg < |extra|
    ensures CurOwes(extra, t, -1, 0) == 0 && CurOk(extra, t, -1, 0)
    ensures t.nodes[mod].cfg + 1 < |extra| ==>
              CurOwes(extra, t, mod, 0) == Owed(extra, t.nodes[mod].cfg) && CurOk(extra, t, mod, 0)
    ensures t.nodes[mod].cfg + 1 >= |extra| ==> Owed(extra, t.nodes[mod].cfg) == 0
  {
  }

  lemma ServedInv(extra: Extra, b: Build, mod: nat)
    requires mod < |b.tree.nodes| && b.tree.nodes[mod].cfg + 1 < |extra|
    requires Inv(extra, b, mod, extra[b.tree.nodes[mod].cfg])
    ensures Inv(extra, b, -1, 0)
  {
    hide Width, OwedAll, TreeOk;
    assert mod !in b.open;
  }

  /** The copies after one more output. */
  lemma OutputNodes(t: Tree, n: nat, mod: nat)
    requires mod < |t.nodes| && t.nodes[mod].cfg + 1 < n
    ensures var t' := AddOutput(t, n, mod); var base := |t.nodes|; var c := t.nodes[mod].cfg;
            && |t'.nodes| == base + (n - (c + 1)) && |t'.wire| == |t.wire| + 1
            && (forall v :: 0 <= v < base ==> t'.nodes[v].cfg == t.nodes[v].cfg)
            && (forall v :: 0 <= v < base ==> |t'.nodes[v].near| == |t.nodes[v].near| + if v == mod then 1 else 0)
            && (forall v :: base <= v < |t'.nodes| ==> t'.nodes[v].cfg == c + 1 + (v - base) && |t'.nodes[v].near| == 2)
  {
    var t' := AddOutput(t, n, mod);
    AddedNode(t, n, mod, 0);
    forall v | 0 <= v < |t'.nodes|
      ensures v < |t.nodes| ==> t'.nodes[v].cfg == t.nodes[v].cfg
      ensures v < |t.nodes| ==> |t'.nodes[v].near| == |t.nodes[v].near| + if v == mod then 1 else 0
      ensures v >= |t.nodes| ==> t'.nodes[v].cfg == t.nodes[mod].cfg + 1 + (v - |t.nodes|) && |t'.nodes[v].near| == 2
    {
      AddedNode(t, n, mod, v);
    }
  }

  /** The debt after one more output. */
  lemma OutputOwed(extra: Extra, b: Build, mod: nat, done: nat)
    requires Inv(extra, b, mod, done) && done < extra[b.tree.nodes[mod].cfg]
    ensures var b' := OneOutput(extra, b, mod);
            && InTree(extra, b'.tree, b'.open)
            && CurOk(extra, b'.tree, mod, done + 1)
            && |b'.tree.wire| - 1 + OwedAll(extra, b'.tree, b'.open) + CurOwes(extra, b'.tree, mod, done + 1)
               == Width(extra, 0)
  {
    hide Width, OwedAll, TreeOk, AddOutput, OutputsOk, InTree, Requests, NoDup;
    var t, b' := b.tree, OneOutput(extra, b, mod);
    var base, c := |t.nodes|, t.nodes[mod].cfg;
    OutputNodes(t, |extra|, mod);
    OwedSame(extra, t, b'.tree, b.open);
    RequestsOwe(extra, b'.tree, base, c + 1);
    OwedConcat(extra, b'.tree, b.open, Requests(extra, base, c + 1));
    OneLess(extra[c] - done, Width(extra, c + 1));
  }

  lemma OneLess(a: int, w: int)
    ensures a * w == (a - 1) * w + w
  {
  }

  lemma OutputOpen(extra: Extra, b: Build, mod: nat, done: nat)
    requires Inv(extra, b, mod, done) && done < extra[b.tree.nodes[mod].cfg]
    ensures OpenOk(extra, OneOutput(extra, b, mod), mod)
  {
    hide Width, OwedAll, TreeOk, AddOutput, Requests, OutputsOk, NoDup, Asks, CurOwes;
    var t, t' := b.tree, AddOutput(b.tree, |extra|, mod);
    var more := Requests(extra, |t.nodes|, t.nodes[mod].cfg + 1);
    RequestsMembers(extra, |t.nodes|, t.nodes[mod].cfg + 1);
    OutputNodes(t, |extra|, mod);
    OpenBelow(extra, b, mod);
    GrownOpen(extra, b, t', more, mod);
  }

  lemma GrownOpen(extra: Extra, b: Build, t': Tree, more: seq<nat>, mod: nat)
    requires OpenOk(extra, b, mod) && mod < |b.tree.nodes| && b.tree.nodes[mod].cfg + 1 < |extra|
    requires forall v :: v in b.open ==> v < |b.tree.nodes|
    requires |t'.nodes| == |b.tree.nodes| + (|extra| - (b.tree.nodes[mod].cfg + 1))
    requires forall v :: 0 <= v < |b.tree.nodes| ==> t'.nodes[v].cfg == b.tree.nodes[v].cfg
    requires forall v :: |b.tree.nodes| <= v < |t'.nodes| ==>
             t'.nodes[v].cfg == b.tree.nodes[mod].cfg + 1 + (v - |b.tree.nodes|)
    requires forall v: nat :: v in more <==> Asks(extra, |b.tree.nodes|, b.tree.nodes[mod].cfg + 1, v)
    requires NoDup(more)
    ensures OpenOk(extra, Build(t', b.open + more), mod)
  {
    hide NoDup;
    NoDupConcat(b.open, more);
    var open := b.open + more;
    forall i | 0 <= i < |open|
      ensures open[i] < |t'.nodes| && t'.nodes[open[i]].cfg < |extra|
      ensures extra[t'.nodes[open[i]].cfg] >= 1 && open[i] != mod
    {
      if i >= |b.open| {
        assert open[i] == more[i - |b.open|];
        assert more[i - |b.open|] in more;
      }
    }
  }

  lemma OutputOutputs(extra: Extra, b: Build, mod: nat, done: nat)
    requires Inv(extra, b, mod, done) && done < extra[b.tree.nodes[mod].cfg]
    ensures OutputsOk(extra, OneOutput(extra, b, mod), mod, done + 1)
  {
    var t, t' := b.tree, AddOutput(b.tree, |extra|, mod);
    var base, c := |t.nodes|, t.nodes[mod].cfg;
    var more := Requests(extra, base, c + 1);
    assert OneOutput(extra, b, mod) == Build(t', b.open + more);
    OpenBelow(extra, b, mod);
    hide Width, OwedAll, TreeOk, AddOutput, Requests, NoDup, InTree, OpenOk, CurOk, CurOwes, OneOutput;
    RequestsMembers(extra, base, c + 1);
    OutputNodes(t, |extra|, mod);
    GrownOutputs(extra, b, t', more, mod, done);
  }

  lemma OpenBelow(extra: Extra, b: Build, cur: int)
    requires OpenOk(extra, b, cur)
    ensures forall v :: v in b.open ==> v < |b.tree.nodes|
  {
    hide NoDup;
    forall v | v in b.open
      ensures v < |b.tree.nodes|
    {
      var i :| 0 <= i < |b.open| && b.open[i] == v;
    }
  }

  lemma GrownOutputs(extra: Extra, b: Build, t': Tree, more: seq<nat>, mod: nat, done: nat)
    requires OutputsOk(extra, b, mod, done) && mod < |b.tree.nodes| && b.tree.nodes[mod].cfg + 1 < |extra|
    requires forall v :: v in b.open ==> v < |b.tree.nodes|
    requires |t'.nodes| == |b.tree.nodes| + (|extra| - (b.tree.nodes[mod].cfg + 1))
    requires forall v :: 0 <= v < |b.tree.nodes| ==> t'.nodes[v].cfg == b.tree.nodes[v].cfg
    requires forall v :: 0 <= v < |b.tree.nodes| ==>
             |t'.nodes[v].near| == |b.tree.nodes[v].near| + if v == mod then 1 else 0
    requires forall v :: |b.tree.nodes| <= v < |t'.nodes| ==>
               t'.nodes[v].cfg == b.tree.nodes[mod].cfg + 1 + (v - |b.tree.nodes|) && |t'.nodes[v].near| == 2
    requires forall v: nat :: v in more <==> Asks(extra, |b.tree.nodes|, b.tree.nodes[mod].cfg + 1, v)
    ensures OutputsOk(extra, Build(t', b.open + more), mod, done + 1)
  {
    forall v | 0 <= v < |t'.nodes| && t'.nodes[v].cfg + 1 < |extra|
      ensures |t'.nodes[v].near| ==
              2 + (if v == mod then done + 1 else if v in b.open + more then 0 else extra[t'.nodes[v].cfg])
    {
      if v < |b.tree.nodes| {
        assert v !in more;
      } else {
        assert v !in b.open;
      }
    }
  }

  lemma OutputInv(extra: Extra, b: Build, mod: nat, done: nat)
    requires Inv(extra, b, mod, done) && done < extra[b.tree.nodes[mod].cfg]
    ensures Inv(extra, OneOutput(extra, b, mod), mod, done + 1)
  {
    OutputOwed(extra, b, mod, done);
    OutputOpen(extra, b, mod, done);
    OutputOutputs(extra, b, mod, done);
    AddKeeps(b.tree, |extra|, mod);
    hide Width, OwedAll, TreeOk, AddOutput, Requests, OpenOk, OutputsOk, InTree, CurOk, CurOwes;
  }

  /** When no request is open the tree is complete: ports 1..P exist, P being the product of 1 + extra over
      all modules but the last, and every copy has exactly the outputs it asked for. */
  lemma Complete(extra: Extra, b: Build)
    requires Inv(extra, b, -1, 0) && b.open == []
    ensures TreeOk(b.tree, |extra|)
    ensures |b.tree.wire| == 1 + Width(extra, 0)
    ensures forall v :: 0 <= v < |b.tree.nodes| && b.tree.nodes[v].cfg + 1 < |extra| ==>
              |b.tree.nodes[v].near| == 2 + extra[b.tree.nodes[v].cfg]
  {
  }
}
