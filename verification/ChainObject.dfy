/** The constructor of `Chain` in core/chain.cpp as code: copies are created one at a time, linked and numbered
    in place, in whatever order the map of requests is iterated. */
module ChainObject {
  import opened ChainTree
  import opened ChainBuild
  import O = ChainOrders

  function Blank(c: nat): Node
  {
    Node(c, [-1, -1], -1, 1)
  }

  /** The copies, where `mod` has been given room for links of which the first `2 + done` are assigned. */
  function Assigned(nodes: seq<Node>, mod: nat, done: nat): seq<Node>
    requires mod < |nodes| && 2 + done <= |nodes[mod].near|
  {
    nodes[mod := nodes[mod].(near := nodes[mod].near[..2 + done])]
  }

  /** `near.resize`: new links are null. */
  function Resize(near: seq<int>, n: nat): (r: seq<int>)
    ensures |r| == n && forall i :: 0 <= i < n && i < |near| ==> r[i] == near[i]
  {
    seq(n, i requires 0 <= i < n => if i < |near| then near[i] else -1)
  }

  lemma Unassigned(nodes: seq<Node>, mod: nat, count: nat)
    requires mod < |nodes| && |nodes[mod].near| == 2
    ensures Assigned(nodes[mod := nodes[mod].(near := Resize(nodes[mod].near, 2 + count))], mod, 0) == nodes
  {
    assert Resize(nodes[mod].near, 2 + count)[..2] == nodes[mod].near;
  }

  lemma AllAssigned(nodes: seq<Node>, mod: nat, done: nat)
    requires mod < |nodes| && 2 + done == |nodes[mod].near|
    ensures Assigned(nodes, mod, done) == nodes
  {
    assert nodes[mod].near[..2 + done] == nodes[mod].near;
  }

  lemma AssignedTwo(nodes: seq<Node>, mod: nat, done: nat)
    requires mod < |nodes| && 2 + done <= |nodes[mod].near|
    requires forall v :: 0 <= v < |nodes| ==> |Assigned(nodes, mod, done)[v].near| >= 2
    ensures forall v :: 0 <= v < |nodes| ==> |nodes[v].near| >= 2
  {
    forall v | 0 <= v < |nodes|
      ensures |nodes[v].near| >= 2
    {
      assert v != mod ==> Assigned(nodes, mod, done)[v] == nodes[v];
    }
  }

  lemma NoneYet(extra: Extra, b: Build, mod: nat)
    requires mod < |b.tree.nodes| && b.tree.nodes[mod].cfg + 1 < |extra| && Inv(extra, b, mod, 0)
    ensures |b.tree.nodes[mod].near| == 2
  {
    hide TreeOk, OpenOk, OwedAll, Width;
  }

  lemma InvTree(extra: Extra, b: Build, cur: int, done: nat)
    requires Inv(extra, b, cur, done)
    ensures TreeOk(b.tree, |extra|)
  {
    hide TreeOk, OpenOk, OutputsOk, OwedAll, Width;
  }

  lemma NoneAdded(extra: Extra, b: Build, mod: nat)
    requires mod < |b.tree.nodes| && b.tree.nodes[mod].cfg + 1 < |extra|
    ensures O.AddMany(extra, b, mod, 0) == b
  {
  }

  lemma OneAdded(extra: Extra, b: Build, mod: nat, k: nat)
    requires mod < |b.tree.nodes| && b.tree.nodes[mod].cfg + 1 < |extra| && k > 0
    ensures O.AddMany(extra, b, mod, k) == OneOutput(extra, O.AddMany(extra, b, mod, k - 1), mod)
  {
  }

  predicate AllAtLeast(nodes: seq<Node>, s: seq<nat>, r: nat)
  {
    forall i :: 0 <= i < |s| ==> s[i] < |nodes| && nodes[s[i]].cfg >= r
  }

  /** A finished chain: the links invert each other, ports are numbered 1..P without gaps, P is the product of
      1 + extra over all modules but the last, and every copy has the outputs it asked for. */
  predicate Finished(extra: Extra, t: Tree)
  {
    && |extra| >= 1
    && TreeOk(t, |extra|)
    && |t.wire| == 1 + Width(extra, 0)
    && forall v :: 0 <= v < |t.nodes| && t.nodes[v].cfg + 1 < |extra| ==>
         |t.nodes[v].near| == 2 + extra[t.nodes[v].cfg]
  }

  /** A sub-chain under construction, one copy longer. */
  lemma SubStep(base: nat, mod: int, mc: nat, slot: nat, r: nat, s: seq<Node>, m: nat)
    requires s == SubChain(base, m, mc, slot, r, -1) && mod == m
    ensures r == 0 ==> [Node(mc + 1, [mod, -1], -1, slot)] == SubChain(base, m, mc, slot, 1, -1)
    ensures r > 0 ==> |s[r - 1].near| == 2 && s[r - 1].near == [s[r - 1].near[0], -1]
    ensures r > 0 ==>
            s[r - 1 := s[r - 1].(near := s[r - 1].near[1 := base + r])] + [Node(mc + 1 + r, [base + r - 1, -1], -1, 1)]
                      == SubChain(base, m, mc, slot, r + 1, -1)
  {
    if r > 0 {
      var x := s[r - 1];
      assert x == SubNode(base, m, mc, slot, r, -1, r - 1);
      assert x.near[1 := base + r] == [x.near[0], base + r];
      var s' := s[r - 1 := x.(near := x.near[1 := base + r])] + [Node(mc + 1 + r, [base + r - 1, -1], -1, 1)];
      forall j | 0 <= j < r + 1
        ensures s'[j] == SubNode(base, m, mc, slot, r + 1, -1, j)
      {
      }
    }
  }

  /** The new copy at the end is linked to the copy before it, and that one to it unless it is `mod`. */
  function LinkLast(nodes: seq<Node>, prev: nat, mod: nat, slot: nat): seq<Node>
    requires prev < |nodes| - 1 && forall v :: 0 <= v < |nodes| ==> |nodes[v].near| >= 2
  {
    var mp := |nodes| - 1;
    var a := nodes[mp := nodes[mp].(near := nodes[mp].near[0 := prev], slot := if prev == mod then slot else 1)];
    if prev == mod then a else a[prev := a[prev].(near := a[prev].near[1 := mp])]
  }

  lemma LinkStep(b0: seq<Node>, mod: nat, mc: nat, slot: nat, r: nat, prev: nat)
    requires mod < |b0| && prev == if r == 0 then mod else |b0| + r - 1
    requires forall v :: 0 <= v < |b0| ==> |b0[v].near| >= 2
    ensures var built := b0 + SubChain(|b0|, mod, mc, slot, r, -1) + [Blank(mc + 1 + r)];
            && (forall v :: 0 <= v < |built| ==> |built[v].near| >= 2)
            && LinkLast(built, prev, mod, slot) == b0 + SubChain(|b0|, mod, mc, slot, r + 1, -1)
  {
    var s := SubChain(|b0|, mod, mc, slot, r, -1);
    var built := b0 + s + [Blank(mc + 1 + r)];
    SubStep(|b0|, mod, mc, slot, r, s, mod);
    var back: int := prev;
    var x := Node(mc + 1 + r, [back, -1], -1, if prev == mod then slot else 1);
    assert Blank(mc + 1 + r).near[0 := prev] == [back, -1];
    assert built[|built| - 1 := x] == b0 + s + [x];
    if r > 0 {
      var y := s[r - 1].(near := s[r - 1].near[1 := |b0| + r]);
      assert (b0 + s + [x])[prev] == s[r - 1];
      assert (b0 + s + [x])[prev := y] == b0 + (s[r - 1 := y] + [x]);
    }
  }

  lemma SubNone(base: nat, mod: nat, mc: nat, slot: nat)
    ensures SubChain(base, mod, mc, slot, 0, -1) == []
  {
  }

  lemma SubLength(base: nat, mod: nat, mc: nat, slot: nat, len: nat)
    ensures |SubChain(base, mod, mc, slot, len, -1)| == len
  {
  }

  lemma SubPort(base: nat, mod: nat, mc: nat, slot: nat, len: nat, port: int)
    requires len > 0
    ensures var s := SubChain(base, mod, mc, slot, len, -1);
            s[len - 1 := s[len - 1].(wireDst := port)] == SubChain(base, mod, mc, slot, len, port)
  {
  }

  /** The port of the last copy and the link of `mod`. */
  lemma PortStep(b0: seq<Node>, b1: seq<Node>, mod: nat, mc: nat, k: nat, len: nat, port: int, first: int)
    requires mod < |b0| && 1 <= k && 2 + k <= |b0[mod].near| && len > 0 && first == |b0|
    requires b1 == b0 + SubChain(|b0|, mod, mc, 1 + k, len, -1)
    ensures |b1| == |b0| + len
    ensures var b2 := b1[|b1| - 1 := b1[|b1| - 1].(wireDst := port)];
            var b3 := b2[mod := b2[mod].(near := b2[mod].near[1 + k := first])];
            var x := Assigned(b0, mod, k - 1);
            Assigned(b3, mod, k) ==
            x[mod := x[mod].(near := x[mod].near + [|b0|])] + SubChain(|b0|, mod, mc, 1 + k, len, port)
  {
    var s := SubChain(|b0|, mod, mc, 1 + k, len, -1);
    SubPort(|b0|, mod, mc, 1 + k, len, port);
    var s' := SubChain(|b0|, mod, mc, 1 + k, len, port);
    hide SubChain;
    var b2 := b1[|b1| - 1 := b1[|b1| - 1].(wireDst := port)];
    assert b2 == b0 + s';
    var near := b0[mod].near;
    assert near[1 + k := first][..2 + k] == near[..1 + k] + [first];
  }

  // ----- Requests and rounds -----

  lemma AtLeastGrows(extra: Extra, t: Tree, s: seq<nat>, r: nat, mod: nat)
    requires AllAtLeast(t.nodes, s, r) && mod < |t.nodes| && t.nodes[mod].cfg + 1 < |extra|
    ensures AllAtLeast(AddOutput(t, |extra|, mod).nodes, s, r)
  {
    OutputNodes(t, |extra|, mod);
    hide AddOutput;
  }

  lemma AtLeastNew(extra: Extra, t: Tree, s: seq<nat>, r: nat, mod: nat)
    requires AllAtLeast(t.nodes, s, r) && mod < |t.nodes| && t.nodes[mod].cfg + 1 < |extra| && r <= t.nodes[mod].cfg + 1
    ensures AllAtLeast(AddOutput(t, |extra|, mod).nodes, s + Requests(extra, |t.nodes|, t.nodes[mod].cfg + 1), r)
  {
    OutputNodes(t, |extra|, mod);
    hide AddOutput;
  }

  lemma RequestsInTree(extra: Extra, b: Build)
    requires Inv(extra, b, -1, 0)
    ensures forall i :: 0 <= i < |b.open| ==> b.open[i] < |b.tree.nodes| && b.tree.nodes[b.open[i]].cfg < |extra|
  {
    hide NoDup, TreeOk, OutputsOk, OwedAll, Width, CurOwes;
  }

  /** Taking request number `j` off the round. */
  lemma TakePending(extra: Extra, w: O.Work, j: nat, round: nat)
    requires O.WorkOk(extra, w) && j < |w.pending| && AllAtLeast(w.tree.nodes, w.pending, round)
    ensures var mod := w.pending[j];
            && mod < |w.tree.nodes| && round <= w.tree.nodes[mod].cfg < |extra|
            && Inv(extra, Build(w.tree, O.Without(w.pending, j) + w.requested),
                   if w.tree.nodes[mod].cfg + 1 < |extra| then mod else -1, 0)
            && AllAtLeast(w.tree.nodes, O.Without(w.pending, j), round)
  {
    hide Inv;
    O.TakeFront(extra, w, j);
  }

  /** While a request is being served, not all ports have been given out. */
  lemma PortsMissing(extra: Extra, b: Build, mod: nat, done: nat)
    requires Inv(extra, b, mod, done) && done < extra[b.tree.nodes[mod].cfg]
    ensures 2 <= |b.tree.wire| <= Width(extra, 0)
  {
    hide Width, OwedAll, OpenOk, OutputsOk, BackOk, ForwardOk;
    AtLeastOne(extra[b.tree.nodes[mod].cfg] - done, Width(extra, b.tree.nodes[mod].cfg + 1));
  }

  lemma AtLeastOne(a: nat, b: nat)
    requires a >= 1 && b >= 1
    ensures a * b >= 1
  {
  }

  lemma NearTwo(t: Tree, n: nat)
    requires TreeOk(t, n)
    ensures forall v :: 0 <= v < |t.nodes| ==> |t.nodes[v].near| >= 2
  {
    forall v | 0 <= v < |t.nodes|
      ensures |t.nodes[v].near| >= 2
    {
      assert BackOk(t, n, v);
    }
  }

  lemma NowOk(extra: Extra, order: seq<nat>, w: O.Work)
    requires |extra| >= 1 && O.Possible(extra, O.Start(extra), order)
    requires O.Round(O.After(extra, O.Start(extra), order)) == O.Round(w)
    ensures O.WorkOk(extra, w)
  {
    hide Inv;
    O.StartOk(extra);
    hide O.Start;
    O.AfterOk(extra, O.Start(extra), order);
    O.RoundOk(extra, O.After(extra, O.Start(extra), order));
    assert w.pending == [] ==> w.pending + w.requested == w.requested + [];
  }

  lemma NoChoices(extra: Extra)
    requires |extra| >= 1
    ensures O.Possible(extra, O.Start(extra), []) && O.After(extra, O.Start(extra), []) == O.Start(extra)
  {
  }

  /** Every order that comes to an end ends with a finished chain. */
  lemma BuiltFinished(extra: Extra, order: seq<nat>, t: Tree)
    requires O.BuiltBy(extra, order, t)
    ensures Finished(extra, t) && t.nodes != []
  {
    hide Inv, TreeOk;
    O.StartOk(extra);
    O.AfterOk(extra, O.Start(extra), order);
    var none: seq<nat> := [];
    assert none + none == none;
    Complete(extra, Build(t, []));
    NotEmpty(t, |extra|);
  }

  lemma NotEmpty(t: Tree, n: nat)
    requires TreeOk(t, n)
    ensures t.nodes != []
  {
    hide BackOk, ForwardOk, PortsOk;
  }

  class Chain {
    const extra: Extra
    /** Whether the i-th attempt to create a copy succeeds: module found and initialised. */
    const loads: nat -> bool
    var build: seq<Node>
    var wire: seq<int>
    var requested: seq<nat>
    var entry: int
    var modules: seq<Node>

    /** A new copy of module `cidx`; its initialisation may file a request. */
    method CreateOne(cidx: nat) returns (ok: bool)
      requires cidx < |extra|
      modifies this`build, this`requested
      ensures ok == loads(old(|build|))
      ensures build == old(build) + if ok then [Blank(cidx)] else []
      ensures ok ==> requested + Requests(extra, old(|build|) + 1, cidx + 1) ==
                     old(requested) + Requests(extra, old(|build|), cidx)
    {
      ok := loads(|build|);
      if ok {
        ghost var was := requested;
        if extra[cidx] >= 1 {
          requested := requested + [|build|];
          assert was + ([|build|] + Requests(extra, |build| + 1, cidx + 1)) ==
                 requested + Requests(extra, |build| + 1, cidx + 1);
        } else {
          assert [] + Requests(extra, |build| + 1, cidx + 1) == Requests(extra, |build| + 1, cidx + 1);
        }
        build := build + [Blank(cidx)];
      }
    }

    /** Phase 1: one copy of each module, linked in a row. */
    method MainChain() returns (ok: bool)
      requires |extra| >= 1 && build == [] && wire == [] && requested == []
      modifies this`build, this`requested, this`wire, this`entry
      ensures ok ==> Build(Tree(build, wire), requested) == Begin(extra) && entry == 0
      ensures !ok ==> |build| < |extra| && wire == [] && entry == old(entry)
      ensures ok ==> forall i :: 0 <= i < |build| ==> loads(i)
      ensures !ok ==> !loads(|build|)
    {
      var i := 0;
      while i < |extra|
        invariant i == |build| <= |extra| && wire == [] && entry == old(entry)
        invariant forall j :: 0 <= j < i ==> build[j] == Blank(j) && loads(j)
        invariant requested + Requests(extra, i, i) == Requests(extra, 0, 0)
      {
        ok := CreateOne(i);
        if !ok { return; }
        i := i + 1;
      }
      assert requested == Requests(extra, 0, 0);
      LinkMain();
      ok := true;
    }

    /** The copies of the main chain are linked, and the two ends numbered. */
    method LinkMain()
      requires |build| == |extra| >= 1 && forall j :: 0 <= j < |build| ==> build[j] == Blank(j)
      modifies this`build, this`wire, this`entry
      ensures Tree(build, wire) == MainTree(|extra|) && entry == 0
    {
      var i := 0;
      while i < |build|
        invariant |build| == |extra| && i <= |build|
        invariant forall j :: 0 <= j < i ==> build[j] == MainNode(|extra|, j).(wireDst := -1)
        invariant forall j :: i <= j < |build| ==> build[j] == Blank(j)
      {
        var prev, next := i - 1, if i + 1 < |build| then i + 1 else -1;
        build := build[i := build[i].(near := [prev, next])];
        i := i + 1;
      }
      entry := 0;
      wire := [-1, |build| - 1];
      build := build[0 := build[0].(wireDst := 0)];
      build := build[|build| - 1 := build[|build| - 1].(wireDst := 1)];
      assert build == MainTree(|extra|).nodes;
    }

    /** Link the newest copy behind `prev`. */
    method Link(prev: nat, mod: nat, slot: nat) returns (mp: nat)
      requires prev < |build| - 1 && forall v :: 0 <= v < |build| ==> |build[v].near| >= 2
      modifies this`build
      ensures build == LinkLast(old(build), prev, mod, slot) && mp == |build| - 1
    {
      mp := |build| - 1;
      build := build[mp := build[mp].(near := build[mp].near[0 := prev], slot := if prev == mod then slot else 1)];
      if prev != mod {
        build := build[prev := build[prev].(near := build[prev].near[1 := mp])];
      }
    }

    /** A copy of every module after `mc`, linked in a row behind `mod`. */
    method Copies(mod: nat, mc: nat, slot: nat) returns (ok: bool, first: int, last: nat)
      requires mod < |build| && mc + 1 < |extra|
      requires forall v :: 0 <= v < |build| ==> |build[v].near| >= 2
      modifies this`build, this`requested
      ensures !ok ==> !loads(|build|) && |build| >= old(|build|)
      ensures ok ==> forall i :: old(|build|) <= i < |build| ==> loads(i)
      ensures ok ==> first == old(|build|) && last == |build| - 1
      ensures ok ==> requested == old(requested) + Requests(extra, old(|build|), mc + 1)
      ensures ok ==> build == old(build) + SubChain(old(|build|), mod, mc, slot, |extra| - mc - 1, -1)
    {
      hide SubChain, LinkLast;
      ghost var b0, base := build, |build|;
      SubNone(base, mod, mc, slot);
      var prev := mod;
      first, last := -1, mod;
      var ri := mc + 1;
      while ri < |extra|
        invariant mc + 1 <= ri <= |extra|
        invariant build == b0 + SubChain(base, mod, mc, slot, ri - mc - 1, -1) && |build| == base + ri - mc - 1
        invariant prev == if ri == mc + 1 then mod else base + ri - mc - 2
        invariant first == if ri == mc + 1 then -1 else base
        invariant requested + Requests(extra, |build|, ri) == old(requested) + Requests(extra, base, mc + 1)
        invariant forall i :: base <= i < |build| ==> loads(i)
      {
        ok := CreateOne(ri);
        if !ok { return; }
        LinkStep(b0, mod, mc, slot, ri - mc - 1, prev);
        var mp := Link(prev, mod, slot);
        SubLength(base, mod, mc, slot, ri - mc);
        if first == -1 { first := mp; }
        prev := mp;
        ri := ri + 1;
      }
      RequestsEnd(extra, |build|);
      last := prev;
      ok := true;
    }

    /** One extra output of `mod`: copies of the later modules, a port, and link number `1 + k`. */
    method SubChainFor(mod: nat, mc: nat, k: nat) returns (ok: bool)
      requires mod < |build| && build[mod].cfg == mc && mc + 1 < |extra|
      requires 1 <= k && 2 + k <= |build[mod].near| && forall v :: 0 <= v < |build| ==> |build[v].near| >= 2
      modifies this`build, this`requested, this`wire
      ensures !ok ==> !loads(|build|) && |build| >= old(|build|) && wire == old(wire)
      ensures ok ==> forall i :: old(|build|) <= i < |build| ==> loads(i)
      ensures ok ==> old(|build|) <= |build| && |build[mod].near| == old(|build[mod].near|) && build[mod].cfg == mc
      ensures ok ==> requested == old(requested) + Requests(extra, old(|build|), mc + 1)
      ensures ok ==> Tree(Assigned(build, mod, k), wire) ==
                     AddOutput(Tree(old(Assigned(build, mod, k - 1)), old(wire)), |extra|, mod)
    {
      hide SubChain, Requests;
      var first, last;
      ok, first, last := Copies(mod, mc, 1 + k);
      if !ok { return; }
      var port := |wire|;
      ghost var b1 := build;
      build := build[last := build[last].(wireDst := port)];
      wire := wire + [last];
      build := build[mod := build[mod].(near := build[mod].near[1 + k := first])];
      PortStep(old(build), b1, mod, mc, k, |extra| - mc - 1, port, first);
    }

    /** The copies that were made all loaded. */
    ghost predicate Loaded()
      reads this
    {
      forall i :: 0 <= i < |build| ==> loads(i)
    }

    /** The creation of a sub-chain has failed: the copies will be destroyed, while the entry and the ports
        given out so far, too few of them, still name them. */
    ghost predicate Broken()
      reads this
    {
      |build| >= |extra| >= 1 && !loads(|build|) && 2 <= |wire| <= Width(extra, 0)
    }

    /** Serving one request, in a round that began with requests of modules `round` and later: all new
        requests are of later modules still. `rest` are the other requests of the round. */
    method Serve(mod: nat, ghost rest: seq<nat>, ghost round: nat) returns (ok: bool)
      requires |build| >= |extra| && mod < |build| && build[mod].cfg < |extra|
      requires var c := build[mod].cfg;
               Inv(extra, Build(Tree(build, wire), rest + requested), if c + 1 < |extra| then mod else -1, 0)
      requires AllAtLeast(build, rest, round) && AllAtLeast(build, requested, round + 1) && build[mod].cfg >= round
      requires Loaded()
      modifies this`build, this`requested, this`wire
      ensures !ok ==> Broken()
      ensures ok ==> |build| >= |extra| && Loaded()
      ensures ok ==> Build(Tree(build, wire), requested) ==
                     O.ServeRequest(extra, old(Build(Tree(build, wire), requested)), mod)
      ensures ok ==> AllAtLeast(build, rest, round) && AllAtLeast(build, requested, round + 1)
    {
      hide Inv, Requests, AddOutput, O.AddMany, TreeOk, Width;
      ok := true;
      var mc := build[mod].cfg;
      if mc + 1 >= |extra| { return; }
      var count := extra[mc];
      ghost var b0, b := build, Build(Tree(build, wire), requested);
      NoneYet(extra, Build(Tree(build, wire), rest + requested), mod);
      build := build[mod := build[mod].(near := Resize(build[mod].near, 2 + count))];
      Unassigned(b0, mod, count);
      NoneAdded(extra, b, mod);
      var k := 1;
      while k <= count
        invariant ok && 1 <= k <= count + 1 && |extra| <= |build| && mod < |build| && build[mod].cfg == mc
        invariant |build[mod].near| == 2 + count
        invariant Build(Tree(Assigned(build, mod, k - 1), wire), requested) == O.AddMany(extra, b, mod, k - 1)
        invariant AllAtLeast(Assigned(build, mod, k - 1), rest, round)
        invariant AllAtLeast(Assigned(build, mod, k - 1), requested, round + 1)
        invariant Loaded()
      {
        ghost var t := Tree(Assigned(build, mod, k - 1), wire);
        O.AddManyInv(extra, b.tree, rest, b.open, mod, k - 1);
        InvTree(extra, Build(t, rest + requested), mod, k - 1);
        OneAdded(extra, b, mod, k);
        NearTwo(t, |extra|);
        AssignedTwo(build, mod, k - 1);
        AtLeastGrows(extra, t, rest, round, mod);
        AtLeastNew(extra, t, requested, round + 1, mod);
        PortsMissing(extra, Build(t, rest + requested), mod, k - 1);
        ok := SubChainFor(mod, mc, k);
        if !ok { return; }
        k := k + 1;
      }
      AllAssigned(build, mod, count);
    }

    ghost function Now(pending: seq<nat>): O.Work
      reads this
    {
      O.Work(Tree(build, wire), pending, requested)
    }

    /** One round: all requests filed in the round before, in any order. `order` are the choices made so far
        by the iteration. */
    method Round(ghost round: nat, ghost order: seq<nat>) returns (ok: bool, ghost order': seq<nat>)
      requires |extra| >= 1 && |build| >= |extra| && requested != [] && Loaded()
      requires O.Possible(extra, O.Start(extra), order) && O.After(extra, O.Start(extra), order) == Now([])
      requires AllAtLeast(build, requested, round)
      modifies this`build, this`requested, this`wire
      ensures !ok ==> Broken()
      ensures ok ==> |build| >= |extra| && Loaded() && AllAtLeast(build, requested, round + 1)
      ensures ok ==> O.Possible(extra, O.Start(extra), order') && O.After(extra, O.Start(extra), order') == Now([])
    {
      hide Inv, O.After, O.Possible, O.ServeRequest, O.Start;
      ok := true;
      order' := order;
      var pending := requested;
      requested := [];
      while pending != []
        invariant ok && |build| >= |extra| && Loaded()
        invariant O.Possible(extra, O.Start(extra), order')
        invariant O.Round(O.After(extra, O.Start(extra), order')) == O.Round(Now(pending))
        invariant pending == [] ==> O.After(extra, O.Start(extra), order') == Now(pending)
        invariant AllAtLeast(build, pending, round) && AllAtLeast(build, requested, round + 1)
        decreases |pending|
      {
        var j: nat :| j < |pending|;
        var mod := pending[j];
        ghost var w := O.After(extra, O.Start(extra), order');
        NowOk(extra, order', Now(pending));
        TakePending(extra, Now(pending), j, round);
        O.AfterSnoc(extra, O.Start(extra), order', j);
        order' := order' + [j];
        pending := pending[..j] + pending[j + 1..];
        ok := Serve(mod, pending, round);
        if !ok { return; }
        assert O.Serve(extra, w, j) == Now(pending);
      }
    }

    /** Phase 2: rounds until no request is left. The smallest module index among the requests rises from
        round to round, so there are at most as many rounds as modules. */
    method SubChains() returns (ok: bool, ghost order: seq<nat>)
      requires |extra| >= 1 && |build| >= |extra| && Loaded() && Now([]) == O.Start(extra)
      modifies this`build, this`requested, this`wire
      ensures !ok ==> Broken()
      ensures ok ==> Loaded() && O.BuiltBy(extra, order, Tree(build, wire))
    {
      hide Inv, O.After, O.Possible, O.Start;
      ok, order := true, [];
      ghost var round := 0;
      NoChoices(extra);
      NowOk(extra, order, Now([]));
      RequestsInTree(extra, Build(Tree(build, wire), [] + requested));
      assert [] + requested == requested;
      while requested != []
        invariant ok && |build| >= |extra| && Loaded()
        invariant O.Possible(extra, O.Start(extra), order) && O.After(extra, O.Start(extra), order) == Now([])
        invariant AllAtLeast(build, requested, round)
        decreases |extra| - round
      {
        NowOk(extra, order, Now([]));
        assert [] + requested == requested;
        RequestsInTree(extra, Build(Tree(build, wire), requested));
        assert round <= build[requested[0]].cfg < |extra|;
        ok, order := Round(round, order);
        if !ok { return; }
        round := round + 1;
      }
    }

    /** The whole constructor. Either it ends with a finished chain, which is one of those that some order of
        serving the requests leads to, or some copy could not be created and the chain has no modules. In the
        second case the entry and the ports are unset, or, if a sub-chain failed, they name copies that are
        gone, and some ports are missing. */
    constructor (extra: Extra, loads: nat -> bool)
      ensures this.extra == extra && this.loads == loads
      ensures modules != [] ==> Finished(extra, Tree(modules, wire)) && entry == 0
      ensures modules != [] ==> exists order :: O.BuiltBy(extra, order, Tree(modules, wire))
      ensures modules != [] ==> forall i :: 0 <= i < |modules| ==> loads(i)
      ensures modules == [] ==> extra == [] || exists i :: !loads(i)
      ensures modules == [] ==>
                (entry == -1 && wire == []) || (entry == 0 && extra != [] && 2 <= |wire| <= Width(extra, 0))
    {
      this.extra, this.loads := extra, loads;
      build, wire, requested, entry, modules := [], [], [], -1, [];
      new;
      if extra != [] {
        var ok := MainChain();
        if ok {
          ghost var order;
          ok, order := SubChains();
          if ok {
            BuiltFinished(extra, order, Tree(build, wire));
            modules := build;
          }
        }
      }
    }

    /** The number of data connections to open besides the first. */
    method TotalExtraOutputs() returns (n: nat)
      requires modules != [] ==> Finished(extra, Tree(modules, wire))
      ensures modules != [] ==> n == Width(extra, 0) - 1
    {
      n := if |wire| < 2 then 0 else |wire| - 2;
    }
  }
}
