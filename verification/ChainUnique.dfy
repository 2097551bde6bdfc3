/** Exactly when the tree that the constructor of core/chain.cpp builds does not depend on the order in which
    an unordered map is iterated. */
module ChainUnique {
  import opened ChainTree
  import opened ChainBuild
  import opened ChainOrders

  /** Module `i` asks for outputs and is not last. */
  predicate Asker(extra: Extra, i: nat)
  {
    i + 1 < |extra| && extra[i] >= 1
  }

  ghost predicate AtMostOneAsks(extra: Extra)
  {
    forall i, j :: Asker(extra, i) && Asker(extra, j) ==> i == j
  }

  /** All orders that come to an end lead to the same tree. */
  ghost predicate OneTree(extra: Extra)
  {
    forall o, o', t, t' :: BuiltBy(extra, o, t) && BuiltBy(extra, o', t') ==> t == t'
  }

  // ----- One asker: the tree is forced -----

  /** The main chain with all outputs of `s`, if it asks. */
  function Only(extra: Extra, s: nat): Tree
    requires |extra| >= 1
  {
    ServeRequest(extra, Build(MainTree(|extra|), []), s).tree
  }

  /** Requests are of copies of the last module, except for that of copy `s`, and the tree is known. */
  ghost predicate Forced(extra: Extra, s: nat, w: Work)
  {
    var open := w.pending + w.requested;
    && |extra| >= 1
    && (forall i :: 0 <= i < |open| ==> Harmless(extra, w.tree, open[i]) || (open[i] == s && Asker(extra, s)))
    && w.tree == (if Asker(extra, s) && s in open then MainTree(|extra|) else Only(extra, s))
  }

  predicate Harmless(extra: Extra, t: Tree, v: nat)
  {
    v < |t.nodes| && t.nodes[v].cfg + 1 >= |extra|
  }

  lemma MainCfg(n: nat, v: nat)
    requires v < n
    ensures |MainTree(n).nodes| == n && MainTree(n).nodes[v].cfg == v
  {
  }

  lemma StartForced(extra: Extra, s: nat)
    requires |extra| >= 1 && forall i :: Asker(extra, i) ==> i == s
    ensures Forced(extra, s, Start(extra))
  {
    var w := Start(extra);
    var open := w.pending + w.requested;
    assert open == Requests(extra, 0, 0);
    RequestsMembers(extra, 0, 0);
    forall i | 0 <= i < |open|
      ensures Harmless(extra, w.tree, open[i]) || (open[i] == s && Asker(extra, s))
    {
      assert open[i] in open;
      MainCfg(|extra|, open[i]);
      assert open[i] + 1 < |extra| ==> Asker(extra, open[i]);
    }
    assert Asker(extra, s) ==> s in open by {
      assert Asker(extra, s) ==> Asks(extra, 0, 0, s);
    }
    NoOutputs(extra, s);
  }

  lemma NoOutputs(extra: Extra, s: nat)
    requires |extra| >= 1
    ensures !Asker(extra, s) ==> Only(extra, s) == MainTree(|extra|)
  {
    if s < |extra| {
      MainCfg(|extra|, s);
    } else {
      MainCfg(|extra|, 0);
    }
    if s + 1 < |extra| && extra[s] == 0 {
      assert AddMany(extra, Build(MainTree(|extra|), []), s, 0) == Build(MainTree(|extra|), []);
    }
  }

  lemma {:induction false} AddManyTree(extra: Extra, b: Build, c: Build, mod: nat, count: nat)
    requires mod < |b.tree.nodes| && b.tree.nodes[mod].cfg + 1 < |extra| && c.tree == b.tree
    ensures AddMany(extra, c, mod, count).tree == AddMany(extra, b, mod, count).tree
    decreases count
  {
    if count > 0 {
      AddManyTree(extra, b, c, mod, count - 1);
      hide AddOutput;
    }
  }

  /** What is filed while serving `s` are requests of copies of the last module. */
  lemma {:induction false} AddManyHarmless(extra: Extra, b: Build, s: nat, count: nat)
    requires s < |b.tree.nodes| && b.tree.nodes[s].cfg == s && s + 1 < |extra|
    requires forall i :: Asker(extra, i) ==> i == s
    requires forall i :: 0 <= i < |b.open| ==> Harmless(extra, b.tree, b.open[i])
    ensures var c := AddMany(extra, b, s, count);
            && |c.tree.nodes| >= |b.tree.nodes|
            && (forall v :: 0 <= v < |b.tree.nodes| ==> c.tree.nodes[v].cfg == b.tree.nodes[v].cfg)
            && forall i :: 0 <= i < |c.open| ==> Harmless(extra, c.tree, c.open[i])
    decreases count
  {
    if count > 0 {
      AddManyHarmless(extra, b, s, count - 1);
      var c := AddMany(extra, b, s, count - 1);
      OneHarmless(extra, c, s);
    }
  }

  lemma OneHarmless(extra: Extra, c: Build, s: nat)
    requires s < |c.tree.nodes| && c.tree.nodes[s].cfg == s && s + 1 < |extra|
    requires forall i :: Asker(extra, i) ==> i == s
    requires forall i :: 0 <= i < |c.open| ==> Harmless(extra, c.tree, c.open[i])
    ensures var d := OneOutput(extra, c, s);
            && |d.tree.nodes| >= |c.tree.nodes|
            && (forall v :: 0 <= v < |c.tree.nodes| ==> d.tree.nodes[v].cfg == c.tree.nodes[v].cfg)
            && forall i :: 0 <= i < |d.open| ==> Harmless(extra, d.tree, d.open[i])
  {
    var d := OneOutput(extra, c, s);
    var more := Requests(extra, |c.tree.nodes|, s + 1);
    OutputNodes(c.tree, |extra|, s);
    RequestsMembers(extra, |c.tree.nodes|, s + 1);
    hide AddOutput, Requests, NoDup;
    forall i | 0 <= i < |d.open|
      ensures Harmless(extra, d.tree, d.open[i])
    {
      if i < |c.open| {
        assert Harmless(extra, c.tree, c.open[i]);
      } else {
        var v := d.open[i];
        assert v == more[i - |c.open|] && more[i - |c.open|] in more;
        assert Asks(extra, |c.tree.nodes|, s + 1, v);
        var m: nat := s + 1 + (v - |c.tree.nodes|);
        assert !Asker(extra, m);
      }
    }
  }

  lemma RoundForced(extra: Extra, s: nat, w: Work)
    requires Forced(extra, s, w)
    ensures Forced(extra, s, Round(w))
  {
    hide Only;
    assert w.pending == [] ==> w.pending + w.requested == w.requested + [];
  }

  lemma ServeForced(extra: Extra, s: nat, w: Work, k: nat)
    requires Forced(extra, s, w) && WorkOk(extra, w) && k < |Round(w).pending|
    requires forall i :: Asker(extra, i) ==> i == s
    ensures Forced(extra, s, Serve(extra, w, k))
  {
    hide Inv, Forced;
    RoundForced(extra, s, w);
    RoundOk(extra, w);
    var r := Round(w);
    OpenDiffers(extra, r, k);
    if r.pending[k] == s && Asker(extra, s) {
      ServeAsker(extra, s, r, k);
    } else {
      ServeHarmless(extra, s, r, k);
    }
  }

  /** No other open request is of the copy being served. */
  lemma OpenDiffers(extra: Extra, r: Work, k: nat)
    requires WorkOk(extra, r) && k < |r.pending|
    ensures r.pending[k] !in Without(r.pending, k) + r.requested
  {
    var b := Build(r.tree, r.pending + r.requested);
    assert NoDup(b.open) by { hide OutputsOk, OwedAll, Width, TreeOk; }
    var rest := Without(r.pending, k) + r.requested;
    forall i | 0 <= i < |rest|
      ensures rest[i] != r.pending[k]
    {
      assert b.open[k] == r.pending[k] && rest[i] == b.open[if i < k then i else i + 1];
    }
  }

  lemma ServeNothing(extra: Extra, r: Work, k: nat)
    requires k < |r.pending| && Harmless(extra, r.tree, r.pending[k])
    ensures Serve(extra, r, k) == Work(r.tree, Without(r.pending, k), r.requested)
  {
  }

  lemma ServeHarmless(extra: Extra, s: nat, r: Work, k: nat)
    requires Forced(extra, s, r) && r.pending != [] && k < |r.pending| && !(r.pending[k] == s && Asker(extra, s))
    requires r.pending[k] !in Without(r.pending, k) + r.requested
    ensures Forced(extra, s, Serve(extra, r, k))
  {
    hide Only, Serve, MainTree, Asker;
    var open, rest := r.pending + r.requested, Without(r.pending, k) + r.requested;
    assert open[k] == r.pending[k];
    ServeNothing(extra, r, k);
    assert forall i :: 0 <= i < |rest| ==> rest[i] == open[if i < k then i else i + 1];
    if s in open && s != r.pending[k] {
      var i :| 0 <= i < |open| && open[i] == s;
      assert rest[if i < k then i else i - 1] == s;
    }
  }

  lemma ServeAsker(extra: Extra, s: nat, r: Work, k: nat)
    requires Forced(extra, s, r) && r.pending != [] && k < |r.pending| && r.pending[k] == s && Asker(extra, s)
    requires s !in Without(r.pending, k) + r.requested
    requires forall i :: Asker(extra, i) ==> i == s
    ensures Forced(extra, s, Serve(extra, r, k))
  {
    var open, rest := r.pending + r.requested, Without(r.pending, k);
    assert open[k] == s;
    MainCfg(|extra|, s);
    assert r.tree == MainTree(|extra|);
    assert forall i :: 0 <= i < |rest + r.requested| ==> (rest + r.requested)[i] == open[if i < k then i else i + 1];
    assert forall i :: 0 <= i < |rest + r.requested| ==> (rest + r.requested)[i] != s;
    forall i | 0 <= i < |r.requested|
      ensures Harmless(extra, r.tree, r.requested[i])
    {
      assert r.requested[i] == (rest + r.requested)[|rest| + i];
    }
    forall i | 0 <= i < |rest|
      ensures Harmless(extra, r.tree, rest[i])
    {
      assert rest[i] == (rest + r.requested)[i];
    }
    AddManyHarmless(extra, Build(r.tree, r.requested), s, extra[s]);
    AddManyTree(extra, Build(r.tree, []), Build(r.tree, r.requested), s, extra[s]);
    AfterAsker(extra, s, r, rest, AddMany(extra, Build(r.tree, r.requested), s, extra[s]));
  }

  lemma AfterAsker(extra: Extra, s: nat, r: Work, rest: seq<nat>, b: Build)
    requires |extra| >= 1 && Asker(extra, s) && |b.tree.nodes| >= |r.tree.nodes| && b.tree == Only(extra, s)
    requires forall v :: 0 <= v < |r.tree.nodes| ==> b.tree.nodes[v].cfg == r.tree.nodes[v].cfg
    requires forall i :: 0 <= i < |rest| ==> Harmless(extra, r.tree, rest[i])
    requires forall i :: 0 <= i < |b.open| ==> Harmless(extra, b.tree, b.open[i])
    requires s < |r.tree.nodes| && r.tree.nodes[s].cfg + 1 < |extra|
    ensures Forced(extra, s, Work(b.tree, rest, b.open))
  {
    hide Only;
    var open := rest + b.open;
    forall i | 0 <= i < |open|
      ensures Harmless(extra, b.tree, open[i]) && open[i] != s
    {
      if i < |rest| {
        assert Harmless(extra, r.tree, rest[i]);
      } else {
        assert open[i] == b.open[i - |rest|];
      }
    }
  }

  lemma {:induction false} AfterForced(extra: Extra, s: nat, w: Work, order: seq<nat>)
    requires Forced(extra, s, w) && WorkOk(extra, w) && Possible(extra, w, order)
    requires forall i :: Asker(extra, i) ==> i == s
    ensures Forced(extra, s, After(extra, w, order))
    decreases |order|
  {
    if order != [] {
      hide Forced, WorkOk, Serve, Round, Asker;
      ServeForced(extra, s, w, order[0]);
      ServeOk(extra, w, order[0]);
      AfterForced(extra, s, Serve(extra, w, order[0]), order[1..]);
    }
  }

  lemma OneAskerTree(extra: Extra, s: nat, order: seq<nat>, t: Tree)
    requires BuiltBy(extra, order, t) && forall i :: Asker(extra, i) ==> i == s
    ensures t == Only(extra, s)
  {
    hide WorkOk, Asker;
    StartOk(extra);
    StartForced(extra, s);
    AfterForced(extra, s, Start(extra), order);
  }

  // ----- Two askers: the tree depends on the order -----

  /** `t'` has grown out of `t`: copies keep their module and the link towards the entry, ports their copy. */
  ghost predicate Extends(t: Tree, t': Tree)
  {
    && |t.nodes| <= |t'.nodes| && t.wire <= t'.wire
    && forall v :: 0 <= v < |t.nodes| ==>
         && |t.nodes[v].near| >= 1 && |t'.nodes[v].near| >= 1
         && t'.nodes[v].near[0] == t.nodes[v].near[0] && t'.nodes[v].cfg == t.nodes[v].cfg
  }

  lemma ExtendsTrans(a: Tree, b: Tree, c: Tree)
    requires Extends(a, b) && Extends(b, c)
    ensures Extends(a, c)
  {
  }

  lemma OutputExtends(t: Tree, n: nat, mod: nat)
    requires mod < |t.nodes| && t.nodes[mod].cfg + 1 < n && Linked0(t)
    ensures Extends(t, AddOutput(t, n, mod)) && Linked0(AddOutput(t, n, mod))
  {
    var t' := AddOutput(t, n, mod);
    AddedNode(t, n, mod, 0);
    forall v | 0 <= v < |t'.nodes|
      ensures |t'.nodes[v].near| >= 1
      ensures v < |t.nodes| ==> t'.nodes[v].near[0] == t.nodes[v].near[0] && t'.nodes[v].cfg == t.nodes[v].cfg
    {
      AddedNode(t, n, mod, v);
    }
    hide AddOutput;
  }

  predicate Linked0(t: Tree)
  {
    forall v :: 0 <= v < |t.nodes| ==> |t.nodes[v].near| >= 1
  }

  lemma {:induction false} AddManyExtends(extra: Extra, b: Build, mod: nat, count: nat)
    requires mod < |b.tree.nodes| && b.tree.nodes[mod].cfg + 1 < |extra| && Linked0(b.tree)
    ensures Extends(b.tree, AddMany(extra, b, mod, count).tree) && Linked0(AddMany(extra, b, mod, count).tree)
    ensures |AddMany(extra, b, mod, count).tree.wire| == |b.tree.wire| + count
    decreases count
  {
    if count > 0 {
      hide AddOutput, AddMany, Extends, Requests, Linked0;
      AddManyExtends(extra, b, mod, count - 1);
      var c := AddMany(extra, b, mod, count - 1);
      OutputExtends(c.tree, |extra|, mod);
      OutputNodes(c.tree, |extra|, mod);
      ExtendsTrans(b.tree, c.tree, AddOutput(c.tree, |extra|, mod));
      AddManyDef(extra, b, mod, count);
    } else {
      SelfExtends(b.tree);
    }
  }

  lemma AddManyDef(extra: Extra, b: Build, mod: nat, count: nat)
    requires mod < |b.tree.nodes| && b.tree.nodes[mod].cfg + 1 < |extra| && count > 0
    ensures AddMany(extra, b, mod, count).tree == AddOutput(AddMany(extra, b, mod, count - 1).tree, |extra|, mod)
  {
  }

  lemma ServeExtends(extra: Extra, w: Work, k: nat)
    requires k < |Round(w).pending| && Linked0(w.tree)
    ensures Extends(w.tree, Serve(extra, w, k).tree) && Linked0(Serve(extra, w, k).tree)
  {
    var r := Round(w);
    var mod := r.pending[k];
    if mod < |r.tree.nodes| && r.tree.nodes[mod].cfg + 1 < |extra| {
      AddManyExtends(extra, Build(r.tree, r.requested), mod, extra[r.tree.nodes[mod].cfg]);
    }
    hide AddMany;
  }

  lemma WorkLinked(extra: Extra, w: Work)
    requires WorkOk(extra, w)
    ensures Linked0(w.tree) && |w.tree.wire| <= 1 + Width(extra, 0)
  {
    hide OutputsOk, OpenOk, OwedAll, Width, ForwardOk;
    forall v | 0 <= v < |w.tree.nodes|
      ensures |w.tree.nodes[v].near| >= 1
    {
      assert BackOk(w.tree, |extra|, v);
    }
  }

  /** Something is left to serve; serving it brings the end nearer. */
  lemma ServeShrinks(extra: Extra, w: Work)
    requires WorkOk(extra, w) && Round(w).pending != []
    ensures var v := Serve(extra, w, 0);
            || |v.tree.wire| > |w.tree.wire|
            || (|v.tree.wire| == |w.tree.wire| && |v.pending| + |v.requested| < |w.pending| + |w.requested|)
  {
    hide Inv;
    WorkLinked(extra, w);
    var r := Round(w);
    var mod := r.pending[0];
    if mod < |r.tree.nodes| && r.tree.nodes[mod].cfg + 1 < |extra| {
      var count := extra[r.tree.nodes[mod].cfg];
      AddManyExtends(extra, Build(r.tree, r.requested), mod, count);
      if count == 0 {
        assert AddMany(extra, Build(r.tree, r.requested), mod, 0) == Build(r.tree, r.requested);
      }
    }
    hide AddMany, Extends;
  }

  /** From every state some order comes to an end. */
  lemma {:induction false} Finishing(extra: Extra, w: Work) returns (order: seq<nat>)
    requires WorkOk(extra, w)
    ensures Possible(extra, w, order)
    ensures var v := After(extra, w, order); v.pending == [] && v.requested == [] && Extends(w.tree, v.tree)
    decreases if |extra| >= 1 && |w.tree.wire| <= 1 + Width(extra, 0) then 1 + Width(extra, 0) - |w.tree.wire| else 0,
              |w.pending| + |w.requested|
  {
    WorkLinked(extra, w);
    assert |extra| >= 1;
    if w.pending == [] && w.requested == [] {
      order := [];
    } else {
      hide WorkOk, Serve, Width, Extends, Possible, After;
      ServeOk(extra, w, 0);
      ServeShrinks(extra, w);
      ServeExtends(extra, w, 0);
      WorkLinked(extra, Serve(extra, w, 0));
      var more := Finishing(extra, Serve(extra, w, 0));
      order := [0] + more;
      AfterCons(extra, w, 0, more);
      ExtendsTrans(w.tree, Serve(extra, w, 0).tree, After(extra, w, order).tree);
    }
  }

  lemma AfterCons(extra: Extra, w: Work, k: nat, more: seq<nat>)
    requires k < |Round(w).pending| && Possible(extra, Serve(extra, w, k), more)
    ensures Possible(extra, w, [k] + more) && After(extra, w, [k] + more) == After(extra, Serve(extra, w, k), more)
  {
    hide Serve, Round;
    assert ([k] + more)[1..] == more;
  }

  // ----- Where port 2 leaves the path of port 1 -----

  lemma {:induction false} PathExtends(t: Tree, t': Tree, n: nat, v: nat)
    requires v < |t.nodes| && Extends(t, t')
    requires forall u :: 0 <= u < |t.nodes| ==> BackOk(t, n, u)
    requires forall u :: 0 <= u < |t'.nodes| ==> BackOk(t', n, u)
    ensures Path(t', n, v) == Path(t, n, v)
    decreases v
  {
    if v > 0 {
      assert BackOk(t, n, v) && BackOk(t', n, v);
      PathExtends(t, t', n, t.nodes[v].near[0]);
    }
  }

  /** The paths to ports 1 and 2 agree up to module `i` and part there. */
  ghost predicate PartAfter(t: Tree, n: nat, i: nat)
  {
    && TreeOk(t, n) && |t.wire| >= 3 && i + 1 < n
    && 0 <= t.wire[1] < |t.nodes| && 0 <= t.wire[2] < |t.nodes|
    && var p, q := Path(t, n, t.wire[1]), Path(t, n, t.wire[2]);
    && |p| == n == |q| && p[..i + 1] == q[..i + 1] && p[i + 1] != q[i + 1]
  }

  lemma {:induction false} MainPath(t: Tree, n: nat, v: nat)
    requires v < |t.nodes| && v < n && forall u :: 0 <= u < |t.nodes| ==> BackOk(t, n, u)
    requires forall u :: 0 <= u < n && u < |t.nodes| ==> |t.nodes[u].near| >= 1 && t.nodes[u].near[0] == u - 1
    ensures |Path(t, n, v)| == v + 1
    ensures var p := Path(t, n, v); forall u :: 0 <= u <= v ==> p[u] == u
    decreases v
  {
    if v > 0 {
      assert BackOk(t, n, v);
      MainPath(t, n, v - 1);
    }
  }

  /** The path to copy number `r` of a sub-chain behind copy `i` of the main chain. */
  lemma {:induction false} SubPath(t: Tree, n: nat, i: nat, r: nat)
    requires n >= 1 && i + 1 < n && r < n - 1 - i && t == AddOutput(MainTree(n), n, i) && TreeOk(t, n)
    ensures n + r < |t.nodes|
    ensures |Path(t, n, n + r)| == i + 2 + r && Path(t, n, n + r)[i + 1] == n
    ensures var q := Path(t, n, n + r); forall u :: 0 <= u <= i ==> q[u] == u
    decreases r
  {
    hide AddOutput, Path, TreeOk, MainTree;
    MainCfg(n, i);
    AddedNode(MainTree(n), n, i, n + r);
    PathDef(t, n, n + r);
    if r == 0 {
      MainLinks(t, n, i);
      MainBack(t, n, i);
    } else {
      SubPath(t, n, i, r - 1);
    }
  }

  lemma PathDef(t: Tree, n: nat, v: nat)
    requires TreeOk(t, n) && 0 < v < |t.nodes|
    ensures |t.nodes[v].near| >= 1 && 0 <= t.nodes[v].near[0] < v &&
            Path(t, n, v) == Path(t, n, t.nodes[v].near[0]) + [v]
  {
    assert BackOk(t, n, v);
    hide ForwardOk, PortsOk;
  }

  lemma MainBack(t: Tree, n: nat, v: nat)
    requires TreeOk(t, n) && v < |t.nodes| && v < n
    requires forall u :: 0 <= u < n && u < |t.nodes| ==> |t.nodes[u].near| >= 1 && t.nodes[u].near[0] == u - 1
    ensures |Path(t, n, v)| == v + 1
    ensures var p := Path(t, n, v); forall u :: 0 <= u <= v ==> p[u] == u
  {
    hide ForwardOk, PortsOk;
    MainPath(t, n, v);
  }

  lemma MainLinks(t: Tree, n: nat, i: nat)
    requires n >= 1 && i + 1 < n && t == AddOutput(MainTree(n), n, i)
    ensures |t.nodes| >= n && forall u :: 0 <= u < n ==> |t.nodes[u].near| >= 1 && t.nodes[u].near[0] == u - 1
  {
    MainCfg(n, i);
    forall u | 0 <= u < n
      ensures u < |t.nodes| && |t.nodes[u].near| >= 1 && t.nodes[u].near[0] == u - 1
    {
      AddedNode(MainTree(n), n, i, u);
      assert MainTree(n).nodes[u] == MainNode(n, u);
    }
  }

  lemma FirstPorts(n: nat, i: nat)
    requires n >= 1 && i + 1 < n
    ensures var t := AddOutput(MainTree(n), n, i);
            TreeOk(t, n) && |t.nodes| > n + (n - 2 - i) && t.wire == [-1, n - 1, n + (n - 2 - i)]
  {
    hide TreeOk;
    MainCfg(n, i);
    MainOk(n);
    AddKeeps(MainTree(n), n, i);
    AddedNode(MainTree(n), n, i, 0);
  }

  lemma FirstParts(n: nat, i: nat)
    requires n >= 1 && i + 1 < n
    ensures i < |MainTree(n).nodes| && MainTree(n).nodes[i].cfg == i
    ensures PartAfter(AddOutput(MainTree(n), n, i), n, i)
  {
    hide AddOutput, TreeOk, MainTree, Path;
    MainCfg(n, i);
    FirstPorts(n, i);
    var t := AddOutput(MainTree(n), n, i);
    MainLinks(t, n, i);
    MainBack(t, n, n - 1);
    SubPath(t, n, i, n - 2 - i);
  }

  lemma PartExtends(t: Tree, t': Tree, n: nat, i: nat)
    requires PartAfter(t, n, i) && Extends(t, t') && TreeOk(t', n)
    ensures PartAfter(t', n, i)
  {
    PathExtends(t, t', n, t.wire[1]);
    PathExtends(t, t', n, t.wire[2]);
    assert t'.wire[1] == t.wire[1] && t'.wire[2] == t.wire[2];
    hide BackOk, ForwardOk, PortsOk;
  }

  lemma {:induction false} AddManyFromFirst(extra: Extra, b: Build, mod: nat, count: nat)
    requires mod < |b.tree.nodes| && b.tree.nodes[mod].cfg + 1 < |extra| && Linked0(b.tree) && count >= 1
    ensures Extends(AddOutput(b.tree, |extra|, mod), AddMany(extra, b, mod, count).tree)
    decreases count
  {
    assert AddMany(extra, b, mod, 0) == b;
    hide AddOutput, Extends, AddMany, Requests, Linked0;
    OutputExtends(b.tree, |extra|, mod);
    AddManyDef(extra, b, mod, count);
    if count == 1 {
      SelfExtends(AddOutput(b.tree, |extra|, mod));
    } else {
      AddManyFromFirst(extra, b, mod, count - 1);
      AddManyExtends(extra, b, mod, count - 1);
      var c := AddMany(extra, b, mod, count - 1);
      OutputExtends(c.tree, |extra|, mod);
      ExtendsTrans(AddOutput(b.tree, |extra|, mod), c.tree, AddOutput(c.tree, |extra|, mod));
    }
  }

  lemma SelfExtends(t: Tree)
    requires Linked0(t)
    ensures Extends(t, t)
  {
  }

  /** The first choice of the iteration can be any asker. */
  lemma ServeFirst(extra: Extra, i: nat) returns (k: nat)
    requires Asker(extra, i)
    ensures k < |Round(Start(extra)).pending|
    ensures i < |MainTree(|extra|).nodes| && MainTree(|extra|).nodes[i].cfg == i
    ensures Extends(AddOutput(MainTree(|extra|), |extra|, i), Serve(extra, Start(extra), k).tree)
  {
    RequestsMembers(extra, 0, 0);
    assert Asks(extra, 0, 0, i);
    var open := Requests(extra, 0, 0);
    k :| 0 <= k < |open| && open[k] == i;
    MainCfg(|extra|, i);
    hide Requests, NoDup, AddOutput, AddMany;
    MainLinked(|extra|);
    AddManyFromFirst(extra, Build(MainTree(|extra|), []), i, extra[i]);
  }

  lemma MainLinked(n: nat)
    requires n >= 1
    ensures Linked0(MainTree(n))
  {
  }

  /** For every asker some order makes port 2 leave the path of port 1 behind it. */
  lemma OrderFor(extra: Extra, i: nat) returns (order: seq<nat>, t: Tree)
    requires Asker(extra, i)
    ensures BuiltBy(extra, order, t) && PartAfter(t, |extra|, i)
  {
    hide WorkOk, Serve, AddOutput, Extends, PartAfter;
    var k := ServeFirst(extra, i);
    StartOk(extra);
    ServeOk(extra, Start(extra), k);
    var w := Serve(extra, Start(extra), k);
    var more := Finishing(extra, w);
    order := [k] + more;
    AfterCons(extra, Start(extra), k, more);
    t := After(extra, w, more).tree;
    AfterOk(extra, w, more);
    OkTree(extra, After(extra, w, more));
    FirstParts(|extra|, i);
    var first := AddOutput(MainTree(|extra|), |extra|, i);
    ExtendsTrans(first, w.tree, t);
    PartExtends(first, t, |extra|, i);
  }

  lemma OkTree(extra: Extra, w: Work)
    requires WorkOk(extra, w)
    ensures TreeOk(w.tree, |extra|)
  {
    hide TreeOk, OpenOk, OutputsOk, OwedAll, Width;
  }

  /** Two askers: there are two orders whose trees differ in where port 2 leaves the path of port 1. */
  lemma OrdersDiffer(extra: Extra, i: nat, j: nat)
    requires Asker(extra, i) && Asker(extra, j) && i < j
    ensures exists o, t, o', t' ::
              && BuiltBy(extra, o, t) && PartAfter(t, |extra|, i)
              && BuiltBy(extra, o', t') && PartAfter(t', |extra|, j) && t != t'
  {
    hide BuiltBy;
    var o, t := OrderFor(extra, i);
    var o', t' := OrderFor(extra, j);
    PartOnce(t, t', |extra|, i, j);
  }

  lemma PartOnce(t: Tree, t': Tree, n: nat, i: nat, j: nat)
    requires PartAfter(t, n, i) && PartAfter(t', n, j) && i < j
    ensures t != t'
  {
    hide BackOk, ForwardOk, PortsOk;
    var p, q := Path(t', n, t'.wire[1]), Path(t', n, t'.wire[2]);
    assert p[..j + 1][i + 1] == q[..j + 1][i + 1];
  }

  /** The tree, and with it the numbering of the ports, is the same for every iteration order if and only if at
      most one module other than the last asks for outputs. */
  lemma OneTreeIff(extra: Extra)
    ensures OneTree(extra) <==> AtMostOneAsks(extra)
  {
    hide BuiltBy, Only, Asker, PartAfter;
    if AtMostOneAsks(extra) {
      forall o, o', t, t' | BuiltBy(extra, o, t) && BuiltBy(extra, o', t')
        ensures t == t'
      {
        var s: nat := if i: nat :| Asker(extra, i) then i else 0;
        AnySame(extra, s, o, t);
        AnySame(extra, s, o', t');
      }
    } else {
      var i: nat, j: nat :| Asker(extra, i) && Asker(extra, j) && i != j;
      OrdersDiffer(extra, if i < j then i else j, if i < j then j else i);
    }
  }

  lemma AnySame(extra: Extra, s: nat, o: seq<nat>, t: Tree)
    requires BuiltBy(extra, o, t) && forall i :: Asker(extra, i) ==> i == s
    ensures |extra| >= 1 && t == Only(extra, s)
  {
    OneAskerTree(extra, s, o, t);
  }
}
