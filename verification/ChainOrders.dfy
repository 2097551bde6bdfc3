/** The orders in which the constructor of core/chain.cpp can serve requests, and the trees they lead to. */
module ChainOrders {
  import opened ChainTree
  import opened ChainBuild

  // ----- Serving requests in some order -----

  /** The tree so far, the requests of the round being served and those filed during it. */
  datatype Work = Work(tree: Tree, pending: seq<nat>, requested: seq<nat>)

  function Start(extra: Extra): Work
    requires |extra| >= 1
  {
    Work(MainTree(|extra|), [], Requests(extra, 0, 0))
  }

  /** A new round begins when the old one is over. */
  function Round(w: Work): Work
  {
    if w.pending == [] then Work(w.tree, w.requested, []) else w
  }

  /** `count` extra outputs for `mod`. */
  function AddMany(extra: Extra, b: Build, mod: nat, count: nat): (r: Build)
    requires mod < |b.tree.nodes| && b.tree.nodes[mod].cfg + 1 < |extra|
    ensures mod < |r.tree.nodes| && r.tree.nodes[mod].cfg == b.tree.nodes[mod].cfg
  {
    if count == 0 then b
    else
      var c := AddMany(extra, b, mod, count - 1);
      OutputNodes(c.tree, |extra|, mod);
      OneOutput(extra, c, mod)
  }

  /** All outputs that the copy `mod` has asked for; a request of the last module is dropped. */
  function ServeRequest(extra: Extra, b: Build, mod: nat): Build
  {
    if mod < |b.tree.nodes| && b.tree.nodes[mod].cfg + 1 < |extra| then
      AddMany(extra, b, mod, extra[b.tree.nodes[mod].cfg])
    else b
  }

  function Without(s: seq<nat>, k: nat): seq<nat>
    requires k < |s|
  {
    s[..k] + s[k + 1..]
  }

  /** The iteration comes to request number `k` of the round. */
  function Serve(extra: Extra, w: Work, k: nat): Work
    requires k < |Round(w).pending|
  {
    var r := Round(w);
    var b := ServeRequest(extra, Build(r.tree, r.requested), r.pending[k]);
    Work(b.tree, Without(r.pending, k), b.open)
  }

  /** `order` is the list of the choices that the iteration makes. */
  predicate Possible(extra: Extra, w: Work, order: seq<nat>)
    decreases |order|
  {
    order == [] || (order[0] < |Round(w).pending| && Possible(extra, Serve(extra, w, order[0]), order[1..]))
  }

  function After(extra: Extra, w: Work, order: seq<nat>): Work
    requires Possible(extra, w, order)
    decreases |order|
  {
    if order == [] then w else After(extra, Serve(extra, w, order[0]), order[1..])
  }

  /** The iteration can end with the tree `t`. */
  ghost predicate BuiltBy(extra: Extra, order: seq<nat>, t: Tree)
  {
    |extra| >= 1 && Possible(extra, Start(extra), order) && After(extra, Start(extra), order) == Work(t, [], [])
  }

  lemma {:induction false} AfterSnoc(extra: Extra, w: Work, order: seq<nat>, k: nat)
    requires Possible(extra, w, order) && k < |Round(After(extra, w, order)).pending|
    ensures Possible(extra, w, order + [k])
    ensures After(extra, w, order + [k]) == Serve(extra, After(extra, w, order), k)
    decreases |order|
  {
    hide Serve, Round;
    if order == [] {
      assert (order + [k])[1..] == [];
      assert Possible(extra, Serve(extra, w, k), []);
    } else {
      assert (order + [k])[1..] == order[1..] + [k];
      AfterSnoc(extra, Serve(extra, w, order[0]), order[1..], k);
    }
  }

  // ----- What every choice keeps -----

  ghost predicate WorkOk(extra: Extra, w: Work)
  {
    Inv(extra, Build(w.tree, w.pending + w.requested), -1, 0)
  }

  lemma RoundOk(extra: Extra, w: Work)
    requires WorkOk(extra, w)
    ensures WorkOk(extra, Round(w))
  {
    hide Inv;
    assert w.pending == [] ==> w.pending + w.requested == w.requested + [];
  }

  /** Adding outputs one by one, while the other requests `rest` wait. */
  lemma {:induction false} AddManyInv(extra: Extra, tree: Tree, rest: seq<nat>, requested: seq<nat>, mod: nat,
                                      count: nat)
    requires mod < |tree.nodes| && tree.nodes[mod].cfg + 1 < |extra| && count <= extra[tree.nodes[mod].cfg]
    requires Inv(extra, Build(tree, rest + requested), mod, 0)
    ensures var b := AddMany(extra, Build(tree, requested), mod, count);
            Inv(extra, Build(b.tree, rest + b.open), mod, count)
    decreases count
  {
    hide Inv, OneOutput;
    if count > 0 {
      AddManyInv(extra, tree, rest, requested, mod, count - 1);
      var c := AddMany(extra, Build(tree, requested), mod, count - 1);
      OutputInv(extra, Build(c.tree, rest + c.open), mod, count - 1);
      OneOutputBehind(extra, c, rest, mod);
    }
  }

  lemma OneOutputBehind(extra: Extra, c: Build, rest: seq<nat>, mod: nat)
    requires mod < |c.tree.nodes| && c.tree.nodes[mod].cfg + 1 < |extra|
    ensures var d := OneOutput(extra, c, mod);
            OneOutput(extra, Build(c.tree, rest + c.open), mod) == Build(d.tree, rest + d.open)
  {
    var more := Requests(extra, |c.tree.nodes|, c.tree.nodes[mod].cfg + 1);
    assert (rest + c.open) + more == rest + (c.open + more);
  }

  lemma TakeFront(extra: Extra, w: Work, k: nat)
    requires WorkOk(extra, w) && k < |w.pending|
    ensures var mod := w.pending[k];
            && mod < |w.tree.nodes| && w.tree.nodes[mod].cfg < |extra|
            && Inv(extra, Build(w.tree, Without(w.pending, k) + w.requested),
                   if w.tree.nodes[mod].cfg + 1 < |extra| then mod else -1, 0)
  {
    var b := Build(w.tree, w.pending + w.requested);
    assert b.open[k] == w.pending[k];
    assert b.open[..k] == w.pending[..k] && b.open[k + 1..] == w.pending[k + 1..] + w.requested;
    assert Take(b, k).open == Without(w.pending, k) + w.requested;
    OpenHas(extra, b, k);
    hide Inv;
    TakeInv(extra, b, k);
  }

  lemma OpenHas(extra: Extra, b: Build, k: nat)
    requires Inv(extra, b, -1, 0) && k < |b.open|
    ensures b.open[k] < |b.tree.nodes| && b.tree.nodes[b.open[k]].cfg < |extra|
  {
    hide NoDup, TreeOk, OutputsOk, OwedAll, Width, CurOwes;
    OpenAt(extra, b, k);
  }

  lemma ServeOk(extra: Extra, w: Work, k: nat)
    requires WorkOk(extra, w) && k < |Round(w).pending|
    ensures WorkOk(extra, Serve(extra, w, k))
  {
    hide Inv;
    RoundOk(extra, w);
    var r := Round(w);
    TakeFront(extra, r, k);
    var mod := r.pending[k];
    var c := r.tree.nodes[mod].cfg;
    if c + 1 < |extra| {
      AddManyInv(extra, r.tree, Without(r.pending, k), r.requested, mod, extra[c]);
      var b := AddMany(extra, Build(r.tree, r.requested), mod, extra[c]);
      ServedInv(extra, Build(b.tree, Without(r.pending, k) + b.open), mod);
    }
  }

  lemma StartOk(extra: Extra)
    requires |extra| >= 1
    ensures WorkOk(extra, Start(extra))
  {
    BeginInv(extra);
    hide Inv;
    assert [] + Requests(extra, 0, 0) == Requests(extra, 0, 0);
  }

  lemma {:induction false} AfterOk(extra: Extra, w: Work, order: seq<nat>)
    requires WorkOk(extra, w) && Possible(extra, w, order)
    ensures WorkOk(extra, After(extra, w, order))
    decreases |order|
  {
    if order != [] {
      hide WorkOk, Serve, Round;
      ServeOk(extra, w, order[0]);
      AfterOk(extra, Serve(extra, w, order[0]), order[1..]);
    }
  }
}
