/** The tree of module copies that the constructor of core/chain.cpp builds. */
module ChainTree {

  /** A module copy: its index in the configuration, its links (`near[0]` towards the entry, the others
      towards the wire, -1 for none) and the port it writes to. `slot` is history: which link of `near[0]`
      leads here. */
  datatype Node = Node(cfg: nat, near: seq<int>, wireDst: int, slot: nat)

  /** `wire` is the table of wire entries; entry 0 is unused. */
  datatype Tree = Tree(nodes: seq<Node>, wire: seq<int>)

  /** How many extra outputs each module of the configuration requests. */
  type Extra = seq<nat>

  // ----- The main chain -----

  function MainNode(n: nat, i: nat): Node
    requires i < n
  {
    Node(i, [i - 1, if i + 1 < n then i + 1 else -1], if i + 1 == n then 1 else if i == 0 then 0 else -1, 1)
  }

  function MainTree(n: nat): Tree
    requires n >= 1
  {
    Tree(seq(n, i requires 0 <= i < n => MainNode(n, i)), [-1, n - 1])
  }

  // ----- One more output -----

  /** Copy number `r` of a sub-chain of `len` copies behind node `mod`, whose first copy has number `base`. */
  function SubNode(base: nat, mod: nat, mc: nat, slot: nat, len: nat, port: int, r: nat): Node
    requires r < len
  {
    Node(mc + 1 + r, [if r == 0 then mod else base + r - 1, if r + 1 < len then base + r + 1 else -1],
         if r + 1 == len then port else -1, if r == 0 then slot else 1)
  }

  function SubChain(base: nat, mod: nat, mc: nat, slot: nat, len: nat, port: int): seq<Node>
  {
    seq(len, r requires 0 <= r < len => SubNode(base, mod, mc, slot, len, port, r))
  }

  /** A sub-chain of copies of all modules behind `mod`, linked as the next output of `mod` and given the
      next port. Links are assigned in order, so the source's resize and assignment append. */
  function AddOutput(t: Tree, n: nat, mod: nat): Tree
    requires mod < |t.nodes| && t.nodes[mod].cfg + 1 < n
  {
    var x, base := t.nodes[mod], |t.nodes|;
    var len := n - 1 - x.cfg;
    Tree(t.nodes[mod := x.(near := x.near + [base])] + SubChain(base, mod, x.cfg, |x.near|, len, |t.wire|),
         t.wire + [base + len - 1])
  }

  // ----- What the tree always satisfies -----

  /** The link towards the entry: it leads one module back, to an earlier copy, which links back here. */
  predicate BackOk(t: Tree, n: nat, v: nat)
    requires v < |t.nodes|
  {
    var x := t.nodes[v];
    && |x.near| >= 2 && x.cfg < n
    && (v == 0 <==> x.cfg == 0)
    && (v == 0 ==> x.near[0] == -1)
    && (v > 0 ==>
          && 0 <= x.near[0] < v
          && t.nodes[x.near[0]].cfg + 1 == x.cfg
          && 1 <= x.slot < |t.nodes[x.near[0]].near|
          && t.nodes[x.near[0]].near[x.slot] == v)
  }

  /** The links towards the wire: each leads one module on, to a copy whose `near[0]` leads back here. */
  predicate ForwardOk(t: Tree, n: nat, v: nat)
    requires v < |t.nodes|
  {
    var x := t.nodes[v];
    && |x.near| >= 2
    && (x.cfg + 1 >= n ==> |x.near| == 2 && x.near[1] == -1)
    && (x.cfg + 1 < n ==>
          forall j :: 1 <= j < |x.near| ==>
            && 0 <= x.near[j] < |t.nodes|
            && |t.nodes[x.near[j]].near| >= 1
            && t.nodes[x.near[j]].near[0] == v && t.nodes[x.near[j]].slot == j)
  }

  /** Ports 1, 2, ... belong to the copies of the last module, one each; of the other copies only the entry has
      one, which is 0. */
  predicate PortsOk(t: Tree, n: nat)
  {
    && |t.wire| >= 2
    && (forall p :: 1 <= p < |t.wire| ==>
          0 <= t.wire[p] < |t.nodes| && t.nodes[t.wire[p]].cfg + 1 == n && t.nodes[t.wire[p]].wireDst == p)
    && (forall v :: 0 <= v < |t.nodes| && t.nodes[v].cfg + 1 == n ==>
          1 <= t.nodes[v].wireDst < |t.wire| && t.wire[t.nodes[v].wireDst] == v)
    && (forall v :: 0 <= v < |t.nodes| && t.nodes[v].cfg + 1 < n ==>
          t.nodes[v].wireDst == if v == 0 then 0 else -1)
  }

  predicate TreeOk(t: Tree, n: nat)
  {
    && n >= 1 && |t.nodes| >= 1
    && (forall v :: 0 <= v < |t.nodes| ==> BackOk(t, n, v))
    && (forall v :: 0 <= v < |t.nodes| ==> ForwardOk(t, n, v))
    && PortsOk(t, n)
  }

  lemma MainOk(n: nat)
    requires n >= 1
    ensures TreeOk(MainTree(n), n)
  {
    var t := MainTree(n);
    forall v | 0 <= v < |t.nodes|
      ensures BackOk(t, n, v) && ForwardOk(t, n, v)
    {
      assert t.nodes[v] == MainNode(n, v);
    }
    assert PortsOk(t, n);
  }

  // ----- Adding an output keeps all of it -----

  lemma AddedNode(t: Tree, n: nat, mod: nat, v: nat)
    requires mod < |t.nodes| && t.nodes[mod].cfg + 1 < n
    ensures var t' := AddOutput(t, n, mod); var base := |t.nodes|; var mc := t.nodes[mod].cfg; var len := n - 1 - mc;
            && |t'.nodes| == base + len && t'.wire == t.wire + [base + len - 1]
            && (v < base ==>
                  t'.nodes[v] == if v == mod then t.nodes[v].(near := t.nodes[v].near + [base]) else t.nodes[v])
            && (base <= v < base + len ==>
                  t'.nodes[v] == SubNode(base, mod, mc, |t.nodes[mod].near|, len, |t.wire|, v - base))
  {
  }

  lemma AddBack(t: Tree, n: nat, mod: nat, v: nat)
    requires TreeOk(t, n) && mod < |t.nodes| && t.nodes[mod].cfg + 1 < n
    requires v < |AddOutput(t, n, mod).nodes|
    ensures BackOk(AddOutput(t, n, mod), n, v)
  {
    var t', base := AddOutput(t, n, mod), |t.nodes|;
    AddedNode(t, n, mod, v);
    if v < base {
      assert BackOk(t, n, v);
      if v > 0 {
        AddedNode(t, n, mod, t.nodes[v].near[0]);
      }
    } else if v == base {
      AddedNode(t, n, mod, mod);
      assert BackOk(t, n, mod);
    } else {
      AddedNode(t, n, mod, v - 1);
    }
    hide AddOutput;
  }

  lemma AddForward(t: Tree, n: nat, mod: nat, v: nat)
    requires TreeOk(t, n) && mod < |t.nodes| && t.nodes[mod].cfg + 1 < n
    requires v < |AddOutput(t, n, mod).nodes|
    ensures ForwardOk(AddOutput(t, n, mod), n, v)
  {
    var t', base := AddOutput(t, n, mod), |t.nodes|;
    AddedNode(t, n, mod, v);
    if v < base {
      assert ForwardOk(t, n, v);
      var x := t'.nodes[v];
      if x.cfg + 1 < n {
        forall j | 1 <= j < |x.near|
          ensures 0 <= x.near[j] < |t'.nodes|
          ensures |t'.nodes[x.near[j]].near| >= 1 && t'.nodes[x.near[j]].near[0] == v && t'.nodes[x.near[j]].slot == j
        {
          AddedNode(t, n, mod, x.near[j]);
        }
      }
    } else {
      hide AddOutput;
      assert t'.nodes[v].near[0] >= 0;
      if v + 1 < |t'.nodes| {
        AddedNode(t, n, mod, v + 1);
      }
    }
  }

  lemma AddPorts(t: Tree, n: nat, mod: nat)
    requires TreeOk(t, n) && mod < |t.nodes| && t.nodes[mod].cfg + 1 < n
    ensures PortsOk(AddOutput(t, n, mod), n)
  {
    var t', base := AddOutput(t, n, mod), |t.nodes|;
    var len := n - 1 - t.nodes[mod].cfg;
    AddedNode(t, n, mod, base + len - 1);
    forall p | 1 <= p < |t'.wire|
      ensures 0 <= t'.wire[p] < |t'.nodes| && t'.nodes[t'.wire[p]].cfg + 1 == n && t'.nodes[t'.wire[p]].wireDst == p
    {
      if p < |t.wire| {
        AddedNode(t, n, mod, t.wire[p]);
      }
    }
    forall v | 0 <= v < |t'.nodes| && t'.nodes[v].cfg + 1 == n
      ensures 1 <= t'.nodes[v].wireDst < |t'.wire| && t'.wire[t'.nodes[v].wireDst] == v
    {
      AddedNode(t, n, mod, v);
    }
  }

  lemma AddKeeps(t: Tree, n: nat, mod: nat)
    requires TreeOk(t, n) && mod < |t.nodes| && t.nodes[mod].cfg + 1 < n
    ensures TreeOk(AddOutput(t, n, mod), n)
  {
    var t' := AddOutput(t, n, mod);
    AddedNode(t, n, mod, 0);
    forall v | 0 <= v < |t'.nodes|
      ensures BackOk(t', n, v) && ForwardOk(t', n, v)
    {
      AddBack(t, n, mod, v);
      AddForward(t, n, mod, v);
    }
    AddPorts(t, n, mod);
  }

  // ----- Paths -----

  /** The path from the entry to a copy. */
  function Path(t: Tree, n: nat, v: nat): seq<nat>
    requires v < |t.nodes| && forall u :: 0 <= u < |t.nodes| ==> BackOk(t, n, u)
    decreases v
  {
    if v == 0 then [0]
    else
      assert BackOk(t, n, v);
      Path(t, n, t.nodes[v].near[0]) + [v]
  }

  /** `v` is one of the links of `u` towards the wire. */
  predicate Linked(t: Tree, u: nat, v: nat)
  {
    && u < |t.nodes| && v < |t.nodes|
    && 1 <= t.nodes[v].slot < |t.nodes[u].near| && t.nodes[u].near[t.nodes[v].slot] == v
  }

  /** Every path from the entry spells the configuration in order, one module after the other, and follows
      the links towards the wire. */
  lemma {:induction false} PathSpells(t: Tree, n: nat, v: nat)
    requires TreeOk(t, n) && v < |t.nodes|
    ensures var p := Path(t, n, v);
            && |p| == t.nodes[v].cfg + 1 && p[0] == 0 && p[|p| - 1] == v
            && (forall i :: 0 <= i < |p| ==> p[i] < |t.nodes| && t.nodes[p[i]].cfg == i)
            && (forall i :: 0 <= i < |p| - 1 ==> Linked(t, p[i], p[i + 1]))
    decreases v
  {
    assert BackOk(t, n, v);
    if v > 0 {
      var u := t.nodes[v].near[0];
      PathSpells(t, n, u);
      var q := Path(t, n, u);
      var p := Path(t, n, v);
      assert p == q + [v];
      forall i | 0 <= i < |p| - 1
        ensures Linked(t, p[i], p[i + 1])
      {
        if i < |q| - 1 {
          assert p[i] == q[i] && p[i + 1] == q[i + 1] && Linked(t, q[i], q[i + 1]);
        } else {
          assert p[i] == q[|q| - 1] == u && p[i + 1] == v;
        }
      }
    }
  }
}
