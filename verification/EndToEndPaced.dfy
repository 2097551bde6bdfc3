/** The merge window of the end-to-end theorem as a bound that the sending side can keep: at most 16384 packets
    cut and not yet put together. Chunks arrive once, and so the window follows. */
module EndToEndPaced {
  import opened Bytes
  import opened SplitHeader
  import opened Merge
  import opened SplitMerge
  import opened Lanes
  import opened EndToEnd
  import opened EndToEndSplit
  import opened EndToEndRuns
  import SplitContext

  // ----- Chunks on their way -----

  /** The chunks among the tasks of module `lo` and beyond. */
  function TaskIds(q: seq<Task>, lo: nat): multiset<Id>
  {
    if q == [] then multiset{} else (if q[0].level >= lo then multiset{q[0].id} else multiset{}) + TaskIds(q[1..], lo)
  }

  function WireIds(w: seq<Sent>): multiset<Id>
  {
    if w == [] then multiset{} else multiset{w[0].id} + WireIds(w[1..])
  }

  function InFlight(cfg: Config, a: System): multiset<Id>
  {
    TaskIds(a.client, cfg.s + 1) + WireIds(a.wires) + TaskIds(a.server, cfg.s)
  }

  lemma {:induction false} TaskIdsConcat(q: seq<Task>, r: seq<Task>, lo: nat)
    ensures TaskIds(q + r, lo) == TaskIds(q, lo) + TaskIds(r, lo)
  {
    if q == [] {
      assert q + r == r;
    } else {
      assert (q + r)[1..] == q[1..] + r;
      TaskIdsConcat(q[1..], r, lo);
    }
  }

  lemma TaskIdsOne(x: Task, lo: nat)
    ensures TaskIds([x], lo) == if x.level >= lo then multiset{x.id} else multiset{}
  {
    var one := [x];
    assert one[1..] == [];
  }

  /** The front task is replaced by `r` at the back. */
  lemma TaskIdsStep(q: seq<Task>, r: seq<Task>, lo: nat)
    requires q != []
    ensures q[0].level < lo ==> TaskIds(q[1..] + r, lo) == TaskIds(q, lo) + TaskIds(r, lo)
    ensures q[0].level >= lo ==> multiset{q[0].id} + TaskIds(q[1..] + r, lo) == TaskIds(q, lo) + TaskIds(r, lo)
  {
    TaskIdsConcat(q[1..], r, lo);
    None(TaskIds(q[1..], lo));
  }

  lemma None(m: multiset<Id>)
    ensures multiset{} + m == m && m + multiset{} == m
  {
  }

  lemma Cancel(x: Id, after: multiset<Id>, before: multiset<Id>)
    requires multiset{x} + after == before + multiset{x}
    ensures after == before
  {
    assert forall id :: (multiset{x} + after)[id] == multiset{x}[id] + after[id];
    assert forall id :: (before + multiset{x})[id] == multiset{x}[id] + before[id];
  }

  /** A chunk taken from one place and put into another. */
  lemma Moved(x: Id, before: multiset<Id>, after: multiset<Id>, rest: multiset<Id>, rest': multiset<Id>)
    requires multiset{x} + after == before && rest' == rest + multiset{x}
    ensures after + rest' == before + rest
  {
    assert after + (rest + multiset{x}) == (multiset{x} + after) + rest;
  }

  lemma {:induction false} WireIdsConcat(w: seq<Sent>, v: seq<Sent>)
    ensures WireIds(w + v) == WireIds(w) + WireIds(v)
  {
    if w == [] {
      assert w + v == v;
    } else {
      assert (w + v)[1..] == w[1..] + v;
      WireIdsConcat(w[1..], v);
    }
  }

  lemma WireIdsOne(x: Sent)
    ensures WireIds([x]) == multiset{x.id}
  {
    var one := [x];
    assert one[1..] == [];
  }

  lemma {:induction false} LowTasks(r: seq<Task>, lo: nat)
    requires forall i :: 0 <= i < |r| ==> r[i].level < lo
    ensures TaskIds(r, lo) == multiset{}
  {
    if r != [] {
      LowTasks(r[1..], lo);
    }
  }

  /** The chunks 0..n-1 of packet `i`, from number `k` on. */
  function FreshIds(i: nat, k: nat, n: nat): multiset<Id>
    requires k <= n
    decreases n - k
  {
    if k == n then multiset{} else multiset{(i, k)} + FreshIds(i, k + 1, n)
  }

  lemma {:induction false} FreshOnce(i: nat, k: nat, n: nat, id: Id)
    requires k <= n
    ensures FreshIds(i, k, n)[id] == if id.0 == i && k <= id.1 < n then 1 else 0
    decreases n - k
  {
    if k < n {
      FreshOnce(i, k + 1, n, id);
      assert (i, k) == id <==> id.0 == i && id.1 == k;
    }
  }

  lemma {:induction false} ChunkTaskIds(cfg: Config, i: nat, writes: seq<SplitContext.Write>, r: seq<Task>, k: nat)
    requires ChunkTasks(cfg, i, writes, r) && k <= |r|
    ensures TaskIds(r[k..], cfg.s + 1) == FreshIds(i, k, |r|)
    decreases |r| - k
  {
    if k < |r| {
      ChunkTaskIds(cfg, i, writes, r, k + 1);
      assert r[k..][1..] == r[k + 1..] && r[k..][0] == r[k];
    }
  }

  lemma {:induction false} ChunkSendIds(i: nat, writes: seq<SplitContext.Write>, m: seq<Sent>, k: nat)
    requires ChunkSends(i, writes, m) && k <= |m|
    ensures WireIds(m[k..]) == FreshIds(i, k, |m|)
    decreases |m| - k
  {
    if k < |m| {
      ChunkSendIds(i, writes, m, k + 1);
      assert m[k..][1..] == m[k + 1..] && m[k..][0] == m[k];
    }
  }

  // ----- Every chunk is on its way at most once, and not after it has arrived -----

  ghost predicate OnceEach(cfg: Config, a: System)
  {
    forall id: Id :: InFlight(cfg, a)[id] <= 1 && (id in InFlight(cfg, a) ==> id !in a.got && id.0 < |a.traffic|)
  }

  /** Not too many packets are cut and not yet put together. */
  predicate Bounded(a: System)
  {
    |a.traffic| <= a.merge.expPkt + WINDOW
  }

  lemma SameFlight(cfg: Config, a: System, b: System)
    requires OnceEach(cfg, a) && InFlight(cfg, b) == InFlight(cfg, a) && b.got == a.got && b.traffic == a.traffic
    ensures OnceEach(cfg, b)
  {
    hide InFlight;
  }

  lemma PushOnce(cfg: Config, a: System, b: System, x: Bytestring)
    requires OnceEach(cfg, a) && Push(cfg, a, b, x)
    ensures OnceEach(cfg, b)
  {
    hide TaskIds, WireIds, OnceEach;
    TaskIdsConcat(a.client, [Task(0, x, (0, 0))], cfg.s + 1);
    TaskIdsOne(Task(0, x, (0, 0)), cfg.s + 1);
    SameFlight(cfg, a, b);
  }

  lemma EncodeOnce(cfg: Config, a: System, b: System, y: Bytestring, port: nat)
    requires ConfigOk(cfg) && OnceEach(cfg, a) && Encode(cfg, a, b, y, port)
    ensures OnceEach(cfg, b)
  {
    hide TaskIds, WireIds, OnceEach;
    var x := a.client[0];
    var z := Task(x.level + 1, y, x.id);
    None(TaskIds(a.client, cfg.s + 1));
    if x.level + 1 < cfg.n {
      TaskIdsStep(a.client, [z], cfg.s + 1);
      TaskIdsOne(z, cfg.s + 1);
      if x.level > cfg.s {
        Cancel(x.id, TaskIds(b.client, cfg.s + 1), TaskIds(a.client, cfg.s + 1));
      }
    } else {
      TaskIdsStep(a.client, [], cfg.s + 1);
      NoneRight(a.client[1..]);
      LowTasks([], cfg.s + 1);
      WireIdsConcat(a.wires, [Sent(port, y, x.id)]);
      WireIdsOne(Sent(port, y, x.id));
      Moved(x.id, TaskIds(a.client, cfg.s + 1), TaskIds(b.client, cfg.s + 1), WireIds(a.wires), WireIds(b.wires));
    }
    SameFlight(cfg, a, b);
  }

  lemma DeliverOnce(cfg: Config, a: System, b: System, k: nat)
    requires ConfigOk(cfg) && OnceEach(cfg, a) && Deliver(cfg, a, b, k)
    ensures OnceEach(cfg, b)
  {
    hide TaskIds, WireIds, OnceEach;
    var l, r, x := a.wires[..k], a.wires[k + 1..], a.wires[k];
    var z := Task(cfg.n - 1, x.data, x.id);
    assert a.wires == l + ([x] + r);
    WireIdsConcat([x], r);
    WireIdsConcat(l, [x] + r);
    WireIdsConcat(l, r);
    WireIdsOne(x);
    TaskIdsConcat(a.server, [z], cfg.s);
    TaskIdsOne(z, cfg.s);
    SameFlight(cfg, a, b);
  }

  lemma DecodeOnce(cfg: Config, a: System, b: System)
    requires ConfigOk(cfg) && OnceEach(cfg, a) && Decode(cfg, a, b)
    ensures OnceEach(cfg, b)
  {
    hide TaskIds, WireIds, OnceEach;
    var x := a.server[0];
    None(TaskIds(a.server, cfg.s));
    if x.level > 0 {
      var z := Task(x.level - 1, cfg.dec[x.level](x.data), x.id);
      TaskIdsStep(a.server, [z], cfg.s);
      TaskIdsOne(z, cfg.s);
      if x.level > cfg.s {
        Cancel(x.id, TaskIds(b.server, cfg.s), TaskIds(a.server, cfg.s));
      }
    } else {
      TaskIdsStep(a.server, [], cfg.s);
      NoneRight(a.server[1..]);
      LowTasks([], cfg.s);
    }
    SameFlight(cfg, a, b);
  }

  lemma SplitOnce(cfg: Config, a: System, b: System, chunks: seq<Bytestring>, writes: seq<SplitContext.Write>,
                  r: seq<Task>, m: seq<Sent>)
    requires ConfigOk(cfg) && OnceEach(cfg, a) && ValidIds(a.traffic, a.got) && Split(cfg, a, b, chunks, writes, r, m)
    ensures OnceEach(cfg, b)
  {
    hide TaskIds, WireIds, SplitContext.SplitWrites, ChunkTasks, ChunkSends, Flatten;
    var i := |a.traffic|;
    TaskIdsStep(a.client, r, cfg.s + 1);
    WireIdsConcat(a.wires, m);
    LowTasks([], cfg.s + 1);
    NoWireIds();
    SplitFresh(cfg, i, writes, r, m);
    AddBoth(TaskIds(a.client, cfg.s + 1), TaskIds(r, cfg.s + 1), WireIds(a.wires), WireIds(m),
            TaskIds(a.server, cfg.s));
    assert InFlight(cfg, b) == InFlight(cfg, a) + FreshIds(i, 0, |r| + |m|);
    hide InFlight;
    forall id: Id
      ensures InFlight(cfg, b)[id] <= 1 && (id in InFlight(cfg, b) ==> id !in b.got && id.0 < |b.traffic|)
    {
      FreshOnce(i, 0, |r| + |m|, id);
    }
  }

  lemma AddBoth(a: multiset<Id>, a': multiset<Id>, b: multiset<Id>, b': multiset<Id>, c: multiset<Id>)
    ensures (a + a') + (b + b') + c == (a + b + c) + (a' + b')
  {
  }

  lemma NoWireIds()
    ensures WireIds([]) == multiset{}
  {
  }

  lemma SplitFresh(cfg: Config, i: nat, writes: seq<SplitContext.Write>, r: seq<Task>, m: seq<Sent>)
    requires (ChunkTasks(cfg, i, writes, r) && m == []) || (ChunkSends(i, writes, m) && r == [])
    ensures TaskIds(r, cfg.s + 1) + WireIds(m) == FreshIds(i, 0, |r| + |m|)
  {
    assert r[0..] == r && m[0..] == m;
    if m == [] && ChunkTasks(cfg, i, writes, r) {
      ChunkTaskIds(cfg, i, writes, r, 0);
    } else {
      ChunkSendIds(i, writes, m, 0);
    }
  }

  // ----- The window follows -----

  lemma FrontInFlight(cfg: Config, a: System)
    requires OnceEach(cfg, a) && a.server != [] && a.server[0].level >= cfg.s
    ensures a.server[0].id !in a.got
  {
    assert a.server[0].id in TaskIds(a.server, cfg.s);
    assert a.server[0].id in InFlight(cfg, a);
  }

  lemma WindowHolds(cfg: Config, a: System)
    requires ConfigOk(cfg) && SysInv(cfg, a) && OnceEach(cfg, a) && Bounded(a)
    requires a.server != [] && a.server[0].level == cfg.s
    ensures InWindow(a.merge.expPkt, a.server[0].id.0)
  {
    FrontInFlight(cfg, a);
    var id := a.server[0].id;
    assert IsMsg(cfg, a.traffic, cfg.s + 1, a.server[0].data, id);
    assert (id.0, id.1) == id;
    hide OnceEach, ClientOk, ServerOk, ClientChunks, WireChunks, ServerChunks, Covered, Sound, Kept, Scanned, TakeTurn;
    assert id.0 < a.merge.expPkt ==> id in a.got;
  }

  lemma PutFront(a: multiset<Id>, x: Id, b: multiset<Id>)
    ensures a + (multiset{x} + b) == multiset{x} + (a + b)
  {
  }

  lemma MergeOnce(cfg: Config, a: System, b: System)
    requires ConfigOk(cfg) && OnceEach(cfg, a) && MergeOne(cfg, a, b)
    ensures OnceEach(cfg, b)
  {
    hide TaskIds, WireIds, Receive;
    var x := a.server[0];
    var (t, out) := Receive(a.merge, x.data);
    var r: seq<Task> := if cfg.s > 0 then PacketTasks(cfg.s - 1, out) else [];
    TaskIdsStep(a.server, r, cfg.s);
    LowTasks(r, cfg.s);
    NoneRight(a.server[1..]);
    assert b.server == a.server[1..] + r;
    None(TaskIds(a.server, cfg.s));
    PutFront(TaskIds(a.client, cfg.s + 1) + WireIds(a.wires), x.id, TaskIds(b.server, cfg.s));
    assert InFlight(cfg, a) == multiset{x.id} + InFlight(cfg, b);
    hide InFlight;
    forall id: Id
      ensures InFlight(cfg, b)[id] <= 1 && (id in InFlight(cfg, b) ==> id !in b.got && id.0 < |b.traffic|)
    {
      assert InFlight(cfg, a)[id] == multiset{x.id}[id] + InFlight(cfg, b)[id];
    }
  }

  /** A step in which the sending side cuts a packet only if fewer than 16384 are cut and not yet put together,
      and nothing is said about the window. */
  ghost predicate PacedStep(cfg: Config, a: System, b: System)
    requires ConfigOk(cfg)
  {
    || (exists x :: Push(cfg, a, b, x))
    || (exists y, port :: Encode(cfg, a, b, y, port))
    || (|a.traffic| < a.merge.expPkt + WINDOW && exists chunks, writes, r, m :: Split(cfg, a, b, chunks, writes, r, m))
    || (exists k :: Deliver(cfg, a, b, k))
    || Decode(cfg, a, b)
    || MergeAny(cfg, a, b)
  }

  ghost predicate PacedInv(cfg: Config, a: System)
    requires ConfigOk(cfg)
  {
    SysInv(cfg, a) && OnceEach(cfg, a) && Bounded(a)
  }

  lemma PacedKeeps(cfg: Config, a: System, b: System)
    requires ConfigOk(cfg) && PacedInv(cfg, a) && PacedStep(cfg, a, b)
    ensures Step(cfg, a, b) && PacedInv(cfg, b)
  {
    hide SysInv, OnceEach;
    if x :| Push(cfg, a, b, x) {
      PushOnce(cfg, a, b, x);
    } else if y, port :| Encode(cfg, a, b, y, port) {
      EncodeOnce(cfg, a, b, y, port);
    } else if k :| Deliver(cfg, a, b, k) {
      DeliverOnce(cfg, a, b, k);
    } else if Decode(cfg, a, b) {
      DecodeOnce(cfg, a, b);
    } else if MergeAny(cfg, a, b) {
      WindowHolds(cfg, a);
      MergeOnce(cfg, a, b);
      MergeGrows(cfg, a, b);
    } else {
      var chunks, writes, r, m :| Split(cfg, a, b, chunks, writes, r, m);
      InvIds(cfg, a);
      SplitOnce(cfg, a, b, chunks, writes, r, m);
    }
    StepKeeps(cfg, a, b);
  }

  lemma InvIds(cfg: Config, a: System)
    requires ConfigOk(cfg) && SysInv(cfg, a)
    ensures ValidIds(a.traffic, a.got)
  {
    hide Inv, TakeTurn, ClientOk, ServerOk, ClientChunks, ServerChunks, WireChunks, Covered;
  }

  lemma MergeGrows(cfg: Config, a: System, b: System)
    requires ConfigOk(cfg) && SysInv(cfg, a) && MergeOne(cfg, a, b) && Bounded(a)
    ensures Bounded(b)
  {
    hide Receive;
    var (t, out) := Receive(a.merge, a.server[0].data);
    Received(cfg, a, t, out);
  }

  ghost predicate PacedRun(cfg: Config, trace: seq<System>)
    requires ConfigOk(cfg)
  {
    && |trace| >= 1 && trace[0] == Start
    && forall i :: 0 <= i < |trace| - 1 ==> PacedStep(cfg, trace[i], trace[i + 1])
  }

  lemma StartPaced(cfg: Config)
    requires ConfigOk(cfg)
    ensures PacedInv(cfg, Start)
  {
    StartInv(cfg);
    hide SysInv;
    assert InFlight(cfg, Start) == multiset{};
  }

  lemma {:induction false} PacedStates(cfg: Config, trace: seq<System>, n: nat)
    requires ConfigOk(cfg) && PacedRun(cfg, trace) && n < |trace|
    ensures PacedInv(cfg, trace[n])
    ensures forall i :: 0 <= i < n ==> Step(cfg, trace[i], trace[i + 1])
  {
    hide PacedInv, PacedStep, Step;
    if n == 0 {
      StartPaced(cfg);
    } else {
      PacedStates(cfg, trace, n - 1);
      PacedKeeps(cfg, trace[n - 1], trace[n - 1 + 1]);
    }
  }

  /** End to end with a bound instead of the window: if a packet is cut only while fewer than 16384 packets are
      cut and not yet put together, the packets emitted are at every moment a prefix of the packets pushed,
      and all of them once nothing is left on the way, whatever order the chunks arrive in. */
  lemma PacedExact(cfg: Config, trace: seq<System>, n: nat)
    requires ConfigOk(cfg) && PacedRun(cfg, trace) && n < |trace|
    ensures trace[n].emitted <= trace[n].pushed
    ensures Quiet(trace[n]) && |trace[n].pushed| <= LAST_PACKET ==> trace[n].emitted == trace[n].pushed
  {
    PacedStates(cfg, trace, |trace| - 1);
    hide Step, PacedStep, PacedInv;
    assert SystemRun(cfg, trace);
    EndToEndExact(cfg, trace, n);
  }
}
