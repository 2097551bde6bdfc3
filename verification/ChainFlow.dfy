/** The end-to-end system on the trees that the chain constructors build: every task names a module copy, and
    every write is routed through the links of that copy. */
module ChainFlow {
  import opened Bytes
  import opened SplitHeader
  import opened Merge
  import opened Lanes
  import opened ChainTree
  import ChainObject
  import ChainRun
  import SplitContext
  import SplitMerge
  import E = EndToEnd
  import EndToEndRuns

  /** A queued call of module copy `mod`. */
  datatype Job = Job(mod: nat, data: Bytestring, id: Id)

  datatype Flow = Flow(
    pushed: seq<Bytestring>, client: seq<Job>, pktSeq: u32, rr: u32, traffic: SplitMerge.Traffic,
    wires: seq<E.Sent>, server: seq<Job>, merge: State, got: set<Id>, emitted: seq<Bytestring>)

  const Start := Flow([], [], 0, 0, [], [], [], INIT, {}, [])

  /** Two chains built from the same configuration, in which only module `s`, a `split`, may ask for outputs. */
  datatype Pair = Pair(extra: Extra, s: nat, dec: seq<Decoder>, client: Tree, server: Tree)

  predicate PairOk(p: Pair)
  {
    && p.s < |p.extra| == |p.dec|
    && (forall i :: 0 <= i < |p.extra| && i != p.s ==> p.extra[i] == 0)
    && ChainObject.Finished(p.extra, p.client) && ChainObject.Finished(p.extra, p.server)
  }

  function Cfg(p: Pair): (c: E.Config)
    requires PairOk(p)
    ensures E.ConfigOk(c)
  {
    E.Config(|p.extra|, p.s, 1 + p.extra[p.s], p.dec)
  }

  // ----- Links -----

  predicate In(t: Tree, v: nat)
  {
    v < |t.nodes|
  }

  /** Writing to output 1 leads one module on, or out to the copy's own port after the last module. */
  lemma Onward(extra: Extra, t: Tree, v: nat)
    requires ChainObject.Finished(extra, t) && In(t, v)
    ensures var c := t.nodes[v].cfg; var w := ChainRun.Neighbour(t, v, 1);
            && c < |extra|
            && (c + 1 < |extra| ==> 0 <= w < |t.nodes| && t.nodes[w].cfg == c + 1)
            && (c + 1 == |extra| ==> w == -1 && 1 <= t.nodes[v].wireDst < |t.wire|)
  {
    assert BackOk(t, |extra|, v) && ForwardOk(t, |extra|, v);
    if t.nodes[v].cfg + 1 < |extra| {
      assert BackOk(t, |extra|, t.nodes[v].near[1]);
    }
  }

  /** Every output of `split` exists, unless it is the last module: then everything leaves by its own port. */
  lemma Outputs(extra: Extra, t: Tree, v: nat, dst: nat)
    requires ChainObject.Finished(extra, t) && In(t, v) && t.nodes[v].cfg < |extra| &&
             1 <= dst <= 1 + extra[t.nodes[v].cfg]
    ensures var c := t.nodes[v].cfg; var w := ChainRun.Neighbour(t, v, dst);
            && (c + 1 < |extra| ==> 0 <= w < |t.nodes| && t.nodes[w].cfg == c + 1)
            && (c + 1 == |extra| ==> w == -1 && 1 <= t.nodes[v].wireDst < |t.wire|)
  {
    assert BackOk(t, |extra|, v) && ForwardOk(t, |extra|, v);
    if t.nodes[v].cfg + 1 < |extra| {
      assert BackOk(t, |extra|, t.nodes[v].near[dst]);
    }
  }

  /** Writing to output 0 leads one module back, or out at the first module. */
  lemma Backward(extra: Extra, t: Tree, v: nat)
    requires ChainObject.Finished(extra, t) && In(t, v)
    ensures var c := t.nodes[v].cfg; var w := ChainRun.Neighbour(t, v, 0);
            && c < |extra|
            && (c > 0 ==> 0 <= w < |t.nodes| && t.nodes[w].cfg == c - 1)
            && (c == 0 ==> w == -1)
  {
    assert BackOk(t, |extra|, v);
  }

  /** There is one copy of `split` and of every module before it, so its counters and its table are one. */
  lemma {:induction false} OneCopy(p: Pair, t: Tree, u: nat, v: nat)
    requires PairOk(p) && ChainObject.Finished(p.extra, t) && In(t, u) && In(t, v)
    requires t.nodes[u].cfg == t.nodes[v].cfg <= p.s
    ensures u == v
    decreases t.nodes[u].cfg
  {
    var n := |p.extra|;
    assert BackOk(t, n, u) && BackOk(t, n, v);
    if t.nodes[u].cfg > 0 {
      var u', v' := t.nodes[u].near[0], t.nodes[v].near[0];
      OneCopy(p, t, u', v');
      assert |t.nodes[u'].near| == 2 + p.extra[t.nodes[u'].cfg];
      assert t.nodes[u].slot == 1 == t.nodes[v].slot;
    }
  }

  // ----- Steps -----

  predicate Push(p: Pair, a: Flow, b: Flow, x: Bytestring)
  {
    x != [] && b == a.(pushed := a.pushed + [x], client := a.client + [Job(0, x, (0, 0))])
  }

  predicate Encode(p: Pair, a: Flow, b: Flow, y: Bytestring)
    requires PairOk(p)
  {
    && a.client != [] && In(p.client, a.client[0].mod)
    && var x := a.client[0]; var v := p.client.nodes[x.mod];
    && v.cfg != p.s && v.cfg < |p.dec| && y != [] && p.dec[v.cfg](y) == x.data
    && var w := ChainRun.Neighbour(p.client, x.mod, 1);
    && if w >= 0 then b == a.(client := a.client[1..] + [Job(w, y, x.id)])
       else v.wireDst >= 0 && b == a.(client := a.client[1..], wires := a.wires + [E.Sent(v.wireDst, y, x.id)])
  }

  /** The writes of `split` that go on to a module copy, and those that leave by port `port`. */
  function RouteJobs(t: Tree, v: nat, i: nat, writes: seq<SplitContext.Write>): seq<Job>
  {
    if writes == [] then []
    else
      var k := |writes| - 1;
      var w := ChainRun.Neighbour(t, v, writes[k].dst);
      RouteJobs(t, v, i, writes[..k]) + if w >= 0 then [Job(w, writes[k].data, (i, k))] else []
  }

  function RouteSends(t: Tree, v: nat, port: nat, i: nat, writes: seq<SplitContext.Write>): seq<E.Sent>
  {
    if writes == [] then []
    else
      var k := |writes| - 1;
      RouteSends(t, v, port, i, writes[..k]) +
      if ChainRun.Neighbour(t, v, writes[k].dst) >= 0 then [] else [E.Sent(port, writes[k].data, (i, k))]
  }

  predicate Split(p: Pair, a: Flow, b: Flow, chunks: seq<Bytestring>, writes: seq<SplitContext.Write>, port: nat)
    requires PairOk(p)
  {
    && a.client != [] && In(p.client, a.client[0].mod)
    && var v := a.client[0].mod;
    && p.client.nodes[v].cfg == p.s
    && (p.client.nodes[v].wireDst >= 0 ==> port == p.client.nodes[v].wireDst)
    && Flatten(chunks) == a.client[0].data && 1 <= |chunks| <= 65536
    && SplitContext.SplitWrites(a.pktSeq, a.rr, 1 + p.extra[p.s], 0, chunks, false, writes)
    && b == a.(client := a.client[1..] + RouteJobs(p.client, v, |a.traffic|, writes),
               wires := a.wires + RouteSends(p.client, v, port, |a.traffic|, writes),
               traffic := a.traffic + [chunks],
               pktSeq := (a.pktSeq + 1) % TWO_32, rr := (a.rr + |chunks|) % TWO_32)
  }

  predicate Deliver(p: Pair, a: Flow, b: Flow, k: nat)
    requires PairOk(p)
  {
    && k < |a.wires|
    && var m := a.wires[k];
    && m.port < |p.server.wire| && p.server.wire[m.port] >= 0
    && b == a.(wires := a.wires[..k] + a.wires[k + 1..],
               server := a.server + [Job(p.server.wire[m.port], m.data, m.id)])
  }

  predicate Decode(p: Pair, a: Flow, b: Flow)
    requires PairOk(p)
  {
    && a.server != [] && In(p.server, a.server[0].mod)
    && var x := a.server[0]; var v := p.server.nodes[x.mod];
    && v.cfg != p.s && v.cfg < |p.dec|
    && var y := p.dec[v.cfg](x.data); var w := ChainRun.Neighbour(p.server, x.mod, 0);
    && if w >= 0 then b == a.(server := a.server[1..] + [Job(w, y, x.id)])
       else b == a.(server := a.server[1..], emitted := a.emitted + [y])
  }

  function PacketJobs(mod: nat, packets: seq<Bytestring>): seq<Job>
  {
    seq(|packets|, i requires 0 <= i < |packets| => Job(mod, packets[i], (0, 0)))
  }

  ghost predicate MergeOne(p: Pair, a: Flow, b: Flow)
    requires PairOk(p)
  {
    && a.server != [] && In(p.server, a.server[0].mod)
    && var x := a.server[0];
    && p.server.nodes[x.mod].cfg == p.s && InWindow(a.merge.expPkt, x.id.0)
    && var w := ChainRun.Neighbour(p.server, x.mod, 0);
    && var (t, out) := SplitMerge.Receive(a.merge, x.data);
    && var c := a.(merge := t, got := a.got + {x.id});
    && if w >= 0 then b == c.(server := a.server[1..] + PacketJobs(w, out))
       else b == c.(server := a.server[1..], emitted := a.emitted + out)
  }

  ghost predicate Step(p: Pair, a: Flow, b: Flow)
    requires PairOk(p)
  {
    || (exists x :: Push(p, a, b, x))
    || (exists y :: Encode(p, a, b, y))
    || (exists chunks, writes, port :: Split(p, a, b, chunks, writes, port))
    || (exists k :: Deliver(p, a, b, k))
    || Decode(p, a, b)
    || MergeOne(p, a, b)
  }

  // ----- Forgetting which copy -----

  function Level(t: Tree, v: nat): nat
  {
    if v < |t.nodes| then t.nodes[v].cfg else 0
  }

  function Tasks(t: Tree, q: seq<Job>): (r: seq<Task>)
    ensures |r| == |q| && forall i :: 0 <= i < |q| ==> r[i] == Task(Level(t, q[i].mod), q[i].data, q[i].id)
  {
    seq(|q|, i requires 0 <= i < |q| => Task(Level(t, q[i].mod), q[i].data, q[i].id))
  }

  function Abs(p: Pair, a: Flow): E.System
  {
    E.System(a.pushed, Tasks(p.client, a.client), a.pktSeq, a.rr, a.traffic, a.wires, Tasks(p.server, a.server),
             a.merge, a.got, a.emitted)
  }

  predicate ModsOk(t: Tree, q: seq<Job>)
  {
    forall i :: 0 <= i < |q| ==> In(t, q[i].mod)
  }

  predicate PortsKnown(p: Pair, w: seq<E.Sent>)
  {
    forall i :: 0 <= i < |w| ==> 1 <= w[i].port < |p.server.wire|
  }

  /** All tasks are of copies that exist, and all messages are on connections that exist on both sides. */
  predicate FlowOk(p: Pair, a: Flow)
  {
    ModsOk(p.client, a.client) && ModsOk(p.server, a.server) && PortsKnown(p, a.wires)
  }

  lemma TasksConcat(t: Tree, q: seq<Job>, r: seq<Job>)
    ensures Tasks(t, q + r) == Tasks(t, q) + Tasks(t, r)
    ensures q != [] ==> Tasks(t, q[1..]) == Tasks(t, q)[1..]
  {
  }

  lemma TasksOne(t: Tree, x: Job)
    ensures Tasks(t, [x]) == [Task(Level(t, x.mod), x.data, x.id)]
  {
  }

  lemma PushSim(p: Pair, a: Flow, b: Flow, x: Bytestring)
    requires PairOk(p) && FlowOk(p, a) && Push(p, a, b, x)
    ensures E.Push(Cfg(p), Abs(p, a), Abs(p, b), x) && FlowOk(p, b)
  {
    assert BackOk(p.client, |p.extra|, 0);
    TasksConcat(p.client, a.client, [Job(0, x, (0, 0))]);
    TasksOne(p.client, Job(0, x, (0, 0)));
    hide Tasks, TreeOk;
  }

  lemma EncodeSim(p: Pair, a: Flow, b: Flow, y: Bytestring)
    requires PairOk(p) && FlowOk(p, a) && Encode(p, a, b, y)
    ensures exists port :: E.Encode(Cfg(p), Abs(p, a), Abs(p, b), y, port)
    ensures FlowOk(p, b)
  {
    var x := a.client[0];
    var v, w := p.client.nodes[x.mod], ChainRun.Neighbour(p.client, x.mod, 1);
    Onward(p.extra, p.client, x.mod);
    assert |p.client.wire| == |p.server.wire|;
    hide Tasks, TreeOk, ChainRun.Neighbour, ChainObject.Finished;
    if w >= 0 {
      TasksConcat(p.client, a.client[1..], [Job(w, y, x.id)]);
      TasksConcat(p.client, a.client, []);
      TasksOne(p.client, Job(w, y, x.id));
      assert E.Encode(Cfg(p), Abs(p, a), Abs(p, b), y, 0);
    } else {
      TasksConcat(p.client, a.client, []);
      assert E.Encode(Cfg(p), Abs(p, a), Abs(p, b), y, v.wireDst);
    }
  }

  lemma DeliverSim(p: Pair, a: Flow, b: Flow, k: nat)
    requires PairOk(p) && FlowOk(p, a) && Deliver(p, a, b, k)
    ensures E.Deliver(Cfg(p), Abs(p, a), Abs(p, b), k) && FlowOk(p, b)
  {
    var m := a.wires[k];
    var z := Job(p.server.wire[m.port], m.data, m.id);
    assert PortsOk(p.server, |p.extra|);
    assert In(p.server, z.mod) && Level(p.server, z.mod) == |p.extra| - 1;
    TasksConcat(p.server, a.server, [z]);
    TasksOne(p.server, z);
    hide Tasks, TreeOk, ChainObject.Finished;
  }

  lemma DecodeSim(p: Pair, a: Flow, b: Flow)
    requires PairOk(p) && FlowOk(p, a) && Decode(p, a, b)
    ensures E.Decode(Cfg(p), Abs(p, a), Abs(p, b)) && FlowOk(p, b)
  {
    var x := a.server[0];
    var w := ChainRun.Neighbour(p.server, x.mod, 0);
    Backward(p.extra, p.server, x.mod);
    hide Tasks, TreeOk, ChainRun.Neighbour, ChainObject.Finished;
    TasksConcat(p.server, a.server, []);
    if w >= 0 {
      var z := Job(w, p.dec[p.server.nodes[x.mod].cfg](x.data), x.id);
      TasksConcat(p.server, a.server[1..], [z]);
      TasksOne(p.server, z);
    }
  }

  lemma PacketJobsTasks(t: Tree, w: nat, level: nat, out: seq<Bytestring>)
    requires In(t, w) && t.nodes[w].cfg == level
    ensures Tasks(t, PacketJobs(w, out)) == E.PacketTasks(level, out) && ModsOk(t, PacketJobs(w, out))
  {
  }

  lemma MergeSim(p: Pair, a: Flow, b: Flow)
    requires PairOk(p) && FlowOk(p, a) && MergeOne(p, a, b)
    ensures E.MergeOne(Cfg(p), Abs(p, a), Abs(p, b)) && FlowOk(p, b)
  {
    hide Tasks, TreeOk, ChainRun.Neighbour, ChainObject.Finished, SplitMerge.Receive, PacketJobs, E.PacketTasks;
    var x := a.server[0];
    var w := ChainRun.Neighbour(p.server, x.mod, 0);
    Backward(p.extra, p.server, x.mod);
    var (t, out) := SplitMerge.Receive(a.merge, x.data);
    TasksConcat(p.server, a.server, []);
    if w >= 0 {
      PacketJobsTasks(p.server, w, p.s - 1, out);
      TasksConcat(p.server, a.server[1..], PacketJobs(w, out));
    }
  }

  /** All writes of `split` go on to copies of the next module ... */
  lemma {:induction false} AllRouted(t: Tree, v: nat, port: nat, i: nat, writes: seq<SplitContext.Write>, level: nat)
    requires forall k :: 0 <= k < |writes| ==>
               var w := ChainRun.Neighbour(t, v, writes[k].dst); 0 <= w < |t.nodes| && t.nodes[w].cfg == level
    ensures var r := RouteJobs(t, v, i, writes);
            && |r| == |writes| && ModsOk(t, r)
            && forall k :: 0 <= k < |r| ==>
                 Level(t, r[k].mod) == level && r[k].data == writes[k].data && r[k].id == (i, k)
    ensures RouteSends(t, v, port, i, writes) == []
    decreases |writes|
  {
    hide ChainRun.Neighbour;
    if writes != [] {
      AllRouted(t, v, port, i, writes[..|writes| - 1], level);
    }
  }

  /** ... or all leave by the port of the copy. */
  lemma {:induction false} AllSent(t: Tree, v: nat, port: nat, i: nat, writes: seq<SplitContext.Write>)
    requires forall k :: 0 <= k < |writes| ==> ChainRun.Neighbour(t, v, writes[k].dst) < 0
    ensures RouteJobs(t, v, i, writes) == []
    ensures var m := RouteSends(t, v, port, i, writes);
            && |m| == |writes|
            && forall k :: 0 <= k < |m| ==> m[k] == E.Sent(port, writes[k].data, (i, k))
    decreases |writes|
  {
    hide ChainRun.Neighbour;
    if writes != [] {
      AllSent(t, v, port, i, writes[..|writes| - 1]);
    }
  }

  lemma WritesInRange(pkt: u32, rr: u32, outputs: nat, chunks: seq<Bytestring>, writes: seq<SplitContext.Write>)
    requires 1 <= outputs && SplitContext.SplitWrites(pkt, rr, outputs, 0, chunks, false, writes)
    ensures forall k :: 0 <= k < |writes| ==> 1 <= writes[k].dst <= outputs
  {
    hide ChunkBytes;
  }

  lemma SplitRoutes(p: Pair, a: Flow, b: Flow, chunks: seq<Bytestring>, writes: seq<SplitContext.Write>, port: nat)
    requires PairOk(p) && FlowOk(p, a) && Split(p, a, b, chunks, writes, port)
    ensures var v := a.client[0].mod; var r := RouteJobs(p.client, v, |a.traffic|, writes);
            var m := RouteSends(p.client, v, port, |a.traffic|, writes);
            && ModsOk(p.client, r) && PortsKnown(p, m)
            && if p.s + 1 < |p.extra| then E.ChunkTasks(Cfg(p), |a.traffic|, writes, Tasks(p.client, r)) && m == []
               else E.ChunkSends(|a.traffic|, writes, m) && r == []
  {
    hide TreeOk, ChainRun.Neighbour, ChainObject.Finished, SplitContext.SplitWrites, Flatten, RouteJobs, RouteSends;
    var v := a.client[0].mod;
    WritesInRange(a.pktSeq, a.rr, 1 + p.extra[p.s], chunks, writes);
    forall k | 0 <= k < |writes|
      ensures var w := ChainRun.Neighbour(p.client, v, writes[k].dst);
              && (p.s + 1 < |p.extra| ==> 0 <= w < |p.client.nodes| && p.client.nodes[w].cfg == p.s + 1)
              && (p.s + 1 == |p.extra| ==> w == -1)
    {
      Outputs(p.extra, p.client, v, writes[k].dst);
    }
    if p.s + 1 < |p.extra| {
      AllRouted(p.client, v, port, |a.traffic|, writes, p.s + 1);
    } else {
      AllSent(p.client, v, port, |a.traffic|, writes);
      RoutePort(p, a, b, chunks, writes, port);
    }
  }

  lemma RoutePort(p: Pair, a: Flow, b: Flow, chunks: seq<Bytestring>, writes: seq<SplitContext.Write>, port: nat)
    requires PairOk(p) && Split(p, a, b, chunks, writes, port) && p.s + 1 == |p.extra|
    ensures 1 <= port < |p.server.wire|
  {
    Onward(p.extra, p.client, a.client[0].mod);
  }

  lemma SplitSim(p: Pair, a: Flow, b: Flow, chunks: seq<Bytestring>, writes: seq<SplitContext.Write>, port: nat)
    requires PairOk(p) && FlowOk(p, a) && Split(p, a, b, chunks, writes, port)
    ensures exists r, m :: E.Split(Cfg(p), Abs(p, a), Abs(p, b), chunks, writes, r, m)
    ensures FlowOk(p, b)
  {
    hide TreeOk, ChainObject.Finished, RouteJobs, RouteSends, Tasks, E.ChunkTasks, E.ChunkSends,
      SplitContext.SplitWrites, Flatten;
    var v := a.client[0].mod;
    var r, m := RouteJobs(p.client, v, |a.traffic|, writes), RouteSends(p.client, v, port, |a.traffic|, writes);
    SplitRoutes(p, a, b, chunks, writes, port);
    FlowMoves(p, a, b, r, m);
    TasksNone(p.client);
    assert Abs(p, b).client == Abs(p, a).client[1..] + Tasks(p.client, r);
    SplitSame(p, a, b, chunks, writes, port, r, m);
  }

  lemma FlowMoves(p: Pair, a: Flow, b: Flow, r: seq<Job>, m: seq<E.Sent>)
    requires FlowOk(p, a) && a.client != [] && ModsOk(p.client, r) && PortsKnown(p, m)
    requires b.client == a.client[1..] + r && b.wires == a.wires + m && b.server == a.server
    ensures FlowOk(p, b) && Tasks(p.client, b.client) == Tasks(p.client, a.client)[1..] + Tasks(p.client, r)
  {
    TasksConcat(p.client, a.client, []);
    TasksConcat(p.client, a.client[1..], r);
    hide Tasks;
  }

  lemma SplitSame(p: Pair, a: Flow, b: Flow, chunks: seq<Bytestring>, writes: seq<SplitContext.Write>, port: nat,
                  r: seq<Job>, m: seq<E.Sent>)
    requires PairOk(p) && FlowOk(p, a) && Split(p, a, b, chunks, writes, port)
    requires r == RouteJobs(p.client, a.client[0].mod, |a.traffic|, writes)
    requires m == RouteSends(p.client, a.client[0].mod, port, |a.traffic|, writes)
    requires Tasks(p.client, b.client) == Tasks(p.client, a.client)[1..] + Tasks(p.client, r)
    requires if p.s + 1 < |p.extra| then E.ChunkTasks(Cfg(p), |a.traffic|, writes, Tasks(p.client, r)) && m == []
             else E.ChunkSends(|a.traffic|, writes, m) && r == []
    ensures E.Split(Cfg(p), Abs(p, a), Abs(p, b), chunks, writes, Tasks(p.client, r), m)
  {
    hide TreeOk, ChainObject.Finished, RouteJobs, RouteSends, E.ChunkTasks, E.ChunkSends, SplitContext.SplitWrites,
      Flatten;
    TasksNone(p.client);
  }

  lemma TasksNone(t: Tree)
    ensures Tasks(t, []) == []
  {
  }

  /** Every step on the trees is a step on module indices. */
  lemma StepSim(p: Pair, a: Flow, b: Flow)
    requires PairOk(p) && FlowOk(p, a) && Step(p, a, b)
    ensures E.Step(Cfg(p), Abs(p, a), Abs(p, b)) && FlowOk(p, b)
  {
    hide FlowOk, PairOk, Abs, Push, Encode, Split, Deliver, Decode, MergeOne,
      E.Push, E.Encode, E.Split, E.Deliver, E.Decode, E.MergeOne;
    if x :| Push(p, a, b, x) {
      PushSim(p, a, b, x);
    } else if y :| Encode(p, a, b, y) {
      EncodeSim(p, a, b, y);
    } else if chunks, writes, port :| Split(p, a, b, chunks, writes, port) {
      SplitSim(p, a, b, chunks, writes, port);
    } else if k :| Deliver(p, a, b, k) {
      DeliverSim(p, a, b, k);
    } else if Decode(p, a, b) {
      DecodeSim(p, a, b);
    } else {
      MergeSim(p, a, b);
    }
  }

  ghost predicate Run(p: Pair, trace: seq<Flow>)
    requires PairOk(p)
  {
    && |trace| >= 1 && trace[0] == Start
    && forall i :: 0 <= i < |trace| - 1 ==> Step(p, trace[i], trace[i + 1])
  }

  function AbsTrace(p: Pair, trace: seq<Flow>): (r: seq<E.System>)
    ensures |r| == |trace| && forall i :: 0 <= i < |trace| ==> r[i] == Abs(p, trace[i])
  {
    seq(|trace|, i requires 0 <= i < |trace| => Abs(p, trace[i]))
  }

  lemma {:induction false} RunOk(p: Pair, trace: seq<Flow>, n: nat)
    requires PairOk(p) && Run(p, trace) && n < |trace|
    ensures FlowOk(p, trace[n])
  {
    if n > 0 {
      hide Step, FlowOk, PairOk;
      RunOk(p, trace, n - 1);
      assert Step(p, trace[n - 1], trace[n - 1 + 1]);
      StepSim(p, trace[n - 1], trace[n]);
    }
  }

  lemma RunSim(p: Pair, trace: seq<Flow>)
    requires PairOk(p) && Run(p, trace)
    ensures E.SystemRun(Cfg(p), AbsTrace(p, trace))
  {
    var r := AbsTrace(p, trace);
    assert Abs(p, Start) == E.Start by {
      TasksNone(p.client);
      TasksNone(p.server);
    }
    hide Step, FlowOk, PairOk, Abs, E.Step, AbsTrace;
    forall i | 0 <= i < |r| - 1
      ensures E.Step(Cfg(p), r[i], r[i + 1])
    {
      RunOk(p, trace, i);
      StepSim(p, trace[i], trace[i + 1]);
    }
  }

  predicate Quiet(a: Flow)
  {
    a.client == [] && a.wires == [] && a.server == []
  }

  /** End to end, on the chains as built: what comes out of the server's chain is at every moment a prefix of
      what was pushed into the client's, and all of it once nothing is left on the way. */
  lemma FlowExact(p: Pair, trace: seq<Flow>, n: nat)
    requires PairOk(p) && Run(p, trace) && n < |trace|
    ensures trace[n].emitted <= trace[n].pushed
    ensures Quiet(trace[n]) && |trace[n].pushed| <= LAST_PACKET ==> trace[n].emitted == trace[n].pushed
  {
    hide PairOk, Run, E.SystemRun;
    RunSim(p, trace);
    EndToEndRuns.EndToEndExact(Cfg(p), AbsTrace(p, trace), n);
    assert AbsTrace(p, trace)[n] == Abs(p, trace[n]);
  }
}
