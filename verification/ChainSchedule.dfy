/** The end-to-end system and the running chain are one: the jobs of `ChainFlow` on either side are, at every
    moment, the queue of a run of `ChainRun` on that side's chain, with one worker. */
module ChainSchedule {
  import opened Bytes
  import opened ChainTree
  import opened ChainFlow
  import ChainObject
  import ChainRouting
  import R = ChainRun
  import SplitContext
  import SplitMerge
  import E = EndToEnd

  ghost predicate Reachable(t: Tree, st: R.State)
  {
    exists trace, steps :: R.Run(t, trace, steps) && trace[|steps|] == st
  }

  lemma ReachInit(t: Tree)
    ensures Reachable(t, R.Init)
  {
    assert R.Run(t, [R.Init], []);
  }

  lemma ReachStep(t: Tree, st: R.State, a: R.Step)
    requires Reachable(t, st) && |st.paused| == 2 && R.EntriesOk(t) && R.Legal(st, a)
    ensures Reachable(t, R.Apply(t, st, a))
  {
    hide R.Apply, R.Legal;
    var trace, steps :| R.Run(t, trace, steps) && trace[|steps|] == st;
    var trace', steps' := trace + [R.Apply(t, st, a)], steps + [a];
    forall i | 0 <= i < |steps'|
      ensures R.Taken(t, trace'[i], steps'[i], trace'[i + 1])
    {
      assert i < |steps| ==> R.Taken(t, trace[i], steps[i], trace[i + 1]);
    }
    assert R.Run(t, trace', steps');
  }

  // ----- A queue of jobs -----

  /** The tasks are the jobs, in this order and all in direction `dir`; `data` holds what is in the buffers. */
  predicate Carries(q: seq<R.Task>, jobs: seq<Job>, data: map<nat, Bytestring>, dir: nat)
  {
    && |q| == |jobs|
    && forall i :: 0 <= i < |q| ==>
         q[i].mod == jobs[i].mod && q[i].dir == dir && q[i].buf in data && data[q[i].buf] == jobs[i].data
  }

  /** What was given to `wire_write` is `outs`, by these ports and in this order. */
  predicate Gone(exits: seq<R.Exit>, outs: seq<E.Sent>, data: map<nat, Bytestring>)
  {
    && |exits| == |outs|
    && forall i :: 0 <= i < |exits| ==>
         exits[i].port == outs[i].port && exits[i].buf in data && data[exits[i].buf] == outs[i].data
  }

  /** Buffer numbers are not used twice, so `data` stays true. */
  predicate Known(st: R.State, data: map<nat, Bytestring>)
  {
    forall b :: b in data ==> b < st.next
  }

  predicate Fine(st: R.State)
  {
    st.alive && !st.cancelled && |st.paused| == 2
  }

  predicate Matches(st: R.State, data: map<nat, Bytestring>, jobs: seq<Job>, outs: seq<E.Sent>, dir: nat)
  {
    Fine(st) && Known(st, data) && Carries(st.queue, jobs, data, dir) && Gone(st.exits, outs, data)
  }

  /** A reachable state of the chain between two tasks. */
  ghost predicate Rests(t: Tree, st: R.State, data: map<nat, Bytestring>, jobs: seq<Job>, outs: seq<E.Sent>, dir: nat)
  {
    Reachable(t, st) && st.workers == map[] && Matches(st, data, jobs, outs, dir)
  }

  /** A reachable state in which the only worker runs `task`. */
  ghost predicate Works(t: Tree, st: R.State, data: map<nat, Bytestring>, jobs: seq<Job>, outs: seq<E.Sent>, dir: nat,
                        task: R.Task)
  {
    && Reachable(t, st) && Matches(st, data, jobs, outs, dir)
    && st.workers == map[0 := R.Worker(task, true, {task.buf})] && task.buf < st.next
  }

  lemma CarriesMore(q: seq<R.Task>, jobs: seq<Job>, data: map<nat, Bytestring>, dir: nat, x: R.Task, y: Job, b: nat,
                    bytes: Bytestring)
    requires Carries(q, jobs, data, dir) && b !in data
    ensures Carries(q, jobs, data[b := bytes], dir)
    ensures x.mod == y.mod && x.dir == dir && x.buf == b && bytes == y.data ==>
              Carries(q + [x], jobs + [y], data[b := bytes], dir)
  {
  }

  lemma GoneMore(exits: seq<R.Exit>, outs: seq<E.Sent>, data: map<nat, Bytestring>, x: R.Exit, y: E.Sent, b: nat,
                 bytes: Bytestring)
    requires Gone(exits, outs, data) && b !in data
    ensures Gone(exits, outs, data[b := bytes])
    ensures x.port == y.port && x.buf == b && bytes == y.data ==> Gone(exits + [x], outs + [y], data[b := bytes])
  {
  }

  lemma Begin(t: Tree, st: R.State, data: map<nat, Bytestring>, jobs: seq<Job>, outs: seq<E.Sent>, dir: nat)
    returns (st': R.State)
    requires R.EntriesOk(t) && Rests(t, st, data, jobs, outs, dir) && jobs != []
    ensures st.queue != [] && Works(t, st', data, jobs[1..], outs, dir, st.queue[0]) && st.queue[0].mod == jobs[0].mod
  {
    hide Reachable, Gone;
    var st1 := R.Apply(t, st, R.PopTask(0));
    ReachStep(t, st, R.PopTask(0));
    assert R.Legal(st1, R.StartTask(0));
    st' := R.Apply(t, st1, R.StartTask(0));
    ReachStep(t, st1, R.StartTask(0));
    assert Known(st, data) && st.queue[0].buf in data;
  }

  /** The module allocates a buffer and writes it to an output. */
  lemma Emit(t: Tree, st: R.State, data: map<nat, Bytestring>, jobs: seq<Job>, outs: seq<E.Sent>, dir: nat,
             task: R.Task, dst: nat, y: Bytestring, id: (nat, nat))
    returns (st': R.State, data': map<nat, Bytestring>)
    requires R.EntriesOk(t) && Works(t, st, data, jobs, outs, dir, task) && dir == (if dst == 0 then 1 else 0)
    requires R.Neighbour(t, task.mod, dst) < 0 ==> R.ExitPort(t, task.mod, dst) >= 0
    ensures var w := R.Neighbour(t, task.mod, dst);
            if w >= 0 then Works(t, st', data', jobs + [Job(w, y, id)], outs, dir, task)
            else Works(t, st', data', jobs, outs + [E.Sent(R.ExitPort(t, task.mod, dst), y, id)], dir, task)
  {
    hide Reachable, R.Neighbour, R.ExitPort;
    var b := st.next;
    var st1 := R.Apply(t, st, R.Malloc(0, |y|));
    AfterMalloc(t, st, task, |y|);
    ReachStep(t, st, R.Malloc(0, |y|));
    var write := R.Write(0, dst, b, task.src);
    st', data' := R.Apply(t, st1, write), data[b := y];
    ReachStep(t, st1, write);
    AfterWrite(t, st1, task, dst, b);
    var w := R.Neighbour(t, task.mod, dst);
    if w >= 0 {
      CarriesMore(st.queue, jobs, data, dir, R.Task(st1.tasks, w, task.src, dir, b), Job(w, y, id), b, y);
      GoneMore(st.exits, outs, data, R.Exit(0, b), E.Sent(0, y, id), b, y);
    } else {
      CarriesMore(st.queue, jobs, data, dir, task, Job(0, y, id), b, y);
      var port := R.ExitPort(t, task.mod, dst);
      GoneMore(st.exits, outs, data, R.Exit(port, b), E.Sent(port, y, id), b, y);
    }
  }

  lemma AfterMalloc(t: Tree, st: R.State, task: R.Task, size: nat)
    requires R.EntriesOk(t) && Fine(st) && st.workers == map[0 := R.Worker(task, true, {task.buf})]
    ensures R.Legal(st, R.Malloc(0, size))
    ensures var r := R.Apply(t, st, R.Malloc(0, size));
            && Fine(r) && r.queue == st.queue && r.exits == st.exits && r.next == st.next + 1 && r.tasks == st.tasks
            && r.workers == map[0 := R.Worker(task, true, {task.buf, st.next})]
  {
    hide R.AllocBuffer;
    ChainRouting.AllocSame(st, size);
    assert {task.buf} + {st.next} == {task.buf, st.next};
  }

  lemma AfterWrite(t: Tree, st: R.State, task: R.Task, dst: nat, b: nat)
    requires R.EntriesOk(t) && Fine(st) && b != task.buf
    requires st.workers == map[0 := R.Worker(task, true, {task.buf, b})]
    ensures R.Legal(st, R.Write(0, dst, b, task.src))
    ensures var r := R.Apply(t, st, R.Write(0, dst, b, task.src)); var w := R.Neighbour(t, task.mod, dst);
            && Fine(r) && r.next == st.next && r.workers == map[0 := R.Worker(task, true, {task.buf})]
            && r.queue == (if w >= 0 then st.queue + [R.Task(st.tasks, w, task.src, if dst == 0 then 1 else 0, b)]
                           else st.queue)
            && r.exits == (if w >= 0 then st.exits else st.exits + [R.Exit(R.ExitPort(t, task.mod, dst), b)])
  {
    hide R.FreeBuffer, R.Neighbour, R.ExitPort;
    var st1 := R.Release(st, 0, b);
    assert {task.buf, b} - {b} == {task.buf};
    assert st1.workers == map[0 := R.Worker(task, true, {task.buf})];
    ChainRouting.FreeSame(st1.(exits := st1.exits + [R.Exit(R.ExitPort(t, task.mod, dst), b)]), b);
  }

  /** The module frees the packet it was given and returns. */
  lemma End(t: Tree, st: R.State, data: map<nat, Bytestring>, jobs: seq<Job>, outs: seq<E.Sent>, dir: nat,
            task: R.Task) returns (st': R.State)
    requires R.EntriesOk(t) && Works(t, st, data, jobs, outs, dir, task)
    ensures Rests(t, st', data, jobs, outs, dir)
  {
    hide Reachable, Carries, Gone, R.FreeBuffer;
    var st1 := R.Apply(t, st, R.FreeOne(0, task.buf));
    ReachStep(t, st, R.FreeOne(0, task.buf));
    ChainRouting.FreeSame(R.Release(st, 0, task.buf), task.buf);
    st' := R.Apply(t, st1, R.Return(0, 0));
    ReachStep(t, st1, R.Return(0, 0));
  }

  /** A caller allocates a buffer and pushes it. */
  lemma Enter(t: Tree, st: R.State, data: map<nat, Bytestring>, jobs: seq<Job>, outs: seq<E.Sent>, src: nat, dir: nat,
              x: Bytestring, mod: nat, id: (nat, nat)) returns (st': R.State, data': map<nat, Bytestring>)
    requires R.EntriesOk(t) && Rests(t, st, data, jobs, outs, dir) && t.nodes != []
    requires if dir == 0 then mod == 0 else 1 <= src < |t.wire| && mod == t.wire[src]
    ensures Rests(t, st', data', jobs + [Job(mod, x, id)], outs, dir)
  {
    hide Reachable, R.AllocBuffer, R.FreeBuffer;
    var b := st.next;
    ChainRouting.AllocSame(st, |x|);
    var st1 := R.Apply(t, st, R.Allocate(|x|));
    ReachStep(t, st, R.Allocate(|x|));
    st', data' := R.Apply(t, st1, R.Push(b, src, dir)), data[b := x];
    ReachStep(t, st1, R.Push(b, src, dir));
    CarriesMore(st.queue, jobs, data, dir, R.Task(st1.tasks, mod, src, dir, b), Job(mod, x, id), b, x);
    GoneMore(st.exits, outs, data, R.Exit(0, b), E.Sent(0, x, id), b, x);
  }

  // ----- The steps of the client's side -----

  lemma EntriesFine(extra: Extra, t: Tree)
    requires ChainObject.Finished(extra, t)
    ensures R.EntriesOk(t) && t.nodes != []
  {
    assert PortsOk(t, |extra|);
  }

  lemma EncodeRuns(p: Pair, a: Flow, b: Flow, y: Bytestring, st: R.State, data: map<nat, Bytestring>,
                   outs: seq<E.Sent>) returns (st': R.State, data': map<nat, Bytestring>, outs': seq<E.Sent>)
    requires PairOk(p) && FlowOk(p, a) && Encode(p, a, b, y) && Rests(p.client, st, data, a.client, outs, 0)
    ensures Rests(p.client, st', data', b.client, outs', 0)
    ensures exists m: seq<E.Sent> :: outs' == outs + m && b.wires == a.wires + m
  {
    hide Rests, Works, ChainObject.Finished, R.EntriesOk, R.Neighbour;
    var x, t := a.client[0], p.client;
    EntriesFine(p.extra, t);
    Onward(p.extra, t, x.mod);
    var w, port := R.Neighbour(t, x.mod, 1), R.ExitPort(t, x.mod, 1);
    var st1 := Begin(t, st, data, a.client, outs, 0);
    var st2;
    st2, data' := Emit(t, st1, data, a.client[1..], outs, 0, st.queue[0], 1, y, x.id);
    var m: seq<E.Sent> := if w >= 0 then [] else [E.Sent(port, y, x.id)];
    NoneRight(outs);
    outs' := outs + m;
    st' := End(t, st2, data', b.client, outs', 0, st.queue[0]);
    assert b.wires == a.wires + m;
  }

  lemma {:induction false} EmitAll(t: Tree, st: R.State, data: map<nat, Bytestring>, jobs: seq<Job>, outs: seq<E.Sent>,
                                   task: R.Task, port: nat, i: nat, writes: seq<SplitContext.Write>)
    returns (st': R.State, data': map<nat, Bytestring>)
    requires R.EntriesOk(t) && Works(t, st, data, jobs, outs, 0, task)
    requires forall k :: 0 <= k < |writes| ==>
               writes[k].dst >= 1 &&
               (R.Neighbour(t, task.mod, writes[k].dst) < 0 ==> R.ExitPort(t, task.mod, writes[k].dst) == port)
    ensures Works(t, st', data', jobs + RouteJobs(t, task.mod, i, writes),
                  outs + RouteSends(t, task.mod, port, i, writes), 0, task)
    decreases |writes|
  {
    hide Works, R.EntriesOk, R.Neighbour, R.ExitPort;
    if writes == [] {
      st', data' := st, data;
      NoneRight(jobs);
      NoneRight(outs);
    } else {
      var k := |writes| - 1;
      var st1, data1 := EmitAll(t, st, data, jobs, outs, task, port, i, writes[..k]);
      var r, m := RouteJobs(t, task.mod, i, writes[..k]), RouteSends(t, task.mod, port, i, writes[..k]);
      st', data' := Emit(t, st1, data1, jobs + r, outs + m, 0, task, writes[k].dst, writes[k].data, (i, k));
      var w := R.Neighbour(t, task.mod, writes[k].dst);
      Assoc(jobs, r, if w >= 0 then [Job(w, writes[k].data, (i, k))] else []);
      Assoc(outs, m, if w >= 0 then [] else [E.Sent(port, writes[k].data, (i, k))]);
      NoneRight(jobs + r);
      NoneRight(outs + m);
    }
  }

  lemma SplitPorts(p: Pair, a: Flow, b: Flow, chunks: seq<Bytestring>, writes: seq<SplitContext.Write>, port: nat)
    requires PairOk(p) && FlowOk(p, a) && Split(p, a, b, chunks, writes, port)
    ensures forall k :: 0 <= k < |writes| ==>
              var v := a.client[0].mod;
              writes[k].dst >= 1 &&
              (R.Neighbour(p.client, v, writes[k].dst) < 0 ==> R.ExitPort(p.client, v, writes[k].dst) == port)
  {
    hide ChainObject.Finished, R.Neighbour, SplitContext.SplitWrites, RouteJobs, RouteSends, Flatten;
    var v := a.client[0].mod;
    WritesInRange(a.pktSeq, a.rr, 1 + p.extra[p.s], chunks, writes);
    forall k | 0 <= k < |writes|
      ensures writes[k].dst >= 1
      ensures R.Neighbour(p.client, v, writes[k].dst) < 0 ==> R.ExitPort(p.client, v, writes[k].dst) == port
    {
      Outputs(p.extra, p.client, v, writes[k].dst);
    }
  }

  lemma SplitRuns(p: Pair, a: Flow, b: Flow, chunks: seq<Bytestring>, writes: seq<SplitContext.Write>, port: nat,
                  st: R.State, data: map<nat, Bytestring>, outs: seq<E.Sent>)
    returns (st': R.State, data': map<nat, Bytestring>, outs': seq<E.Sent>)
    requires PairOk(p) && FlowOk(p, a) && Split(p, a, b, chunks, writes, port)
    requires Rests(p.client, st, data, a.client, outs, 0)
    ensures Rests(p.client, st', data', b.client, outs', 0)
    ensures exists m: seq<E.Sent> :: outs' == outs + m && b.wires == a.wires + m
  {
    hide Rests, Works, ChainObject.Finished, R.EntriesOk, R.Neighbour, R.ExitPort, SplitContext.SplitWrites,
      RouteJobs, RouteSends, Flatten;
    var t := p.client;
    EntriesFine(p.extra, t);
    SplitPorts(p, a, b, chunks, writes, port);
    var st1 := Begin(t, st, data, a.client, outs, 0);
    var st2;
    st2, data' := EmitAll(t, st1, data, a.client[1..], outs, st.queue[0], port, |a.traffic|, writes);
    var m := RouteSends(t, a.client[0].mod, port, |a.traffic|, writes);
    outs' := outs + m;
    st' := End(t, st2, data', b.client, outs', 0, st.queue[0]);
    assert b.wires == a.wires + m;
  }

  // ----- The steps of the server's side -----

  /** What the server emits leaves its chain by port 0. */
  function AtEntry(packets: seq<Bytestring>): (r: seq<E.Sent>)
    ensures |r| == |packets|
    ensures forall i :: 0 <= i < |r| ==> r[i].port == 0 && r[i].data == packets[i]
  {
    seq(|packets|, i requires 0 <= i < |packets| => E.Sent(0, packets[i], (0, 0)))
  }

  lemma AtEntryMore(xs: seq<Bytestring>, ys: seq<Bytestring>)
    ensures AtEntry(xs + ys) == AtEntry(xs) + AtEntry(ys)
  {
  }

  /** The worker writes packets to output 0, one after the other. */
  lemma {:induction false} EmitBack(t: Tree, st: R.State, data: map<nat, Bytestring>, jobs: seq<Job>,
                                    outs: seq<E.Sent>, task: R.Task, packets: seq<Bytestring>)
    returns (st': R.State, data': map<nat, Bytestring>)
    requires R.EntriesOk(t) && Works(t, st, data, jobs, outs, 1, task)
    ensures var w := R.Neighbour(t, task.mod, 0);
            if w >= 0 then Works(t, st', data', jobs + PacketJobs(w, packets), outs, 1, task)
            else Works(t, st', data', jobs, outs + AtEntry(packets), 1, task)
    decreases |packets|
  {
    hide Works, R.EntriesOk, R.Neighbour, AtEntry, PacketJobs;
    var w := R.Neighbour(t, task.mod, 0);
    PacketJobsSnoc(if w >= 0 then w else 0, packets);
    if packets == [] {
      st', data' := st, data;
      NoneRight(jobs);
      NoneRight(outs);
    } else {
      var k := |packets| - 1;
      var st1, data1 := EmitBack(t, st, data, jobs, outs, task, packets[..k]);
      if w >= 0 {
        var r := PacketJobs(w, packets[..k]);
        st', data' := Emit(t, st1, data1, jobs + r, outs, 1, task, 0, packets[k], (0, 0));
        Assoc(jobs, r, [Job(w, packets[k], (0, 0))]);
      } else {
        var m := AtEntry(packets[..k]);
        st', data' := Emit(t, st1, data1, jobs, outs + m, 1, task, 0, packets[k], (0, 0));
        Assoc(outs, m, [E.Sent(0, packets[k], (0, 0))]);
      }
    }
  }

  lemma PacketJobsSnoc(w: nat, packets: seq<Bytestring>)
    ensures packets == [] ==> PacketJobs(w, packets) == [] && AtEntry(packets) == []
    ensures packets != [] ==>
              var k := |packets| - 1;
              && PacketJobs(w, packets) == PacketJobs(w, packets[..k]) + [Job(w, packets[k], (0, 0))]
              && AtEntry(packets) == AtEntry(packets[..k]) + [E.Sent(0, packets[k], (0, 0))]
  {
  }

  /** One task of the server's side that writes these packets to output 0. */
  lemma BackRuns(t: Tree, st: R.State, data: map<nat, Bytestring>, jobs: seq<Job>, emitted: seq<Bytestring>,
                 packets: seq<Bytestring>) returns (st': R.State, data': map<nat, Bytestring>)
    requires R.EntriesOk(t) && jobs != [] && Rests(t, st, data, jobs, AtEntry(emitted), 1)
    ensures var w := R.Neighbour(t, jobs[0].mod, 0);
            if w >= 0 then Rests(t, st', data', jobs[1..] + PacketJobs(w, packets), AtEntry(emitted), 1)
            else Rests(t, st', data', jobs[1..], AtEntry(emitted + packets), 1)
  {
    hide Rests, Works, R.EntriesOk, R.Neighbour, AtEntry, PacketJobs;
    var w := R.Neighbour(t, jobs[0].mod, 0);
    var st1 := Begin(t, st, data, jobs, AtEntry(emitted), 1);
    var st2;
    st2, data' := EmitBack(t, st1, data, jobs[1..], AtEntry(emitted), st.queue[0], packets);
    if w >= 0 {
      st' := End(t, st2, data', jobs[1..] + PacketJobs(w, packets), AtEntry(emitted), 1, st.queue[0]);
    } else {
      AtEntryMore(emitted, packets);
      st' := End(t, st2, data', jobs[1..], AtEntry(emitted + packets), 1, st.queue[0]);
    }
  }

  lemma OnePacket(w: nat, y: Bytestring, emitted: seq<Bytestring>)
    ensures PacketJobs(w, [y]) == [Job(w, y, (0, 0))]
  {
  }

  /** The number that `ChainFlow` gives a job is not part of a queued call. */
  lemma Renumbered(t: Tree, st: R.State, data: map<nat, Bytestring>, q: seq<Job>, x: Job, y: Job, outs: seq<E.Sent>,
                   dir: nat)
    requires Rests(t, st, data, q + [x], outs, dir) && x.mod == y.mod && x.data == y.data
    ensures Rests(t, st, data, q + [y], outs, dir)
  {
  }

  lemma DecodeRuns(p: Pair, a: Flow, b: Flow, st: R.State, data: map<nat, Bytestring>)
    returns (st': R.State, data': map<nat, Bytestring>)
    requires PairOk(p) && Decode(p, a, b) && Rests(p.server, st, data, a.server, AtEntry(a.emitted), 1)
    ensures Rests(p.server, st', data', b.server, AtEntry(b.emitted), 1)
  {
    hide Rests, ChainObject.Finished, R.EntriesOk, R.Neighbour, AtEntry, PacketJobs;
    var x, t := a.server[0], p.server;
    EntriesFine(p.extra, t);
    var y, w := p.dec[t.nodes[x.mod].cfg](x.data), R.Neighbour(t, x.mod, 0);
    st', data' := BackRuns(t, st, data, a.server, a.emitted, [y]);
    if w >= 0 {
      OnePacket(w, y, a.emitted);
      Renumbered(t, st', data', a.server[1..], Job(w, y, (0, 0)), Job(w, y, x.id), AtEntry(a.emitted), 1);
    }
  }

  lemma MergeRuns(p: Pair, a: Flow, b: Flow, st: R.State, data: map<nat, Bytestring>)
    returns (st': R.State, data': map<nat, Bytestring>)
    requires PairOk(p) && MergeOne(p, a, b) && Rests(p.server, st, data, a.server, AtEntry(a.emitted), 1)
    ensures Rests(p.server, st', data', b.server, AtEntry(b.emitted), 1)
  {
    hide Rests, ChainObject.Finished, R.EntriesOk, R.Neighbour, AtEntry, PacketJobs, SplitMerge.Receive;
    EntriesFine(p.extra, p.server);
    st', data' := BackRuns(p.server, st, data, a.server, a.emitted, SplitMerge.Receive(a.merge, a.server[0].data).1);
  }

  lemma DeliverRuns(p: Pair, a: Flow, b: Flow, k: nat, st: R.State, data: map<nat, Bytestring>)
    returns (st': R.State, data': map<nat, Bytestring>)
    requires PairOk(p) && FlowOk(p, a) && Deliver(p, a, b, k)
    requires Rests(p.server, st, data, a.server, AtEntry(a.emitted), 1)
    ensures Rests(p.server, st', data', b.server, AtEntry(b.emitted), 1)
  {
    hide Rests, ChainObject.Finished, R.EntriesOk, AtEntry;
    EntriesFine(p.extra, p.server);
    var m := a.wires[k];
    var mod := p.server.wire[m.port];
    st', data' := Enter(p.server, st, data, a.server, AtEntry(a.emitted), m.port, 1, m.data, mod, m.id);
  }

  // ----- Whole runs -----

  /** The client's queue is that of a run of its chain, and every message on the wires left it by its port. */
  ghost predicate ClientRuns(p: Pair, a: Flow)
  {
    exists st, data, outs ::
      Rests(p.client, st, data, a.client, outs, 0) && multiset(a.wires) <= multiset(outs)
  }

  /** The server's queue is that of a run of its chain, and what has left it at the entry is what was emitted. */
  ghost predicate ServerRuns(p: Pair, a: Flow)
  {
    exists st, data :: Rests(p.server, st, data, a.server, AtEntry(a.emitted), 1)
  }

  lemma MoreWires(a: seq<E.Sent>, outs: seq<E.Sent>, m: seq<E.Sent>)
    requires multiset(a) <= multiset(outs)
    ensures multiset(a + m) <= multiset(outs + m)
  {
  }

  lemma FewerWires(a: seq<E.Sent>, k: nat)
    requires k < |a|
    ensures multiset(a[..k] + a[k + 1..]) <= multiset(a)
  {
    assert a == a[..k] + [a[k]] + a[k + 1..];
  }

  lemma ClientStep(p: Pair, a: Flow, b: Flow)
    requires PairOk(p) && FlowOk(p, a) && Step(p, a, b) && ClientRuns(p, a)
    ensures ClientRuns(p, b)
  {
    hide FlowOk, PairOk, Encode, Split, Rests, MergeOne, Decode;
    var st, data, outs :| Rests(p.client, st, data, a.client, outs, 0) && multiset(a.wires) <= multiset(outs);
    var st', data', outs';
    if y :| Encode(p, a, b, y) {
      st', data', outs' := EncodeRuns(p, a, b, y, st, data, outs);
      ClientGrows(a, b, outs, outs');
      assert ClientRuns(p, b);
    } else if chunks, writes, port :| Split(p, a, b, chunks, writes, port) {
      st', data', outs' := SplitRuns(p, a, b, chunks, writes, port, st, data, outs);
      ClientGrows(a, b, outs, outs');
      assert ClientRuns(p, b);
    } else if x :| Push(p, a, b, x) {
      assert R.EntriesOk(p.client) && p.client.nodes != [] by { ClientEntries(p); }
      st', data' := Enter(p.client, st, data, a.client, outs, 0, 0, x, 0, (0, 0));
      assert b.wires == a.wires && b.client == a.client + [Job(0, x, (0, 0))];
      assert ClientRuns(p, b);
    } else {
      ServerOnly(p, a, b);
      assert multiset(b.wires) <= multiset(outs);
      assert ClientRuns(p, b);
    }
  }

  lemma ClientEntries(p: Pair)
    requires PairOk(p)
    ensures R.EntriesOk(p.client) && p.client.nodes != []
  {
    EntriesFine(p.extra, p.client);
  }

  lemma ClientGrows(a: Flow, b: Flow, outs: seq<E.Sent>, outs': seq<E.Sent>)
    requires multiset(a.wires) <= multiset(outs)
    requires exists m: seq<E.Sent> :: outs' == outs + m && b.wires == a.wires + m
    ensures multiset(b.wires) <= multiset(outs')
  {
    var m: seq<E.Sent> :| outs' == outs + m && b.wires == a.wires + m;
    MoreWires(a.wires, outs, m);
  }

  /** The steps of the server's side take messages off the wires at most. */
  lemma ServerOnly(p: Pair, a: Flow, b: Flow)
    requires PairOk(p) && (Decode(p, a, b) || MergeOne(p, a, b) || exists k :: Deliver(p, a, b, k))
    ensures b.client == a.client && multiset(b.wires) <= multiset(a.wires)
  {
    hide ChainObject.Finished, R.Neighbour, SplitMerge.Receive, PacketJobs;
    if k :| Deliver(p, a, b, k) {
      FewerWires(a.wires, k);
    }
  }

  lemma ServerStep(p: Pair, a: Flow, b: Flow)
    requires PairOk(p) && FlowOk(p, a) && Step(p, a, b) && ServerRuns(p, a)
    ensures ServerRuns(p, b)
  {
    hide FlowOk, PairOk, Deliver, Rests, MergeOne, Decode, AtEntry;
    var st, data :| Rests(p.server, st, data, a.server, AtEntry(a.emitted), 1);
    var st', data';
    if Decode(p, a, b) {
      st', data' := DecodeRuns(p, a, b, st, data);
    } else if MergeOne(p, a, b) {
      st', data' := MergeRuns(p, a, b, st, data);
    } else if k :| Deliver(p, a, b, k) {
      st', data' := DeliverRuns(p, a, b, k, st, data);
    } else {
      ClientOnly(p, a, b);
      st', data' := st, data;
    }
  }

  lemma ClientOnly(p: Pair, a: Flow, b: Flow)
    requires PairOk(p)
    requires (exists x :: Push(p, a, b, x)) || (exists y :: Encode(p, a, b, y)) ||
             (exists chunks, writes, port :: Split(p, a, b, chunks, writes, port))
    ensures b.server == a.server && b.emitted == a.emitted
  {
    hide ChainObject.Finished, R.Neighbour, RouteJobs, RouteSends, Flatten;
  }

  lemma AtRest(t: Tree)
    ensures Rests(t, R.Init, map[], [], [], 0) && Rests(t, R.Init, map[], [], AtEntry([]), 1)
  {
    ReachInit(t);
  }

  /** In every run of the end-to-end system, at every moment: the jobs of each side are the tasks in the queue of
      a run of that side's chain, buffer by buffer, those of the client all in direction 0 and those of the
      server in direction 1; the messages on the wires left the client's chain by their ports; and what left
      the server's chain at its entry is what was emitted. */
  lemma {:induction false} FlowIsRun(p: Pair, trace: seq<Flow>, n: nat)
    requires PairOk(p) && Run(p, trace) && n < |trace|
    ensures ClientRuns(p, trace[n]) && ServerRuns(p, trace[n])
  {
    hide PairOk, FlowOk, Step, Rests, AtEntry;
    if n == 0 {
      AtRest(p.client);
      AtRest(p.server);
    } else {
      FlowIsRun(p, trace, n - 1);
      RunOk(p, trace, n - 1);
      assert Step(p, trace[n - 1], trace[n - 1 + 1]);
      hide ClientRuns, ServerRuns;
      ClientStep(p, trace[n - 1], trace[n]);
      ServerStep(p, trace[n - 1], trace[n]);
    }
  }
}
