/** Where packets go in a running chain: at which copy they enter, which copy runs next and in which direction,
    by which port they leave, in which order and by how many workers they are taken up, and when the chain asks
    for a pause. */
module ChainRouting {
  import opened ChainTree
  import opened ChainRun

  // ----- What the parts of a step leave alone -----

  lemma FreeSame(st: State, b: nat)
    requires |st.paused| == 2
    ensures var r := FreeBuffer(st, b);
            && r.queue == st.queue && r.tasks == st.tasks && r.workers == st.workers && r.stores == st.stores
            && r.alive == st.alive && r.cancelled == st.cancelled && r.exits == st.exits && |r.paused| == 2
            && r.freed == st.freed + [b] && r.next == st.next
  {
  }

  lemma AllocSame(st: State, size: nat)
    requires |st.paused| == 2
    ensures var r := AllocBuffer(st, size);
            && r.queue == st.queue && r.tasks == st.tasks && r.workers == st.workers && r.stores == st.stores
            && r.alive == st.alive && r.cancelled == st.cancelled && r.exits == st.exits && |r.paused| == 2
            && r.next == st.next + 1
  {
  }

  lemma ReleaseSame(st: State, w: nat, b: nat)
    requires w in st.workers
    ensures var r := Release(st, w, b);
            && r.queue == st.queue && r.tasks == st.tasks && r.paused == st.paused && r.bytes == st.bytes
            && r.alive == st.alive && r.cancelled == st.cancelled && r.exits == st.exits && r.next == st.next
            && w in r.workers && r.workers == st.workers[w := r.workers[w]]
            && r.workers[w].task == st.workers[w].task && r.workers[w].started == st.workers[w].started
  {
    var x := st.workers[w];
    assert st.workers[w := x] == st.workers;
  }

  // ----- Every task is of a copy that exists -----

  predicate QueuePlaced(t: Tree, q: seq<Task>)
  {
    forall i :: 0 <= i < |q| ==> q[i].mod < |t.nodes|
  }

  predicate WorkersPlaced(t: Tree, m: map<nat, Worker>)
  {
    forall w :: w in m ==> m[w].task.mod < |t.nodes|
  }

  predicate StoresPlaced(t: Tree, s: map<Place, set<nat>>)
  {
    forall p :: p in s && s[p] != {} ==> p.mod < |t.nodes|
  }

  predicate Placed(t: Tree, st: State)
  {
    QueuePlaced(t, st.queue) && WorkersPlaced(t, st.workers) && StoresPlaced(t, st.stores)
  }

  lemma NeighbourIn(t: Tree, n: nat, v: nat, dst: int)
    requires TreeOk(t, n) && Neighbour(t, v, dst) >= 0
    ensures Neighbour(t, v, dst) < |t.nodes|
  {
    assert BackOk(t, n, v) && ForwardOk(t, n, v);
  }

  lemma EntryIn(t: Tree, n: nat, port: int)
    requires TreeOk(t, n) && 1 <= port < |t.wire|
    ensures 0 <= t.wire[port] < |t.nodes|
  {
    assert PortsOk(t, n);
  }

  lemma EnqueuePlaced(t: Tree, st: State, mod: nat, b: nat, src: int, dir: nat)
    requires |st.paused| == 2 && Placed(t, st) && mod < |t.nodes|
    ensures Placed(t, EnqueueModule(st, mod, b, src, dir))
  {
  }

  lemma WritePlaced(t: Tree, n: nat, st: State, mod: nat, dst: int, b: nat, src: int)
    requires TreeOk(t, n) && |st.paused| == 2 && Placed(t, st)
    ensures Placed(t, WritePacket(t, st, mod, dst, b, src))
  {
    hide TreeOk, Neighbour;
    if Neighbour(t, mod, dst) >= 0 {
      NeighbourIn(t, n, mod, dst);
      EnqueuePlaced(t, st, Neighbour(t, mod, dst), b, src, if dst == 0 then 1 else 0);
    }
  }

  lemma PushPlaced(t: Tree, n: nat, st: State, b: nat, src: int, dir: nat)
    requires TreeOk(t, n) && |st.paused| == 2 && EntriesOk(t) && PushSafe(t, st, src, dir) && Placed(t, st)
    ensures Placed(t, PushPacket(t, st, b, src, dir))
  {
    assert |t.nodes| >= 1;
    hide TreeOk;
    EnqueuePlaced(t, st, 0, b, src, dir);
    if 1 <= src < |t.wire| {
      EntryIn(t, n, src);
      EnqueuePlaced(t, st, t.wire[src], b, src, dir);
    }
  }

  lemma ReleasePlaced(t: Tree, st: State, w: nat, b: nat)
    requires Placed(t, st) && w in st.workers
    ensures Placed(t, Release(st, w, b)) && Release(st, w, b).paused == st.paused
  {
  }

  lemma StepPlaced(t: Tree, n: nat, st: State, a: Step)
    requires TreeOk(t, n) && |st.paused| == 2 && EntriesOk(t) && Legal(st, a) && Placed(t, st)
    ensures Placed(t, Apply(t, st, a))
  {
    hide TreeOk, WritePacket, PushPacket, Release, Free, FreeBuffer, AllocBuffer, Start, Finish;
    match a
    case Allocate(size) => AllocSame(st, size);
    case Malloc(w, size) => AllocSame(st, size);
    case Discard(b) => FreeSame(LeaveOutside(st, b), b);
    case Push(b, src, dir) => PushPlaced(t, n, LeaveOutside(st, b), b, src, dir);
    case FreeOne(w, b) =>
      ReleasePlaced(t, st, w, b);
      FreeSame(Release(st, w, b), b);
    case Write(w, dst, b, src) =>
      ReleasePlaced(t, st, w, b);
      WritePlaced(t, n, Release(st, w, b), st.workers[w].task.mod, dst, b, src);
    case Keep(w, b) =>
      ReleasePlaced(t, st, w, b);
    case Tick(p, dst, b, src) => WritePlaced(t, n, LeaveStore(st, p, b), p.mod, dst, b, src);
    case StartTask(w) => TaskPlaced(t, st, w, 0);
    case Return(w, ret) => TaskPlaced(t, st, w, ret);
    case _ =>
  }

  lemma TaskPlaced(t: Tree, st: State, w: nat, ret: int)
    requires Placed(t, st) && w in st.workers && |st.paused| == 2
    ensures Placed(t, Start(st, w)) && Placed(t, Finish(st, w, ret))
  {
    hide FreeBuffer, Release;
    var b := st.workers[w].task.buf;
    ReleasePlaced(t, st, w, b);
    ReleaseSame(st, w, b);
    FreeSame(st, b);
    FreeSame(Release(st, w, b), b);
  }

  lemma {:induction false} RunPlaced(t: Tree, n: nat, trace: seq<State>, steps: seq<Step>, k: nat)
    requires TreeOk(t, n) && Run(t, trace, steps) && k < |trace|
    ensures Placed(t, trace[k])
  {
    if k > 0 {
      hide TreeOk, Placed, Apply, Legal;
      RunPlaced(t, n, trace, steps, k - 1);
      assert Taken(t, trace[k - 1], steps[k - 1], trace[k - 1 + 1]);
      StepPlaced(t, n, trace[k - 1], steps[k - 1]);
    } else {
      assert Placed(t, Init);
    }
  }

  // ----- Routes -----

  /** One task joins the queue at its end, and nothing leaves the chain. */
  predicate Joins(st: State, st': State, mod: nat, src: int, dir: nat, b: nat)
  {
    && |st'.queue| == |st.queue| + 1 && st'.queue[..|st.queue|] == st.queue && st'.exits == st.exits
    && var x := st'.queue[|st.queue|];
    && x.mod == mod && x.src == src && x.dir == dir && x.buf == b
  }

  /** The output leads to a module copy and not out of the chain. */
  predicate Inside(t: Tree, n: nat, v: nat, dst: int)
    requires v < |t.nodes|
  {
    var x := t.nodes[v];
    if dst == 0 then x.cfg > 0 else 1 <= dst < |x.near| && x.cfg + 1 < n
  }

  /** Copy `u` is where output `dst` of copy `v` leads: one module on towards the wire, at the end of this very
      link, or one module back towards the entry. */
  predicate Follows(t: Tree, v: nat, dst: int, u: nat)
    requires v < |t.nodes|
  {
    && u < |t.nodes|
    && if dst == 0 then t.nodes[u].cfg + 1 == t.nodes[v].cfg && t.nodes[v].slot < |t.nodes[u].near|
                        && t.nodes[u].near[t.nodes[v].slot] == v
       else t.nodes[u].cfg == t.nodes[v].cfg + 1 && t.nodes[u].slot == dst && t.nodes[u].near != []
            && t.nodes[u].near[0] == v
  }

  /** What a write to output `dst` by copy `v` does. Towards the wire packets run in direction 0, towards the
      entry in direction 1. */
  ghost predicate Routed(t: Tree, n: nat, st: State, st': State, v: nat, dst: int, b: nat, src: int)
    requires v < |t.nodes|
  {
    if Inside(t, n, v, dst) then
      if st.alive then exists u :: Follows(t, v, dst, u) && Joins(st, st', u, src, if dst == 0 then 1 else 0, b)
      else st'.queue == st.queue && st'.exits == st.exits
    else
      && st'.queue == st.queue
      && exists port :: st'.exits == st.exits + [Exit(port, b)] && (dst == 0 ==> port == 0) &&
                        (dst != 0 ==> if t.nodes[v].cfg + 1 == n then 1 <= port < |t.wire| && t.wire[port] == v
                                      else port == if v == 0 then 0 else -1)
  }

  lemma LinkFollows(t: Tree, n: nat, v: nat, dst: int)
    requires TreeOk(t, n) && v < |t.nodes|
    ensures Inside(t, n, v, dst) <==> Neighbour(t, v, dst) >= 0
    ensures Inside(t, n, v, dst) ==> Follows(t, v, dst, Neighbour(t, v, dst))
  {
    assert BackOk(t, n, v) && ForwardOk(t, n, v);
    var u := Neighbour(t, v, dst);
    if u >= 0 {
      assert BackOk(t, n, u);
    }
  }

  lemma ExitOwn(t: Tree, n: nat, v: nat, dst: int)
    requires TreeOk(t, n) && v < |t.nodes| && dst != 0
    ensures if t.nodes[v].cfg + 1 == n then 1 <= ExitPort(t, v, dst) < |t.wire| && t.wire[ExitPort(t, v, dst)] == v
            else ExitPort(t, v, dst) == if v == 0 then 0 else -1
  {
    assert PortsOk(t, n) && BackOk(t, n, v);
  }

  lemma WriteRouted(t: Tree, n: nat, st: State, v: nat, dst: int, b: nat, src: int)
    requires TreeOk(t, n) && |st.paused| == 2 && v < |t.nodes|
    ensures Routed(t, n, st, WritePacket(t, st, v, dst, b, src), v, dst, b, src)
  {
    hide TreeOk, Neighbour, Follows, Inside, ExitPort;
    LinkFollows(t, n, v, dst);
    var st' := WritePacket(t, st, v, dst, b, src);
    if Inside(t, n, v, dst) {
      if st.alive {
        assert Joins(st, st', Neighbour(t, v, dst), src, if dst == 0 then 1 else 0, b);
      }
    } else {
      if dst != 0 {
        ExitOwn(t, n, v, dst);
      }
      PortOfEntry(t, v);
      assert st'.exits == st.exits + [Exit(ExitPort(t, v, dst), b)];
    }
  }

  lemma PortOfEntry(t: Tree, v: nat)
    ensures ExitPort(t, v, 0) == 0
  {
  }

  lemma SameRoute(t: Tree, n: nat, st0: State, st: State, st': State, v: nat, dst: int, b: nat, src: int)
    requires v < |t.nodes| && Routed(t, n, st, st', v, dst, b, src)
    requires st0.queue == st.queue && st0.exits == st.exits && st0.alive == st.alive
    ensures Routed(t, n, st0, st', v, dst, b, src)
  {
    hide Follows, Inside;
    if Inside(t, n, v, dst) && st.alive {
      var u :| Follows(t, v, dst, u) && Joins(st, st', u, src, if dst == 0 then 1 else 0, b);
      assert Joins(st0, st', u, src, if dst == 0 then 1 else 0, b);
    }
  }

  /** In every run on a finished chain, whatever a worker writes goes one module on in direction 0 or one module
      back in direction 1, as one task with this buffer and this source; or it leaves by the port of its own
      copy, or at the entry. */
  lemma WriteRoutes(t: Tree, n: nat, trace: seq<State>, steps: seq<Step>, k: nat)
    requires TreeOk(t, n) && Run(t, trace, steps) && k < |steps| && steps[k].Write?
    ensures var a := steps[k];
            && a.w in trace[k].workers && trace[k].workers[a.w].task.mod < |t.nodes|
            && Routed(t, n, trace[k], trace[k + 1], trace[k].workers[a.w].task.mod, a.dst, a.b, a.src)
  {
    hide TreeOk, WritePacket, Routed, Free;
    RunPlaced(t, n, trace, steps, k);
    var st, a := trace[k], steps[k];
    assert Taken(t, st, a, trace[k + 1]);
    var st1 := Release(st, a.w, a.b);
    WriteRouted(t, n, st1, st.workers[a.w].task.mod, a.dst, a.b, a.src);
    SameRoute(t, n, st, st1, trace[k + 1], st.workers[a.w].task.mod, a.dst, a.b, a.src);
  }

  /** The same for what a module sends from its store on a heartbeat. */
  lemma TickRoutes(t: Tree, n: nat, trace: seq<State>, steps: seq<Step>, k: nat)
    requires TreeOk(t, n) && Run(t, trace, steps) && k < |steps| && steps[k].Tick?
    ensures var a := steps[k];
            && a.p.mod < |t.nodes|
            && Routed(t, n, trace[k], trace[k + 1], a.p.mod, a.dst, a.b, a.src)
  {
    hide TreeOk, WritePacket, Routed, Free;
    RunPlaced(t, n, trace, steps, k);
    var st, a := trace[k], steps[k];
    assert Taken(t, st, a, trace[k + 1]);
    var st1 := LeaveStore(st, a.p, a.b);
    WriteRouted(t, n, st1, a.p.mod, a.dst, a.b, a.src);
    SameRoute(t, n, st, st1, trace[k + 1], a.p.mod, a.dst, a.b, a.src);
  }

  /** Where packets enter: in direction 0 at the copy of the first module, in direction 1 at the copy of the last
      module that owns the connection's port, if there is one. A chain that is cancelled or has lost its owner
      only frees them. */
  lemma PushRoutes(t: Tree, n: nat, trace: seq<State>, steps: seq<Step>, k: nat)
    requires TreeOk(t, n) && Run(t, trace, steps) && k < |steps| && steps[k].Push?
    ensures var a := steps[k]; var st, st' := trace[k], trace[k + 1];
            if st.cancelled || !st.alive || (a.dir != 0 && !(1 <= a.src < |t.wire|)) then
              st'.queue == st.queue && st'.exits == st.exits && st'.freed == st.freed + [a.b]
            else
              exists v: nat ::
                && v < |t.nodes| && Joins(st, st', v, a.src, a.dir, a.b)
                && (a.dir == 0 ==> t.nodes[v].cfg == 0)
                && (a.dir != 0 ==> t.nodes[v].cfg + 1 == n && t.nodes[v].wireDst == a.src)
  {
    var st, a := trace[k], steps[k];
    assert Taken(t, st, a, trace[k + 1]);
    assert BackOk(t, n, 0) && PortsOk(t, n);
    hide TreeOk;
    if !st.cancelled && st.alive {
      if a.dir == 0 {
        assert Joins(st, trace[k + 1], 0, a.src, a.dir, a.b);
      } else if 1 <= a.src < |t.wire| {
        assert Joins(st, trace[k + 1], t.wire[a.src], a.src, a.dir, a.b);
      }
    }
  }

  /** A chain without modules is transparent: what is pushed from the side of the entry leaves by port 1, what is
      pushed from the wire leaves at the entry, in the order of the calls, and nothing is ever queued. */
  lemma EmptyChainPasses(t: Tree, trace: seq<State>, steps: seq<Step>, k: nat)
    requires t.nodes == [] && Run(t, trace, steps) && k < |steps| && steps[k].Push? && !trace[k].cancelled
    ensures var a := steps[k];
            && trace[k + 1].queue == trace[k].queue && trace[k + 1].freed == trace[k].freed + [a.b]
            && trace[k + 1].exits == trace[k].exits + [Exit(if a.dir == 0 then 1 else 0, a.b)]
  {
    assert Taken(t, trace[k], steps[k], trace[k + 1]);
  }

  // ----- The order in which tasks are taken up -----

  predicate Queue(st: State)
  {
    && (forall i :: 0 <= i < |st.queue| ==> st.queue[i].id < st.tasks)
    && (forall i, j :: 0 <= i < j < |st.queue| ==> st.queue[i].id < st.queue[j].id)
  }

  /** The queue only loses its front and gains newer tasks. */
  ghost predicate Moves(st: State, st': State)
  {
    && st.tasks <= st'.tasks
    && (st'.queue == st.queue || (st.queue != [] && st'.queue == st.queue[1..])
        || (exists x: Task :: x.id == st.tasks < st'.tasks && st'.queue == st.queue + [x]))
  }

  lemma EnqueueMoves(st: State, mod: nat, b: nat, src: int, dir: nat)
    requires |st.paused| == 2
    ensures var r := EnqueueModule(st, mod, b, src, dir); Moves(st, r) && r.workers == st.workers
  {
    hide FreeBuffer;
    FreeSame(st, b);
    var r := EnqueueModule(st, mod, b, src, dir);
    if st.alive {
      assert r.queue == st.queue + [Task(st.tasks, mod, src, dir, b)];
    }
  }

  lemma LeaveMoves(st: State, port: int, b: nat)
    requires |st.paused| == 2
    ensures var r := Leave(st, port, b); Moves(st, r) && r.workers == st.workers
  {
    hide FreeBuffer;
    FreeSame(st.(exits := st.exits + [Exit(port, b)]), b);
  }

  lemma WriteMoves(t: Tree, st: State, mod: nat, dst: int, b: nat, src: int)
    requires |st.paused| == 2
    ensures var r := WritePacket(t, st, mod, dst, b, src); Moves(st, r) && r.workers == st.workers
  {
    hide EnqueueModule, Leave, Moves;
    if Neighbour(t, mod, dst) >= 0 {
      EnqueueMoves(st, Neighbour(t, mod, dst), b, src, if dst == 0 then 1 else 0);
    } else {
      LeaveMoves(st, ExitPort(t, mod, dst), b);
    }
  }

  lemma PushMoves(t: Tree, st: State, b: nat, src: int, dir: nat)
    requires |st.paused| == 2 && EntriesOk(t) && PushSafe(t, st, src, dir)
    ensures var r := PushPacket(t, st, b, src, dir); Moves(st, r) && r.workers == st.workers
  {
    assert forall r: State :: r.queue == st.queue && r.tasks == st.tasks ==> Moves(st, r);
    hide EnqueueModule, Leave, Moves, FreeBuffer;
    FreeSame(st, b);
    LeaveMoves(st, if dir == 0 then 1 else 0, b);
    EnqueueMoves(st, 0, b, src, dir);
    if 1 <= src < |t.wire| {
      EnqueueMoves(st, t.wire[src], b, src, dir);
    }
  }

  /** The start and the end of a task leave the queue as it is. */
  lemma TaskSame(st: State, w: nat, ret: int)
    requires w in st.workers && |st.paused| == 2
    ensures Start(st, w).queue == st.queue && Start(st, w).tasks == st.tasks
    ensures Finish(st, w, ret).queue == st.queue && Finish(st, w, ret).tasks == st.tasks
  {
    hide FreeBuffer, Release;
    var b := st.workers[w].task.buf;
    ReleaseSame(st, w, b);
    FreeSame(st, b);
    FreeSame(Release(st, w, b), b);
  }

  lemma StepMoves(t: Tree, st: State, a: Step)
    requires |st.paused| == 2 && EntriesOk(t) && Legal(st, a)
    ensures Moves(st, Apply(t, st, a))
    ensures a.PopTask? ==> st.queue != [] && Apply(t, st, a).queue == st.queue[1..] &&
                           a.w in Apply(t, st, a).workers && Apply(t, st, a).workers[a.w].task == st.queue[0]
  {
    hide Free, FreeBuffer, AllocBuffer, Release, WritePacket, PushPacket, Start, Finish;
    match a
    case Push(b, src, dir) => PushMoves(t, LeaveOutside(st, b), b, src, dir);
    case Write(w, dst, b, src) =>
      ReleaseSame(st, w, b);
      WriteMoves(t, Release(st, w, b), st.workers[w].task.mod, dst, b, src);
    case Tick(p, dst, b, src) => WriteMoves(t, LeaveStore(st, p, b), p.mod, dst, b, src);
    case StartTask(w) => TaskSame(st, w, 0);
    case Return(w, ret) => TaskSame(st, w, ret);
    case Allocate(size) => AllocSame(st, size);
    case Malloc(w, size) => AllocSame(st, size);
    case Discard(b) => FreeSame(LeaveOutside(st, b), b);
    case FreeOne(w, b) =>
      ReleaseSame(st, w, b);
      FreeSame(Release(st, w, b), b);
    case Keep(w, b) => ReleaseSame(st, w, b);
    case _ =>
  }

  lemma MovesQueue(st: State, st': State)
    requires Moves(st, st') && Queue(st)
    ensures Queue(st')
  {
  }

  lemma {:induction false} RunQueue(t: Tree, trace: seq<State>, steps: seq<Step>, k: nat)
    requires Run(t, trace, steps) && k < |trace|
    ensures Queue(trace[k])
  {
    hide Moves, Apply, Legal, EntriesOk;
    if k > 0 {
      RunQueue(t, trace, steps, k - 1);
      assert Taken(t, trace[k - 1], steps[k - 1], trace[k - 1 + 1]);
      hide Queue;
      StepMoves(t, trace[k - 1], steps[k - 1]);
      MovesQueue(trace[k - 1], trace[k]);
    }
  }

  predicate AllNewer(st: State, id: nat)
  {
    id < st.tasks && forall i :: 0 <= i < |st.queue| ==> id < st.queue[i].id
  }

  lemma MovesNewer(st: State, st': State, id: nat)
    requires Moves(st, st') && AllNewer(st, id)
    ensures AllNewer(st', id)
  {
  }

  lemma {:induction false} StayNewer(t: Tree, trace: seq<State>, steps: seq<Step>, k: nat, m: nat, id: nat)
    requires Run(t, trace, steps) && k <= m < |trace| && AllNewer(trace[k], id)
    ensures AllNewer(trace[m], id)
    decreases m
  {
    hide AllNewer, Moves, Apply, Legal, EntriesOk;
    if k < m {
      StayNewer(t, trace, steps, k, m - 1, id);
      assert Taken(t, trace[m - 1], steps[m - 1], trace[m - 1 + 1]);
      StepMoves(t, trace[m - 1], steps[m - 1]);
      MovesNewer(trace[m - 1], trace[m], id);
    }
  }

  /** Tasks are taken up in the order in which they were queued. */
  lemma FirstInFirstOut(t: Tree, trace: seq<State>, steps: seq<Step>, k: nat, m: nat)
    requires Run(t, trace, steps) && k < m < |steps| && steps[k].PopTask? && steps[m].PopTask?
    ensures steps[k].w in trace[k + 1].workers && steps[m].w in trace[m + 1].workers
    ensures trace[k + 1].workers[steps[k].w].task.id < trace[m + 1].workers[steps[m].w].task.id
  {
    hide Moves, Apply, Legal;
    RunQueue(t, trace, steps, k);
    assert Taken(t, trace[k], steps[k], trace[k + 1]);
    assert Taken(t, trace[m], steps[m], trace[m + 1]);
    StepMoves(t, trace[k], steps[k]);
    StepMoves(t, trace[m], steps[m]);
    var id := trace[k].queue[0].id;
    assert AllNewer(trace[k + 1], id) by {
      assert Queue(trace[k]) && trace[k + 1].queue == trace[k].queue[1..];
      hide Run;
      TasksGrow(t, trace[k], steps[k]);
    }
    StayNewer(t, trace, steps, k + 1, m, id);
  }

  lemma TasksGrow(t: Tree, st: State, a: Step)
    requires |st.paused| == 2 && EntriesOk(t) && Legal(st, a)
    ensures st.tasks <= Apply(t, st, a).tasks
  {
    hide Apply, Legal;
    StepMoves(t, st, a);
  }

  // ----- The locks -----

  /** Two workers that run modules are at different modules or in different directions. */
  predicate Exclusive(m: map<nat, Worker>)
  {
    forall v, w :: v in m && w in m && v != w && m[v].started && m[w].started ==>
      m[v].task.mod != m[w].task.mod || m[v].task.dir != m[w].task.dir
  }

  /** A step changes at most one worker, and only `StartTask` starts one. */
  lemma StepWorkers(t: Tree, st: State, a: Step, v: nat)
    requires |st.paused| == 2 && EntriesOk(t) && Legal(st, a) && v in Apply(t, st, a).workers
    ensures var x := Apply(t, st, a).workers[v];
            x.started ==> v in st.workers && st.workers[v].task == x.task &&
                          (st.workers[v].started || a == StartTask(v))
  {
    hide Free, FreeBuffer, AllocBuffer, Release, WritePacket, PushPacket, Start, Finish, Moves;
    match a
    case Push(b, src, dir) => PushMoves(t, LeaveOutside(st, b), b, src, dir);
    case Write(w, dst, b, src) =>
      ReleaseSame(st, w, b);
      WriteMoves(t, Release(st, w, b), st.workers[w].task.mod, dst, b, src);
    case Tick(p, dst, b, src) => WriteMoves(t, LeaveStore(st, p, b), p.mod, dst, b, src);
    case StartTask(w) => TaskWorkers(st, w, 0);
    case Return(w, ret) => TaskWorkers(st, w, ret);
    case Allocate(size) => AllocSame(st, size);
    case Malloc(w, size) => AllocSame(st, size);
    case Discard(b) => FreeSame(LeaveOutside(st, b), b);
    case FreeOne(w, b) =>
      ReleaseSame(st, w, b);
      FreeSame(Release(st, w, b), b);
    case Keep(w, b) => ReleaseSame(st, w, b);
    case _ =>
  }

  lemma StepExclusive(t: Tree, st: State, a: Step)
    requires |st.paused| == 2 && EntriesOk(t) && Legal(st, a) && Exclusive(st.workers)
    ensures Exclusive(Apply(t, st, a).workers)
  {
    var m := Apply(t, st, a).workers;
    assert a.StartTask? ==> a.w in st.workers && Free(st, a.w);
    hide Apply, Legal;
    forall v, w | v in m && w in m && v != w && m[v].started && m[w].started
      ensures m[v].task.mod != m[w].task.mod || m[v].task.dir != m[w].task.dir
    {
      StepWorkers(t, st, a, v);
      StepWorkers(t, st, a, w);
    }
  }

  /** In every run, for any number of workers: a module is never run by two workers at once in one direction. */
  lemma {:induction false} RunExclusive(t: Tree, trace: seq<State>, steps: seq<Step>, k: nat)
    requires Run(t, trace, steps) && k < |trace|
    ensures Exclusive(trace[k].workers)
  {
    if k > 0 {
      hide Exclusive, Apply, Legal;
      RunExclusive(t, trace, steps, k - 1);
      assert Taken(t, trace[k - 1], steps[k - 1], trace[k - 1 + 1]);
      StepExclusive(t, trace[k - 1], steps[k - 1]);
    }
  }

  /** A cancelled chain starts no module any more: a task that is taken up ends and its packet is freed. */
  lemma CancelledStartsNone(t: Tree, trace: seq<State>, steps: seq<Step>, k: nat)
    requires Run(t, trace, steps) && k < |steps| && steps[k].StartTask? && trace[k].cancelled
    ensures var w := steps[k].w;
            && trace[k + 1].cancelled && w in trace[k].workers && w !in trace[k + 1].workers
            && trace[k + 1].freed == trace[k].freed + [trace[k].workers[w].task.buf]
  {
    assert Taken(t, trace[k], steps[k], trace[k + 1]);
    hide Total, Free;
  }

  // ----- Backpressure -----

  /** The flags after a step: on above the high mark, off at or below the low one, and as before in between. */
  predicate Flagged(st: State, st': State)
    requires |st.paused| == 2
  {
    && |st'.paused| == 2 && st'.paused[0] == st'.paused[1]
    && (st'.bytes > HIGH ==> st'.paused[0])
    && (st'.bytes <= LOW ==> !st'.paused[0])
    && (LOW < st'.bytes <= HIGH ==> st'.paused[0] == st.paused[0])
  }

  lemma FreeFlags(st: State, b: nat)
    requires Pressure(st)
    ensures Flagged(st, FreeBuffer(st, b)) && Pressure(FreeBuffer(st, b))
  {
  }

  lemma AllocFlags(st: State, size: nat)
    requires Pressure(st)
    ensures Flagged(st, AllocBuffer(st, size)) && Pressure(AllocBuffer(st, size))
  {
  }

  lemma LeaveFlags(st: State, port: int, b: nat)
    requires Pressure(st)
    ensures Flagged(st, Leave(st, port, b))
  {
    hide FreeBuffer;
    FreeFlags(st.(exits := st.exits + [Exit(port, b)]), b);
  }

  lemma WriteFlags(t: Tree, st: State, mod: nat, dst: int, b: nat, src: int)
    requires Pressure(st)
    ensures Flagged(st, WritePacket(t, st, mod, dst, b, src))
  {
    hide FreeBuffer, Leave, Neighbour, ExitPort;
    FreeFlags(st, b);
    LeaveFlags(st, ExitPort(t, mod, dst), b);
  }

  lemma PushFlags(t: Tree, st: State, b: nat, src: int, dir: nat)
    requires Pressure(st) && EntriesOk(t) && PushSafe(t, st, src, dir)
    ensures Flagged(st, PushPacket(t, st, b, src, dir))
  {
    hide FreeBuffer, Leave;
    FreeFlags(st, b);
    LeaveFlags(st, if dir == 0 then 1 else 0, b);
  }

  lemma TaskFlags(st: State, w: nat, ret: int)
    requires w in st.workers && Pressure(st)
    ensures Flagged(st, Start(st, w)) && Flagged(st, Finish(st, w, ret))
  {
    hide FreeBuffer, Release, TaskDone, Flagged, Pressure;
    var b := st.workers[w].task.buf;
    ReleaseSame(st, w, b);
    ReleaseFlags(st, w, b);
    FreeFlags(st, b);
    FreeSame(st, b);
    FreeSame(Release(st, w, b), b);
    DoneFlags(st, st, w);
    DoneFlags(st, FreeBuffer(st, b), w);
    DoneFlags(st, FreeBuffer(Release(st, w, b), b), w);
    SameFlags(st, Start(st, w));
  }

  lemma ReleaseFlags(st: State, w: nat, b: nat)
    requires w in st.workers && Pressure(st)
    ensures |Release(st, w, b).paused| == 2 && Flagged(st, FreeBuffer(Release(st, w, b), b)) && Flagged(st, st)
  {
    hide FreeBuffer, Release;
    ReleaseSame(st, w, b);
    FreeFlags(Release(st, w, b), b);
  }

  lemma DoneFlags(st: State, st': State, w: nat)
    requires |st.paused| == 2 && w in st'.workers && Flagged(st, st')
    ensures Flagged(st, TaskDone(st', w))
  {
  }

  lemma SameFlags(st: State, st': State)
    requires Pressure(st)
    ensures st'.bytes == st.bytes && st'.paused == st.paused ==> Flagged(st, st')
  {
  }

  lemma StepFlags(t: Tree, st: State, a: Step)
    requires Pressure(st) && EntriesOk(t) && Legal(st, a)
    ensures Flagged(st, Apply(t, st, a))
  {
    hide Free, FreeBuffer, AllocBuffer, Release, WritePacket, PushPacket, Start, Finish;
    match a
    case Push(b, src, dir) => PushFlags(t, LeaveOutside(st, b), b, src, dir);
    case Write(w, dst, b, src) =>
      ReleaseSame(st, w, b);
      WriteFlags(t, Release(st, w, b), st.workers[w].task.mod, dst, b, src);
    case Tick(p, dst, b, src) => WriteFlags(t, LeaveStore(st, p, b), p.mod, dst, b, src);
    case StartTask(w) => TaskFlags(st, w, 0);
    case Return(w, ret) => TaskFlags(st, w, ret);
    case Allocate(size) => AllocFlags(st, size);
    case Malloc(w, size) => AllocFlags(st, size);
    case Discard(b) => FreeFlags(LeaveOutside(st, b), b);
    case FreeOne(w, b) =>
      ReleaseSame(st, w, b);
      FreeFlags(Release(st, w, b), b);
    case Keep(w, b) => ReleaseSame(st, w, b);
    case _ =>
  }

  /** The count has been above the high mark, and above the low one ever since. */
  ghost predicate Congested(trace: seq<State>, n: nat)
    requires n < |trace|
  {
    exists k: nat :: k <= n && trace[k].bytes > HIGH && forall j: nat :: k <= j <= n ==> trace[j].bytes > LOW
  }

  lemma CongestedStep(trace: seq<State>, n: nat)
    requires 0 < n < |trace|
    ensures trace[n].bytes > HIGH ==> Congested(trace, n)
    ensures trace[n].bytes <= LOW ==> !Congested(trace, n)
    ensures LOW < trace[n].bytes <= HIGH ==> (Congested(trace, n) <==> Congested(trace, n - 1))
  {
    if LOW < trace[n].bytes <= HIGH && Congested(trace, n - 1) {
      var k: nat :| k <= n - 1 && trace[k].bytes > HIGH && forall j: nat :: k <= j <= n - 1 ==> trace[j].bytes > LOW;
      assert forall j: nat :: k <= j <= n ==> trace[j].bytes > LOW;
    }
  }

  lemma NotYetCongested(trace: seq<State>)
    requires |trace| > 0 && trace[0].bytes <= HIGH
    ensures !Congested(trace, 0)
  {
  }

  lemma RunPressure(t: Tree, trace: seq<State>, steps: seq<Step>, n: nat)
    requires Run(t, trace, steps) && n < |trace|
    ensures Pressure(trace[n])
  {
    RunInv(t, trace, steps, n);
    hide Run;
  }

  /** In every run a direction is paused if and only if the count has been above the high mark and has not come
      down to the low one since. */
  lemma {:induction false} PausedIff(t: Tree, trace: seq<State>, steps: seq<Step>, n: nat)
    requires Run(t, trace, steps) && n < |trace|
    ensures |trace[n].paused| == 2
    ensures forall dir :: 0 <= dir < 2 ==> (trace[n].paused[dir] <==> Congested(trace, n))
  {
    hide Inv, Tidy, Apply, Legal, EntriesOk, Congested;
    RunPressure(t, trace, steps, n);
    if n == 0 {
      NotYetCongested(trace);
    } else {
      PausedIff(t, trace, steps, n - 1);
      RunPressure(t, trace, steps, n - 1);
      assert Taken(t, trace[n - 1], steps[n - 1], trace[n - 1 + 1]);
      StepFlags(t, trace[n - 1], steps[n - 1]);
      CongestedStep(trace, n);
    }
  }
}
