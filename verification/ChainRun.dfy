/** Buffers, tasks and backpressure of a running `Chain` (core/chain.cpp) on its thread pool
    (core/thread_pool.cpp), for any number of workers and any interleaving of their calls into the chain. */
module ChainRun {
  import opened ChainTree

  const HIGH := 524288
  const LOW := 131072

  /** A queued call of a module. `id` is history: it numbers the tasks. */
  datatype Task = Task(id: nat, mod: nat, src: int, dir: nat, buf: nat)

  /** A worker between taking a task off the queue and `task_done`: whether it holds the direction lock of the
      module, and the buffers in its hands. */
  datatype Worker = Worker(task: Task, started: bool, held: set<nat>)

  /** A direction of a module; each has its own lock and its own store. */
  datatype Place = Place(mod: nat, dir: nat)

  /** A packet given to `wire_write`: the port it leaves by, 0 for the side of the entry, and its buffer. */
  datatype Exit = Exit(port: int, buf: nat)

  /** `live` gives the size of every buffer that is allocated and not yet freed, `exits` what was given to
      `wire_write`. `freed` is history, and so are the numbers that identify buffers and tasks, and `leaked`:
      buffers that nothing refers to any more. */
  datatype State = State(
    live: map<nat, nat>, next: nat, freed: seq<nat>,
    bytes: int, paused: seq<bool>,
    inflight: int, cancelled: bool, alive: bool,
    queue: seq<Task>, tasks: nat, workers: map<nat, Worker>,
    stores: map<Place, set<nat>>, outside: set<nat>, leaked: set<nat>, exits: seq<Exit>)

  const Init := State(map[], 0, [], 0, [false, false], 0, false, true, [], 0, map[], map[], {}, {}, [])

  // ----- Allocation -----

  /** One direction's flag after a look at the byte count. */
  function Flag(bytes: int, was: bool): bool
  {
    if bytes > HIGH && !was then true else if bytes <= LOW && was then false else was
  }

  function CheckBackpressure(st: State): State
    requires |st.paused| == 2
  {
    st.(paused := [Flag(st.bytes, st.paused[0]), Flag(st.bytes, st.paused[1])])
  }

  /** The new buffer is number `st.next`. */
  function AllocBuffer(st: State, size: nat): State
    requires |st.paused| == 2
  {
    CheckBackpressure(st.(live := st.live[st.next := size], next := st.next + 1, bytes := st.bytes + size))
  }

  /** Freeing a buffer that is not live any more is recorded too. */
  function FreeBuffer(st: State, b: nat): State
    requires |st.paused| == 2
  {
    var size := if b in st.live then st.live[b] else 0;
    CheckBackpressure(st.(live := st.live - {b}, freed := st.freed + [b], bytes := st.bytes - size))
  }

  // ----- Tasks -----

  function EnqueueModule(st: State, mod: nat, b: nat, src: int, dir: nat): State
    requires |st.paused| == 2
  {
    if !st.alive then FreeBuffer(st, b)
    else st.(inflight := st.inflight + 1, queue := st.queue + [Task(st.tasks, mod, src, dir, b)], tasks := st.tasks + 1)
  }

  predicate EntriesOk(t: Tree)
  {
    forall p :: 1 <= p < |t.wire| ==> 0 <= t.wire[p]
  }

  /** The packet is not sent to the null entry of port 0. */
  predicate PushSafe(t: Tree, st: State, src: int, dir: nat)
  {
    dir == 0 || src != 0 || t.wire == [] || t.nodes == [] || st.cancelled || !st.alive
  }

  /** The packet is given to `wire_write` and then freed. */
  function Leave(st: State, port: int, b: nat): State
    requires |st.paused| == 2
  {
    FreeBuffer(st.(exits := st.exits + [Exit(port, b)]), b)
  }

  /** Packets enter at the first module, or at the wire entry of the connection they came from. Without modules
      they go straight through. */
  function PushPacket(t: Tree, st: State, b: nat, src: int, dir: nat): State
    requires |st.paused| == 2 && EntriesOk(t) && PushSafe(t, st, src, dir)
  {
    if st.cancelled then FreeBuffer(st, b)
    else if t.nodes == [] then Leave(st, if dir == 0 then 1 else 0, b)
    else if !st.alive then FreeBuffer(st, b)
    else if dir == 0 then EnqueueModule(st, 0, b, src, dir)
    else if src < 0 || src >= |t.wire| then FreeBuffer(st, b)
    else EnqueueModule(st, t.wire[src], b, src, dir)
  }

  /** Where `write_packet` leads: to a neighbour, or out of the chain (None). */
  function Neighbour(t: Tree, mod: nat, dst: int): (r: int)
    ensures r >= -1
  {
    if mod < |t.nodes| && 0 <= dst < |t.nodes[mod].near| && t.nodes[mod].near[dst] >= 0
    then t.nodes[mod].near[dst] else -1
  }

  /** Where a packet leaves that module copy `mod` writes to an output without a neighbour. */
  function ExitPort(t: Tree, mod: nat, dst: int): int
  {
    if dst == 0 then 0 else if mod < |t.nodes| then t.nodes[mod].wireDst else -1
  }

  function WritePacket(t: Tree, st: State, mod: nat, dst: int, b: nat, src: int): State
    requires |st.paused| == 2
  {
    if Neighbour(t, mod, dst) >= 0 then EnqueueModule(st, Neighbour(t, mod, dst), b, src, if dst == 0 then 1 else 0)
    else Leave(st, ExitPort(t, mod, dst), b)
  }

  // ----- Whose buffer it is -----

  datatype Owner = Outside | Queued(id: nat) | Held(worker: nat) | Stored(place: Place) | Leaked

  function StoreOf(st: State, p: Place): set<nat>
  {
    if p in st.stores then st.stores[p] else {}
  }

  ghost predicate Owns(st: State, o: Owner, b: nat)
  {
    match o
    case Outside => b in st.outside
    case Queued(id) => exists i :: 0 <= i < |st.queue| && st.queue[i].id == id && st.queue[i].buf == b
    case Held(w) => w in st.workers && b in st.workers[w].held
    case Stored(p) => b in StoreOf(st, p)
    case Leaked => b in st.leaked
  }

  /** Every live buffer has exactly one owner, except those in `loose`, which have none; and nobody owns a
      buffer that is not live. */
  ghost predicate Owned(st: State, loose: set<nat>)
  {
    && (forall b, o :: Owns(st, o, b) ==> b in st.live && b !in loose)
    && (forall b :: b in st.live && b !in loose ==> exists o :: Owns(st, o, b))
    && (forall b, o, o' :: Owns(st, o, b) && Owns(st, o', b) ==> o == o')
    && (forall b :: b in loose ==> b in st.live)
  }

  predicate Tickets(st: State)
  {
    && (forall i :: 0 <= i < |st.queue| ==> st.queue[i].id < st.tasks)
    && (forall i, j :: 0 <= i < j < |st.queue| ==> st.queue[i].id != st.queue[j].id)
  }

  /** Every buffer ever allocated is live or freed once, never both. */
  ghost predicate Once(st: State)
  {
    && (forall b :: b in st.live ==> b < st.next)
    && (forall i :: 0 <= i < |st.freed| ==> st.freed[i] < st.next && st.freed[i] !in st.live)
    && (forall i, j :: 0 <= i < j < |st.freed| ==> st.freed[i] != st.freed[j])
    && (forall b: nat :: b < st.next && b !in st.live ==> b in st.freed)
  }

  /** The sizes of the live buffers with numbers below `n`. */
  function Total(live: map<nat, nat>, n: nat): nat
  {
    if n == 0 then 0 else Total(live, n - 1) + if n - 1 in live then live[n - 1] else 0
  }

  predicate Counted(st: State)
  {
    && st.bytes == Total(st.live, st.next)
    && st.inflight == |st.queue| + |st.workers|
  }

  /** Both directions are paused above the high mark and running below the low one. */
  predicate Pressure(st: State)
  {
    && |st.paused| == 2
    && st.paused[0] == st.paused[1]
    && (st.bytes <= LOW ==> !st.paused[0])
    && (st.bytes > HIGH ==> st.paused[0])
  }

  ghost predicate Inv(st: State, loose: set<nat>)
  {
    Owned(st, loose) && Tickets(st) && Once(st) && Counted(st) && Pressure(st)
  }

  // ----- Handing buffers over -----

  /** A buffer leaves the worker's hands, or the store of the module that the worker runs. */
  function Release(st: State, w: nat, b: nat): State
    requires w in st.workers
  {
    var x := st.workers[w];
    var p := Place(x.task.mod, x.task.dir);
    if b in x.held then st.(workers := st.workers[w := x.(held := x.held - {b})])
    else st.(stores := st.stores[p := StoreOf(st, p) - {b}])
  }

  predicate InHand(st: State, w: nat, b: nat)
  {
    && w in st.workers
    && (b in st.workers[w].held || b in StoreOf(st, Place(st.workers[w].task.mod, st.workers[w].task.dir)))
  }

  function Hold(st: State, w: nat, b: nat): State
    requires w in st.workers
  {
    st.(workers := st.workers[w := st.workers[w].(held := st.workers[w].held + {b})])
  }

  function Store(st: State, p: Place, b: nat): State
  {
    st.(stores := st.stores[p := StoreOf(st, p) + {b}])
  }

  // Ownership

  lemma ReleaseOwned(st: State, w: nat, b: nat)
    requires Owned(st, {}) && InHand(st, w, b)
    ensures Owned(Release(st, w, b), {b})
  {
    var st' := Release(st, w, b);
    var p := Place(st.workers[w].task.mod, st.workers[w].task.dir);
    var from := if b in st.workers[w].held then Held(w) else Stored(p);
    assert Owns(st, from, b);
    forall c, o
      ensures Owns(st', o, c) <==> Owns(st, o, c) && c != b
    {
      assert o != from && c == b ==> !Owns(st, o, c);
    }
    hide Owns, Release, StoreOf;
    OwnedBy(st, st', {}, {b});
  }

  /** Ownership after a change that leaves the owners of all buffers but those in `loose'` as they were. */
  lemma OwnedBy(st: State, st': State, loose: set<nat>, loose': set<nat>)
    requires Owned(st, loose) && loose <= loose' && st'.live == st.live && forall b :: b in loose' ==> b in st.live
    requires forall c, o :: Owns(st', o, c) <==> Owns(st, o, c) && c !in loose'
    ensures Owned(st', loose')
  {
    hide Owns;
    forall b | b in st'.live && b !in loose'
      ensures exists o :: Owns(st', o, b)
    {
      var o :| Owns(st, o, b);
      assert Owns(st', o, b);
    }
  }

  /** Ownership after giving the loose buffer `b` to `to`. */
  lemma OwnedTo(st: State, st': State, b: nat, to: Owner)
    requires Owned(st, {b}) && st'.live == st.live
    requires forall c, o :: Owns(st', o, c) <==> Owns(st, o, c) || (c == b && o == to)
    ensures Owned(st', {})
  {
    hide Owns;
    forall c | c in st'.live
      ensures exists o :: Owns(st', o, c)
    {
      if c == b {
        assert Owns(st', to, b);
      } else {
        var o :| Owns(st, o, c);
        assert Owns(st', o, c);
      }
    }
  }

  lemma HoldOwned(st: State, w: nat, b: nat)
    requires Owned(st, {b}) && w in st.workers
    ensures Owned(Hold(st, w, b), {})
  {
    var st' := Hold(st, w, b);
    forall c, o
      ensures Owns(st', o, c) <==> Owns(st, o, c) || (c == b && o == Held(w))
    {
    }
    hide Owns, Hold;
    OwnedTo(st, st', b, Held(w));
  }

  lemma StoreOwned(st: State, p: Place, b: nat)
    requires Owned(st, {b})
    ensures Owned(Store(st, p, b), {})
  {
    var st' := Store(st, p, b);
    forall c, o
      ensures Owns(st', o, c) <==> Owns(st, o, c) || (c == b && o == Stored(p))
    {
    }
    hide Owns, Store;
    OwnedTo(st, st', b, Stored(p));
  }

  lemma FreeOwned(st: State, b: nat)
    requires Owned(st, {b}) && |st.paused| == 2
    ensures Owned(FreeBuffer(st, b), {})
  {
    var st' := FreeBuffer(st, b);
    assert st'.live == st.live - {b};
    forall c, o
      ensures Owns(st', o, c) <==> Owns(st, o, c)
    {
    }
    hide Owns, FreeBuffer;
    forall c | c in st'.live
      ensures exists o :: Owns(st', o, c)
    {
      var o :| Owns(st, o, c);
      assert Owns(st', o, c);
    }
  }

  lemma AllocOwned(st: State, size: nat)
    requires Owned(st, {}) && |st.paused| == 2 && st.next !in st.live
    ensures Owned(AllocBuffer(st, size), {st.next})
  {
    var st' := AllocBuffer(st, size);
    assert st'.live == st.live[st.next := size];
    forall c, o
      ensures Owns(st', o, c) <==> Owns(st, o, c)
    {
    }
    hide Owns, AllocBuffer;
    forall c | c in st'.live && c != st.next
      ensures exists o :: Owns(st', o, c)
    {
      var o :| Owns(st, o, c);
      assert Owns(st', o, c);
    }
  }

  lemma EnqueueOwned(st: State, mod: nat, b: nat, src: int, dir: nat)
    requires Owned(st, {b}) && |st.paused| == 2 && Tickets(st)
    ensures Owned(EnqueueModule(st, mod, b, src, dir), {})
  {
    if st.alive {
      var st' := EnqueueModule(st, mod, b, src, dir);
      forall c, o
        ensures Owns(st', o, c) <==> Owns(st, o, c) || (c == b && o == Queued(st.tasks))
      {
        if o.Queued? {
          QueuedMore(st, st', b, c, o.id);
        }
      }
      hide Owns, EnqueueModule;
      OwnedTo(st, st', b, Queued(st.tasks));
    } else {
      FreeOwned(st, b);
    }
  }

  lemma QueuedMore(st: State, st': State, b: nat, c: nat, id: nat)
    requires |st'.queue| == |st.queue| + 1 && st'.queue[..|st.queue|] == st.queue
    requires st'.queue[|st.queue|].buf == b && st'.queue[|st.queue|].id == st.tasks
    ensures Owns(st', Queued(id), c) <==> Owns(st, Queued(id), c) || (c == b && id == st.tasks)
  {
    if Owns(st, Queued(id), c) {
      var i :| 0 <= i < |st.queue| && st.queue[i].id == id && st.queue[i].buf == c;
      assert st'.queue[i] == st.queue[i];
    }
    if Owns(st', Queued(id), c) {
      var i :| 0 <= i < |st'.queue| && st'.queue[i].id == id && st'.queue[i].buf == c;
      assert i < |st.queue| ==> st.queue[i] == st'.queue[i];
    }
    assert st'.queue[|st.queue|].id == st.tasks;
  }

  // Counts and flags

  lemma {:induction false} TotalWithout(live: map<nat, nat>, b: nat, n: nat)
    requires b in live
    ensures Total(live - {b}, n) == Total(live, n) - if b < n then live[b] else 0
  {
    if n > 0 {
      TotalWithout(live, b, n - 1);
    }
  }

  lemma {:induction false} TotalWith(live: map<nat, nat>, b: nat, size: nat, n: nat)
    requires n <= b
    ensures Total(live[b := size], n) == Total(live, n)
  {
    if n > 0 {
      TotalWith(live, b, size, n - 1);
    }
  }

  lemma PressureAfter(st: State, bytes: int)
    requires |st.paused| == 2 && st.paused[0] == st.paused[1]
    ensures Pressure(CheckBackpressure(st.(bytes := bytes)))
  {
  }

  /** The parts of the state that only `alloc` and `free` look at. */
  ghost predicate Books(st: State)
  {
    Once(st) && st.bytes == Total(st.live, st.next) && Pressure(st)
  }

  lemma FreeBooks(st: State, b: nat)
    requires Books(st) && b in st.live
    ensures Books(FreeBuffer(st, b))
  {
    var st' := FreeBuffer(st, b);
    TotalWithout(st.live, b, st.next);
    PressureAfter(st, st.bytes - st.live[b]);
    assert st'.live == st.live - {b} && st'.freed == st.freed + [b] && st'.next == st.next;
    assert Pressure(st');
    hide Pressure, Total, FreeBuffer;
    FreedOnce(st, st', b);
  }

  lemma FreedOnce(st: State, st': State, b: nat)
    requires Once(st) && b in st.live && st'.live == st.live - {b} && st'.freed == st.freed + [b] && st'.next == st.next
    ensures Once(st')
  {
    forall c: nat | c < st'.next && c !in st'.live
      ensures c in st'.freed
    {
      if c == b {
        assert st'.freed[|st.freed|] == b;
      } else {
        var i :| 0 <= i < |st.freed| && st.freed[i] == c;
        assert st'.freed[i] == c;
      }
    }
  }

  lemma AllocBooks(st: State, size: nat)
    requires Books(st)
    ensures Books(AllocBuffer(st, size)) && st.next !in st.live
  {
    var st' := AllocBuffer(st, size);
    TotalWith(st.live, st.next, size, st.next);
    PressureAfter(st, st.bytes + size);
    assert st'.live == st.live[st.next := size] && st'.next == st.next + 1;
    assert Pressure(st');
    hide Pressure, AllocBuffer;
    assert Total(st'.live, st'.next) == Total(st'.live, st.next) + size;
  }

  // The whole invariant, one hand-over at a time

  lemma FreeKeeps(st: State, b: nat)
    requires Inv(st, {b})
    ensures Inv(FreeBuffer(st, b), {})
  {
    FreeOwned(st, b);
    FreeBooks(st, b);
    hide Owned, Once, Total;
  }

  lemma AllocKeeps(st: State, size: nat)
    requires Inv(st, {})
    ensures Inv(AllocBuffer(st, size), {st.next})
  {
    AllocBooks(st, size);
    AllocOwned(st, size);
    hide Owned, Once, Total;
  }

  lemma EnqueueKeeps(st: State, mod: nat, b: nat, src: int, dir: nat)
    requires Inv(st, {b})
    ensures Inv(EnqueueModule(st, mod, b, src, dir), {})
  {
    hide Owned, Total, FreeBuffer;
    if st.alive {
      EnqueueOwned(st, mod, b, src, dir);
    } else {
      FreeKeeps(st, b);
    }
  }

  lemma ReleaseKeeps(st: State, w: nat, b: nat)
    requires Inv(st, {}) && InHand(st, w, b)
    ensures Inv(Release(st, w, b), {b})
  {
    ReleaseOwned(st, w, b);
    hide Owned, Total;
    SameSize(st.workers, w, st.workers[w].(held := st.workers[w].held - {b}));
  }

  lemma SameSize<K, V>(m: map<K, V>, k: K, v: V)
    requires k in m
    ensures |m[k := v]| == |m|
  {
    assert m[k := v].Keys == m.Keys;
  }

  lemma HoldKeeps(st: State, w: nat, b: nat)
    requires Inv(st, {b}) && w in st.workers
    ensures Inv(Hold(st, w, b), {})
  {
    HoldOwned(st, w, b);
    hide Owned, Total;
    SameSize(st.workers, w, st.workers[w].(held := st.workers[w].held + {b}));
  }

  lemma StoreKeeps(st: State, p: Place, b: nat)
    requires Inv(st, {b})
    ensures Inv(Store(st, p, b), {})
  {
    StoreOwned(st, p, b);
    hide Owned, Total;
  }

  lemma LeaveKeeps(st: State, port: int, b: nat)
    requires Inv(st, {b})
    ensures Inv(Leave(st, port, b), {})
  {
    var st' := st.(exits := st.exits + [Exit(port, b)]);
    ExitOwned(st, st');
    assert Inv(st', {b}) by { hide Owned, Total; }
    hide Inv, FreeBuffer;
    FreeKeeps(st', b);
  }

  lemma ExitOwned(st: State, st': State)
    requires st' == st.(exits := st'.exits)
    ensures forall loose :: Owned(st, loose) ==> Owned(st', loose)
  {
    assert forall o, b :: Owns(st', o, b) <==> Owns(st, o, b);
    hide Owns;
    forall loose | Owned(st, loose)
      ensures Owned(st', loose)
    {
      forall b | b in st'.live && b !in loose
        ensures exists o :: Owns(st', o, b)
      {
        var o :| Owns(st, o, b);
        assert Owns(st', o, b);
      }
    }
  }

  lemma WriteKeeps(t: Tree, st: State, mod: nat, dst: int, b: nat, src: int)
    requires Inv(st, {b})
    ensures Inv(WritePacket(t, st, mod, dst, b, src), {})
  {
    if Neighbour(t, mod, dst) >= 0 {
      EnqueueKeeps(st, Neighbour(t, mod, dst), b, src, if dst == 0 then 1 else 0);
    } else {
      LeaveKeeps(st, ExitPort(t, mod, dst), b);
    }
  }

  lemma PushKeeps(t: Tree, st: State, b: nat, src: int, dir: nat)
    requires Inv(st, {b}) && EntriesOk(t) && PushSafe(t, st, src, dir)
    ensures Inv(PushPacket(t, st, b, src, dir), {})
  {
    hide Inv, EnqueueModule, FreeBuffer, Leave;
    FreeKeeps(st, b);
    LeaveKeeps(st, if dir == 0 then 1 else 0, b);
    EnqueueKeeps(st, 0, b, src, dir);
    if 1 <= src < |t.wire| {
      EnqueueKeeps(st, t.wire[src], b, src, dir);
    }
  }

  // ----- Workers -----

  /** The worker loop takes the oldest task. */
  function Pop(st: State, w: nat): State
    requires st.queue != []
  {
    st.(queue := st.queue[1..], workers := st.workers[w := Worker(st.queue[0], false, {st.queue[0].buf})])
  }

  lemma PopOwned(st: State, w: nat)
    requires Owned(st, {}) && Tickets(st) && st.queue != [] && w !in st.workers
    ensures Owned(Pop(st, w), {})
  {
    var st', front := Pop(st, w), st.queue[0];
    assert Owns(st, Queued(front.id), front.buf);
    forall c, o
      ensures Owns(st', o, c) <==> (Owns(st, o, c) && c != front.buf) || (c == front.buf && o == Held(w))
    {
      if o.Queued? {
        QueuedLess(st, st', c, o.id);
      }
      assert o != Queued(front.id) && c == front.buf ==> !Owns(st, o, c);
    }
    hide Owns, Pop;
    forall c | c in st'.live
      ensures exists o :: Owns(st', o, c)
    {
      if c == front.buf {
        assert Owns(st', Held(w), c);
      } else {
        var o :| Owns(st, o, c);
        assert Owns(st', o, c);
      }
    }
  }

  lemma QueuedLess(st: State, st': State, c: nat, id: nat)
    requires st.queue != [] && st'.queue == st.queue[1..] && Tickets(st)
    ensures Owns(st', Queued(id), c) <==> Owns(st, Queued(id), c) && id != st.queue[0].id
  {
    if Owns(st, Queued(id), c) && id != st.queue[0].id {
      var i :| 0 <= i < |st.queue| && st.queue[i].id == id && st.queue[i].buf == c;
      assert st'.queue[i - 1] == st.queue[i];
    }
    if Owns(st', Queued(id), c) {
      var i :| 0 <= i < |st'.queue| && st'.queue[i].id == id && st'.queue[i].buf == c;
      assert st.queue[i + 1] == st'.queue[i];
    }
  }

  lemma PopKeeps(st: State, w: nat)
    requires Inv(st, {}) && st.queue != [] && w !in st.workers
    ensures Inv(Pop(st, w), {})
  {
    PopOwned(st, w);
    hide Owned, Total;
    OneLarger(st.workers, w, Worker(st.queue[0], false, {st.queue[0].buf}));
  }

  lemma OneLarger<K, V>(m: map<K, V>, k: K, v: V)
    requires k !in m
    ensures |m[k := v]| == |m| + 1
  {
    assert m[k := v].Keys == m.Keys + {k};
  }

  lemma OneSmaller<K, V>(m: map<K, V>, k: K)
    requires k in m
    ensures |m - {k}| == |m| - 1
  {
    assert (m - {k}).Keys == m.Keys - {k};
  }

  /** The locks: of two workers that have started, one is at another module or direction. */
  predicate Free(st: State, w: nat)
    requires w in st.workers
  {
    forall v :: v in st.workers && v != w && st.workers[v].started ==>
      st.workers[v].task.mod != st.workers[w].task.mod || st.workers[v].task.dir != st.workers[w].task.dir
  }

  function TaskDone(st: State, w: nat): State
    requires w in st.workers
  {
    st.(inflight := st.inflight - 1, workers := st.workers - {w}, leaked := st.leaked + st.workers[w].held)
  }

  /** After the wait for the locks; a cancelled chain only frees the packet. */
  function Start(st: State, w: nat): State
    requires w in st.workers && |st.paused| == 2
  {
    var x := st.workers[w];
    if st.cancelled then TaskDone(FreeBuffer(Release(st, w, x.task.buf), x.task.buf), w)
    else st.(workers := st.workers[w := x.(started := true)])
  }

  /** After the module's `process` has returned `ret`. */
  function Finish(st: State, w: nat, ret: int): State
    requires w in st.workers && |st.paused| == 2
  {
    var b := st.workers[w].task.buf;
    if ret >= 0 then TaskDone(st, w)
    else TaskDone(FreeBuffer(if b in st.workers[w].held then Release(st, w, b) else st, b), w)
  }

  lemma DoneKeeps(st: State, w: nat)
    requires Inv(st, {}) && w in st.workers
    ensures Inv(TaskDone(st, w), {})
  {
    DoneOwned(st, w);
    hide Owned, Total;
    OneSmaller(st.workers, w);
  }

  lemma DoneOwned(st: State, w: nat)
    requires Owned(st, {}) && w in st.workers
    ensures Owned(TaskDone(st, w), {})
  {
    var st' := TaskDone(st, w);
    forall c, o
      ensures Owns(st', o, c) <==> (Owns(st, o, c) && o != Held(w)) || (o == Leaked && Owns(st, Held(w), c))
    {
    }
    hide Owns, TaskDone;
    forall c | c in st'.live
      ensures exists o :: Owns(st', o, c)
    {
      var o :| Owns(st, o, c);
      assert Owns(st', if o == Held(w) then Leaked else o, c);
    }
  }

  lemma StartKeeps(st: State, w: nat)
    requires Inv(st, {}) && w in st.workers && st.workers[w].task.buf in st.workers[w].held
    ensures Inv(Start(st, w), {})
  {
    var x := st.workers[w];
    var b := x.task.buf;
    if st.cancelled {
      ReleaseKeeps(st, w, b);
      FreeKeeps(Release(st, w, b), b);
      DoneKeeps(FreeBuffer(Release(st, w, b), b), w);
    } else {
      var st' := Start(st, w);
      assert st'.live == st.live;
      forall c, o
        ensures Owns(st', o, c) <==> Owns(st, o, c) && c !in {}
      {
      }
      SameSize(st.workers, w, x.(started := true));
      hide Owns, Total;
      OwnedBy(st, st', {}, {});
    }
  }

  lemma FinishKeeps(st: State, w: nat, ret: int)
    requires Inv(st, {}) && w in st.workers && (ret < 0 ==> st.workers[w].task.buf in st.workers[w].held)
    ensures Inv(Finish(st, w, ret), {})
  {
    var b := st.workers[w].task.buf;
    if ret >= 0 {
      DoneKeeps(st, w);
    } else {
      ReleaseKeeps(st, w, b);
      FreeKeeps(Release(st, w, b), b);
      DoneKeeps(FreeBuffer(Release(st, w, b), b), w);
    }
  }

  /** A module must not return a negative value once it has given its packet away: the packet would be freed
      a second time, or under its new owner's feet. That is the only way to break the books when returning. */
  lemma FinishIff(st: State, w: nat, ret: int)
    requires Inv(st, {}) && w in st.workers
    ensures Inv(Finish(st, w, ret), {}) <==> (ret < 0 ==> st.workers[w].task.buf in st.workers[w].held)
  {
    var b := st.workers[w].task.buf;
    if ret < 0 && b !in st.workers[w].held {
      var st' := Finish(st, w, ret);
      assert st'.freed == st.freed + [b] && st'.live == st.live - {b};
      if b in st.live {
        var o :| Owns(st, o, b);
        assert Owns(st', o, b);
      } else if b < st.next {
        var i :| 0 <= i < |st.freed| && st.freed[i] == b;
        assert st'.freed[i] == st'.freed[|st.freed|];
      } else {
        assert st'.freed[|st.freed|] == b;
      }
    } else {
      FinishKeeps(st, w, ret);
    }
  }

  // ----- Runs -----

  /** What can happen next: callers allocate, discard and push packets; workers take up tasks and act for the
      module they run; a heartbeat lets a module send from its store; the chain is cancelled or loses its
      owner. */
  datatype Step =
    | Allocate(size: nat)
    | Discard(b: nat)
    | Push(b: nat, src: int, dir: nat)
    | PopTask(w: nat)
    | StartTask(w: nat)
    | Malloc(w: nat, size: nat)
    | FreeOne(w: nat, b: nat)
    | Write(w: nat, dst: int, b: nat, src: int)
    | Keep(w: nat, b: nat)
    | Return(w: nat, ret: int)
    | Tick(p: Place, dst: int, b: nat, src: int)
    | Cancel
    | OwnerGone

  predicate Acting(st: State, w: nat)
  {
    w in st.workers && st.workers[w].started
  }

  /** What the locks, the callers and well-behaved modules guarantee. */
  predicate Legal(st: State, a: Step)
  {
    match a
    case Allocate(_) => true
    case Discard(b) => b in st.outside
    case Push(b, src, dir) => b in st.outside && (dir == 0 || src != 0)
    case PopTask(w) => st.queue != [] && w !in st.workers
    case StartTask(w) => w in st.workers && !st.workers[w].started && Free(st, w)
    case Malloc(w, _) => Acting(st, w)
    case FreeOne(w, b) => Acting(st, w) && InHand(st, w, b)
    case Write(w, _, b, _) => Acting(st, w) && InHand(st, w, b)
    case Keep(w, b) => Acting(st, w) && b in st.workers[w].held
    case Return(w, ret) => Acting(st, w) && (ret < 0 ==> st.workers[w].task.buf in st.workers[w].held)
    case Tick(p, _, b, _) => b in StoreOf(st, p)
    case Cancel => true
    case OwnerGone => true
  }

  function LeaveOutside(st: State, b: nat): State
  {
    st.(outside := st.outside - {b})
  }

  function LeaveStore(st: State, p: Place, b: nat): State
  {
    st.(stores := st.stores[p := StoreOf(st, p) - {b}])
  }

  function Apply(t: Tree, st: State, a: Step): State
    requires |st.paused| == 2 && EntriesOk(t) && Legal(st, a)
  {
    match a
    case Allocate(size) => AllocBuffer(st, size).(outside := st.outside + {st.next})
    case Discard(b) => FreeBuffer(LeaveOutside(st, b), b)
    case Push(b, src, dir) => PushPacket(t, LeaveOutside(st, b), b, src, dir)
    case PopTask(w) => Pop(st, w)
    case StartTask(w) => Start(st, w)
    case Malloc(w, size) => Hold(AllocBuffer(st, size), w, st.next)
    case FreeOne(w, b) => FreeBuffer(Release(st, w, b), b)
    case Write(w, dst, b, src) => WritePacket(t, Release(st, w, b), st.workers[w].task.mod, dst, b, src)
    case Keep(w, b) => Store(Release(st, w, b), Place(st.workers[w].task.mod, st.workers[w].task.dir), b)
    case Return(w, ret) => Finish(st, w, ret)
    case Tick(p, dst, b, src) => WritePacket(t, LeaveStore(st, p, b), p.mod, dst, b, src)
    case Cancel => st.(cancelled := true)
    case OwnerGone => st.(alive := false)
  }

  /** A worker that waits for the locks has its packet and nothing else. */
  predicate Tidy(st: State)
  {
    forall w :: w in st.workers && !st.workers[w].started ==> st.workers[w].held == {st.workers[w].task.buf}
  }

  lemma OutsideOwned(st: State, b: nat)
    requires Owned(st, {}) && b in st.outside
    ensures Owned(LeaveOutside(st, b), {b})
  {
    var st' := LeaveOutside(st, b);
    assert Owns(st, Outside, b);
    forall c, o
      ensures Owns(st', o, c) <==> Owns(st, o, c) && c !in {b}
    {
      assert o != Outside && c == b ==> !Owns(st, o, c);
    }
    hide Owns;
    OwnedBy(st, st', {}, {b});
  }

  lemma StoreLeft(st: State, p: Place, b: nat)
    requires Owned(st, {}) && b in StoreOf(st, p)
    ensures Owned(LeaveStore(st, p, b), {b})
  {
    var st' := LeaveStore(st, p, b);
    assert Owns(st, Stored(p), b);
    forall c, o
      ensures Owns(st', o, c) <==> Owns(st, o, c) && c !in {b}
    {
      assert o != Stored(p) && c == b ==> !Owns(st, o, c);
    }
    hide Owns;
    OwnedBy(st, st', {}, {b});
  }

  lemma GiveOutside(st: State, b: nat)
    requires Owned(st, {b})
    ensures Owned(st.(outside := st.outside + {b}), {})
  {
    var st' := st.(outside := st.outside + {b});
    forall c, o
      ensures Owns(st', o, c) <==> Owns(st, o, c) || (c == b && o == Outside)
    {
    }
    hide Owns;
    OwnedTo(st, st', b, Outside);
  }

  lemma FlagsOwned(st: State, cancelled: bool, alive: bool)
    requires Owned(st, {})
    ensures Owned(st.(cancelled := cancelled, alive := alive), {})
  {
    var st' := st.(cancelled := cancelled, alive := alive);
    forall c, o
      ensures Owns(st', o, c) <==> Owns(st, o, c) && c !in {}
    {
    }
    hide Owns;
    OwnedBy(st, st', {}, {});
  }

  lemma OutsideKeeps(st: State, b: nat)
    requires Inv(st, {}) && b in st.outside
    ensures Inv(LeaveOutside(st, b), {b})
  {
    OutsideOwned(st, b);
    hide Owned, Total;
  }

  lemma LeaveStoreKeeps(st: State, p: Place, b: nat)
    requires Inv(st, {}) && b in StoreOf(st, p)
    ensures Inv(LeaveStore(st, p, b), {b})
  {
    StoreLeft(st, p, b);
    hide Owned, Total;
  }

  lemma AllocateKeeps(st: State, size: nat)
    requires Inv(st, {})
    ensures Inv(AllocBuffer(st, size).(outside := st.outside + {st.next}), {})
  {
    AllocKeeps(st, size);
    var s1 := AllocBuffer(st, size);
    GiveOutside(s1, st.next);
    assert s1.outside == st.outside;
    hide Owned, Total, AllocBuffer;
  }

  lemma MallocKeeps(st: State, w: nat, size: nat)
    requires Inv(st, {}) && w in st.workers
    ensures Inv(Hold(AllocBuffer(st, size), w, st.next), {})
  {
    AllocKeeps(st, size);
    HoldKeeps(AllocBuffer(st, size), w, st.next);
  }

  lemma FlagsKeep(st: State, cancelled: bool, alive: bool)
    requires Inv(st, {})
    ensures Inv(st.(cancelled := cancelled, alive := alive), {})
  {
    FlagsOwned(st, cancelled, alive);
    hide Owned, Total;
  }

  lemma StepInv(t: Tree, st: State, a: Step)
    requires Inv(st, {}) && Tidy(st) && EntriesOk(t) && Legal(st, a)
    ensures Inv(Apply(t, st, a), {})
  {
    assert Pressure(st);
    match a
    case Allocate(size) => AllocateKeeps(st, size);
    case Discard(b) =>
      OutsideKeeps(st, b);
      FreeKeeps(LeaveOutside(st, b), b);
    case Push(b, src, dir) =>
      OutsideKeeps(st, b);
      PushKeeps(t, LeaveOutside(st, b), b, src, dir);
    case PopTask(w) => PopKeeps(st, w);
    case StartTask(w) => StartKeeps(st, w);
    case Malloc(w, size) => MallocKeeps(st, w, size);
    case FreeOne(w, b) =>
      ReleaseKeeps(st, w, b);
      FreeKeeps(Release(st, w, b), b);
    case Write(w, dst, b, src) =>
      ReleaseKeeps(st, w, b);
      WriteKeeps(t, Release(st, w, b), st.workers[w].task.mod, dst, b, src);
    case Keep(w, b) =>
      ReleaseKeeps(st, w, b);
      StoreKeeps(Release(st, w, b), Place(st.workers[w].task.mod, st.workers[w].task.dir), b);
    case Return(w, ret) => FinishKeeps(st, w, ret);
    case Tick(p, dst, b, src) =>
      LeaveStoreKeeps(st, p, b);
      WriteKeeps(t, LeaveStore(st, p, b), p.mod, dst, b, src);
    case Cancel => FlagsKeep(st, true, st.alive);
    case OwnerGone => FlagsKeep(st, st.cancelled, false);
  }

  /** A module leaks what is still in its hands when it returns. */
  predicate Clean(st: State, a: Step)
  {
    a.Return? && a.w in st.workers ==> st.workers[a.w].held <= if a.ret < 0 then {st.workers[a.w].task.buf} else {}
  }

  lemma StepLeaks(t: Tree, st: State, a: Step)
    requires |st.paused| == 2 && EntriesOk(t) && Legal(st, a)
    ensures st.leaked <= Apply(t, st, a).leaked
    ensures Clean(st, a) && Tidy(st) ==> Apply(t, st, a).leaked == st.leaked
  {
    hide PushPacket, WritePacket, AllocBuffer, Hold, Store, Pop, LeaveStore, LeaveOutside, Total, Start, Finish;
    WriteLeaves(t, st, a);
    if a.StartTask? {
      StartLeaks(st, a.w);
    } else if a.Return? {
      ReturnLeaks(st, a.w, a.ret);
    }
  }

  lemma StartLeaks(st: State, w: nat)
    requires |st.paused| == 2 && w in st.workers && !st.workers[w].started
    ensures st.leaked <= Start(st, w).leaked && (Tidy(st) ==> Start(st, w).leaked == st.leaked)
  {
  }

  lemma ReturnLeaks(st: State, w: nat, ret: int)
    requires |st.paused| == 2 && w in st.workers && (ret < 0 ==> st.workers[w].task.buf in st.workers[w].held)
    ensures st.leaked <= Finish(st, w, ret).leaked
    ensures Clean(st, Return(w, ret)) ==> Finish(st, w, ret).leaked == st.leaked
  {
  }

  lemma WriteLeaves(t: Tree, st: State, a: Step)
    requires |st.paused| == 2 && EntriesOk(t) && Legal(st, a)
    ensures !a.StartTask? && !a.Return? ==> Apply(t, st, a).leaked == st.leaked
  {
    hide Total, Free, PushPacket, WritePacket;
    if a.Push? {
      PushLeaves(t, LeaveOutside(st, a.b), a.b, a.src, a.dir);
    } else if a.Write? {
      WriteAway(t, Release(st, a.w, a.b), st.workers[a.w].task.mod, a.dst, a.b, a.src);
    } else if a.Tick? {
      WriteAway(t, LeaveStore(st, a.p, a.b), a.p.mod, a.dst, a.b, a.src);
    }
  }

  lemma PushLeaves(t: Tree, st: State, b: nat, src: int, dir: nat)
    requires |st.paused| == 2 && EntriesOk(t) && PushSafe(t, st, src, dir)
    ensures PushPacket(t, st, b, src, dir).leaked == st.leaked && PushPacket(t, st, b, src, dir).workers == st.workers
  {
  }

  lemma WriteAway(t: Tree, st: State, mod: nat, dst: int, b: nat, src: int)
    requires |st.paused| == 2
    ensures WritePacket(t, st, mod, dst, b, src).leaked == st.leaked
    ensures WritePacket(t, st, mod, dst, b, src).workers == st.workers
    ensures WritePacket(t, st, mod, dst, b, src).stores == st.stores
  {
  }

  lemma StepTidy(t: Tree, st: State, a: Step)
    requires |st.paused| == 2 && EntriesOk(t) && Legal(st, a) && Tidy(st)
    ensures Tidy(Apply(t, st, a))
  {
    hide Total, Free, PushPacket, WritePacket, Tidy;
    if a.Push? {
      PushLeaves(t, LeaveOutside(st, a.b), a.b, a.src, a.dir);
      SameTidy(st, Apply(t, st, a));
    } else if a.Tick? {
      WriteAway(t, LeaveStore(st, a.p, a.b), a.p.mod, a.dst, a.b, a.src);
      SameTidy(st, Apply(t, st, a));
    } else if a.PopTask? || a.StartTask? || a.Return? {
      TaskTidy(t, st, a);
    } else if a.Malloc? || a.FreeOne? || a.Keep? || a.Write? {
      HandTidy(t, st, a);
    } else {
      SameTidy(st, Apply(t, st, a));
    }
  }

  lemma DropUpdated(m: map<nat, Worker>, w: nat, x: Worker)
    ensures m[w := x] - {w} == m - {w}
  {
  }

  lemma FreeWorkers(st: State, b: nat)
    requires |st.paused| == 2
    ensures FreeBuffer(st, b).workers == st.workers
  {
  }

  lemma ReleaseWorkers(st: State, w: nat, b: nat)
    requires w in st.workers
    ensures w in Release(st, w, b).workers && Release(st, w, b).workers == st.workers[w := Release(st, w, b).workers[w]]
    ensures Release(st, w, b).workers[w].started == st.workers[w].started
    ensures Release(st, w, b).paused == st.paused
  {
    var x := st.workers[w];
    assert st.workers[w := x] == st.workers;
  }

  lemma DoneWorkers(st: State, w: nat)
    requires w in st.workers
    ensures TaskDone(st, w).workers == st.workers - {w}
  {
  }

  /** A task that ends takes its worker with it; one that starts marks it. */
  lemma TaskWorkers(st: State, w: nat, ret: int)
    requires w in st.workers && |st.paused| == 2
    ensures Start(st, w).workers ==
            if st.cancelled then st.workers - {w} else st.workers[w := st.workers[w].(started := true)]
    ensures Finish(st, w, ret).workers == st.workers - {w}
  {
    var b := st.workers[w].task.buf;
    hide FreeBuffer, Release, TaskDone;
    ReleaseWorkers(st, w, b);
    DropUpdated(st.workers, w, Release(st, w, b).workers[w]);
    FreeWorkers(st, b);
    FreeWorkers(Release(st, w, b), b);
    DoneWorkers(st, w);
    DoneWorkers(FreeBuffer(st, b), w);
    DoneWorkers(FreeBuffer(Release(st, w, b), b), w);
  }

  lemma TaskTidy(t: Tree, st: State, a: Step)
    requires |st.paused| == 2 && EntriesOk(t) && Legal(st, a) && Tidy(st) && (a.PopTask? || a.StartTask? || a.Return?)
    ensures Tidy(Apply(t, st, a))
  {
    hide Total, Free, Tidy, Start, Finish;
    if !a.PopTask? {
      TaskWorkers(st, a.w, if a.Return? then a.ret else 0);
    }
    OwnTidy(st, Apply(t, st, a), a.w);
  }

  lemma HandTidy(t: Tree, st: State, a: Step)
    requires |st.paused| == 2 && EntriesOk(t) && Legal(st, a) && Tidy(st) &&
             (a.Malloc? || a.FreeOne? || a.Keep? || a.Write?)
    ensures Tidy(Apply(t, st, a))
  {
    hide Total, Free, Tidy, WritePacket, Release, FreeBuffer;
    if !a.Malloc? {
      ReleaseWorkers(st, a.w, a.b);
      FreeWorkers(Release(st, a.w, a.b), a.b);
    }
    if a.Write? {
      WriteAway(t, Release(st, a.w, a.b), st.workers[a.w].task.mod, a.dst, a.b, a.src);
    }
    OwnTidy(st, Apply(t, st, a), a.w);
  }

  lemma SameTidy(st: State, st': State)
    requires Tidy(st) && st'.workers == st.workers
    ensures Tidy(st')
  {
  }

  lemma OwnTidy(st: State, st': State, w: nat)
    requires Tidy(st)
    requires if w in st'.workers then st'.workers == st.workers[w := st'.workers[w]]
             else st'.workers == st.workers - {w}
    requires w in st'.workers && !st'.workers[w].started ==> st'.workers[w].held == {st'.workers[w].task.buf}
    ensures Tidy(st')
  {
  }

  /** The states along a run. */
  ghost predicate Run(t: Tree, trace: seq<State>, steps: seq<Step>)
  {
    && |trace| == |steps| + 1
    && trace[0] == Init
    && forall i :: 0 <= i < |steps| ==> Taken(t, trace[i], steps[i], trace[i + 1])
  }

  ghost predicate Taken(t: Tree, st: State, a: Step, st': State)
  {
    |st.paused| == 2 && EntriesOk(t) && Legal(st, a) && st' == Apply(t, st, a)
  }

  lemma InitInv()
    ensures Inv(Init, {}) && Tidy(Init)
  {
  }

  /** Ownership and accounting in every run: each live buffer has exactly one owner, none is freed twice, the
      byte count is the sizes of the live buffers, the inflight count is the queued and running tasks, and
      the pause flags follow the marks. */
  lemma {:induction false} RunInv(t: Tree, trace: seq<State>, steps: seq<Step>, n: nat)
    requires Run(t, trace, steps) && n < |trace|
    ensures Inv(trace[n], {}) && Tidy(trace[n])
  {
    if n == 0 {
      InitInv();
    } else {
      RunInv(t, trace, steps, n - 1);
      assert Taken(t, trace[n - 1], steps[n - 1], trace[n]);
      StepInv(t, trace[n - 1], steps[n - 1]);
      StepTidy(t, trace[n - 1], steps[n - 1]);
    }
  }

  /** If every module returns with empty hands nothing is ever leaked. */
  lemma {:induction false} RunClean(t: Tree, trace: seq<State>, steps: seq<Step>, n: nat)
    requires Run(t, trace, steps) && n < |trace|
    requires forall i :: 0 <= i < n ==> Clean(trace[i], steps[i])
    ensures trace[n].leaked == {}
  {
    if n == 0 {
      InitInv();
    } else {
      RunClean(t, trace, steps, n - 1);
      assert Taken(t, trace[n - 1], steps[n - 1], trace[n]);
      RunInv(t, trace, steps, n - 1);
      assert Clean(trace[n - 1], steps[n - 1]);
      StepLeaks(t, trace[n - 1], steps[n - 1]);
    }
  }

  // ----- What follows -----

  lemma {:induction false} TotalNone(n: nat)
    ensures Total(map[], n) == 0
  {
    if n > 0 {
      TotalNone(n - 1);
    }
  }

  /** `wait_drain` waits for exactly this: no task queued and none running. */
  lemma DrainedIff(st: State)
    requires Inv(st, {})
    ensures st.inflight == 0 <==> st.queue == [] && st.workers == map[]
  {
    assert |st.workers| == 0 <==> st.workers == map[];
  }

  /** Once nothing is queued, running, stored or in a caller's hands, every buffer ever allocated has been
      freed, exactly once, the count is zero and nothing is paused. */
  lemma Settled(st: State)
    requires Inv(st, {}) && st.queue == [] && st.workers == map[] && st.outside == {} && st.leaked == {}
    requires forall p :: p in st.stores ==> st.stores[p] == {}
    ensures st.live == map[] && st.bytes == 0 && !st.paused[0] && !st.paused[1]
    ensures forall b: nat :: b < st.next <==> b in st.freed
    ensures forall i, j :: 0 <= i < j < |st.freed| ==> st.freed[i] != st.freed[j]
  {
    assert forall o, b :: !Owns(st, o, b);
    assert st.live == map[];
    TotalNone(st.next);
  }

  /** What a module leaks stays allocated for ever. */
  lemma {:induction false} LeakedForEver(t: Tree, trace: seq<State>, steps: seq<Step>, m: nat, n: nat, b: nat)
    requires Run(t, trace, steps) && m <= n < |trace| && b in trace[m].leaked
    ensures b in trace[n].leaked && b in trace[n].live && b !in trace[n].freed
    decreases n
  {
    hide Inv, Apply;
    RunInv(t, trace, steps, n);
    if m < n {
      LeakedForEver(t, trace, steps, m, n - 1, b);
      assert Taken(t, trace[n - 1], steps[n - 1], trace[n]);
      StepLeaks(t, trace[n - 1], steps[n - 1]);
    }
    LeakedLive(trace[n], b);
  }

  lemma LeakedLive(st: State, b: nat)
    requires Inv(st, {}) && b in st.leaked
    ensures b in st.live && b !in st.freed
  {
    assert Owns(st, Leaked, b);
  }
}
