/** The methods of `Chain` in core/chain.cpp, and the modules `copy` and `split` as far as they handle buffers. */
module ChainRuntime {
  import opened ChainTree
  import R = ChainRun
  import ChainRouting

  /** Nothing was queued and nothing has left between these states. */
  ghost predicate SameLanes(st: R.State, st': R.State)
  {
    st'.queue == st.queue && st'.exits == st.exits && st'.alive == st.alive
  }

  /** `count` packets have moved on, towards the wire in direction 0, towards the entry in direction 1, and
      nothing else has happened to the queue and the exits. Without an owner none moves on. */
  ghost predicate Adds(st: R.State, st': R.State, dir: nat, count: nat)
  {
    && st'.alive == st.alive && st.queue <= st'.queue && st.exits <= st'.exits
    && (forall i :: |st.queue| <= i < |st'.queue| ==> st'.queue[i].dir == dir)
    && (dir == 1 ==> forall i :: |st.exits| <= i < |st'.exits| ==> st'.exits[i].port == 0)
    && (st.alive ==> |st'.queue| + |st'.exits| == |st.queue| + |st.exits| + count)
  }

  lemma PutAndTake(held: set<nat>, b: nat)
    requires b !in held
    ensures held + {b} - {b} == held
  {
  }

  lemma SameSelf(st: R.State)
    ensures SameLanes(st, st)
  {
  }

  lemma SameTrans(st: R.State, st1: R.State, st2: R.State)
    requires SameLanes(st, st1) && SameLanes(st1, st2)
    ensures SameLanes(st, st2)
  {
  }

  lemma SameAdds(st: R.State, st': R.State, dir: nat)
    requires SameLanes(st, st')
    ensures Adds(st, st', dir, 0)
  {
  }

  lemma NoneAdded(st: R.State, dir: nat)
    ensures Adds(st, st, dir, 0)
  {
  }

  lemma StillAdds(st: R.State, st1: R.State, st2: R.State, dir: nat, n: nat)
    requires Adds(st, st1, dir, n) && SameLanes(st1, st2)
    ensures Adds(st, st2, dir, n)
  {
  }

  lemma AddsTrans(st: R.State, st1: R.State, st2: R.State, dir: nat, m: nat, n: nat)
    requires Adds(st, st1, dir, m) && Adds(st1, st2, dir, n)
    ensures Adds(st, st2, dir, m + n)
  {
    assert forall i :: |st.queue| <= i < |st1.queue| ==> st2.queue[i] == st1.queue[i];
    assert forall i :: |st.exits| <= i < |st1.exits| ==> st2.exits[i] == st1.exits[i];
  }

  lemma WriteAdds(t: Tree, st: R.State, mod: nat, dst: int, b: nat, src: int)
    requires |st.paused| == 2
    ensures Adds(st, R.WritePacket(t, st, mod, dst, b, src), if dst == 0 then 1 else 0, 1)
  {
    hide R.FreeBuffer, R.Neighbour;
    ChainRouting.FreeSame(st, b);
    ChainRouting.FreeSame(st.(exits := st.exits + [R.Exit(R.ExitPort(t, mod, dst), b)]), b);
  }

  ghost predicate Routes(t: Tree, st: R.State, st': R.State, mod: nat, dst: int, b: nat, src: int)
  {
    forall n :: TreeOk(t, n) && mod < |t.nodes| ==> ChainRouting.Routed(t, n, st, st', mod, dst, b, src)
  }

  lemma SameRoutes(t: Tree, st0: R.State, st: R.State, st': R.State, mod: nat, dst: int, b: nat, src: int)
    requires SameLanes(st0, st) && Routes(t, st, st', mod, dst, b, src)
    ensures Routes(t, st0, st', mod, dst, b, src)
  {
    hide ChainRouting.Routed, TreeOk;
    forall n | TreeOk(t, n) && mod < |t.nodes|
      ensures ChainRouting.Routed(t, n, st0, st', mod, dst, b, src)
    {
      ChainRouting.SameRoute(t, n, st0, st, st', mod, dst, b, src);
    }
  }

  class Chain {
    const tree: Tree
    /** The memory: the sizes written in front of the buffers that are allocated. */
    var heap: map<nat, nat>
    var nextBuffer: nat
    var bytesAllocated: int
    var paused: array<bool>
    var inflight: int
    var cancelled: bool
    var ownerAlive: bool
    /** The queue of the thread pool, and a count of the tasks ever queued. */
    var queue: seq<R.Task>
    var tasks: nat
    /** The packets given to `wire_write`. */
    var exits: seq<R.Exit>
    /** History: who owns which buffer, and what the workers are at. */
    ghost var books: R.State

    ghost predicate Valid()
      reads this
    {
      paused.Length == 2 && R.EntriesOk(tree)
    }

    ghost function View(): (st: R.State)
      reads this, paused
      requires Valid()
      ensures |st.paused| == 2
    {
      books.(live := heap, next := nextBuffer, bytes := bytesAllocated, paused := paused[..], inflight := inflight,
             cancelled := cancelled, alive := ownerAlive, queue := queue, tasks := tasks,
             exits := exits)
    }

    constructor (tree: Tree)
      requires R.EntriesOk(tree)
      ensures Valid() && fresh(paused) && this.tree == tree && View() == R.Init && R.Inv(View(), {})
    {
      this.tree := tree;
      paused := new bool[2](_ => false);
      heap, nextBuffer, bytesAllocated := map[], 0, 0;
      inflight, cancelled, ownerAlive, queue, tasks, exits := 0, false, true, [], 0, [];
      books := R.Init;
      new;
      assert paused[..] == [false, false];
      R.InitInv();
    }

    // ----- core/chain.cpp -----

    method CheckBackpressure()
      requires Valid()
      modifies paused
      ensures View() == R.CheckBackpressure(old(View()))
    {
      var bytes := bytesAllocated;
      var dir := 0;
      while dir < 2
        invariant 0 <= dir <= 2
        invariant forall d :: 0 <= d < dir ==> paused[d] == R.Flag(bytes, old(paused[d]))
        invariant forall d :: dir <= d < 2 ==> paused[d] == old(paused[d])
      {
        var wasPaused := paused[dir];
        if bytes > R.HIGH && !wasPaused {
          paused[dir] := true;
        }
        if bytes <= R.LOW && wasPaused {
          paused[dir] := false;
        }
        dir := dir + 1;
      }
      assert paused[..] == [R.Flag(bytes, old(paused[0])), R.Flag(bytes, old(paused[1]))];
    }

    method AllocBuffer(size: nat) returns (b: nat)
      requires Valid()
      modifies this, paused
      ensures Valid() && paused == old(paused)
      ensures b == old(View()).next && View() == R.AllocBuffer(old(View()), size)
    {
      b := nextBuffer;
      heap, nextBuffer := heap[b := size], b + 1;
      bytesAllocated := bytesAllocated + size;
      CheckBackpressure();
    }

    method FreeBuffer(b: nat)
      requires Valid()
      modifies this, paused
      ensures Valid() && paused == old(paused)
      ensures View() == R.FreeBuffer(old(View()), b)
    {
      var size := if b in heap then heap[b] else 0;
      bytesAllocated := bytesAllocated - size;
      CheckBackpressure();
      heap := heap - {b};
      books := books.(freed := books.freed + [b]);
    }

    method EnqueueModule(mod: nat, b: nat, src: int, dir: nat)
      requires Valid()
      modifies this, paused
      ensures Valid() && paused == old(paused)
      ensures View() == R.EnqueueModule(old(View()), mod, b, src, dir)
    {
      if !ownerAlive {
        FreeBuffer(b);
        return;
      }
      inflight := inflight + 1;
      queue, tasks := queue + [R.Task(tasks, mod, src, dir, b)], tasks + 1;
    }

    /** The caller hands over a buffer of its own. `crash` says that the null entry of port 0 is used as a
        module. */
    method PushPacket(b: nat, src: int, dir: nat) returns (crash: bool)
      requires Valid() && R.Inv(View(), {}) && b in View().outside
      modifies this, paused
      ensures crash <==> !R.PushSafe(tree, old(View()), src, dir)
      ensures !crash ==> Valid() && paused == old(paused) && R.Inv(View(), {})
      ensures !crash ==> View() == R.PushPacket(tree, R.LeaveOutside(old(View()), b), b, src, dir)
    {
      hide R.Inv, R.EnqueueModule, R.FreeBuffer;
      ghost var st := View();
      R.OutsideKeeps(st, b);
      crash := false;
      if R.PushSafe(tree, st, src, dir) {
        R.PushKeeps(tree, R.LeaveOutside(st, b), b, src, dir);
      }
      books := R.LeaveOutside(books, b);
      if cancelled {
        FreeBuffer(b);
      } else if tree.nodes == [] {
        exits := exits + [R.Exit(if dir == 0 then 1 else 0, b)];
        FreeBuffer(b);
      } else if !ownerAlive {
        FreeBuffer(b);
      } else if dir == 0 {
        EnqueueModule(0, b, src, dir);
      } else if src < 0 || src >= |tree.wire| {
        FreeBuffer(b);
      } else if src == 0 {
        crash := true;
      } else {
        EnqueueModule(tree.wire[src], b, src, dir);
      }
    }

    /** `wireRet` is what `wire_write` answers if the packet leaves the chain. */
    method WritePacketImpl(mod: nat, dst: int, b: nat, src: int, wireRet: int) returns (ret: int)
      requires Valid()
      modifies this, paused
      ensures Valid() && paused == old(paused)
      ensures View() == R.WritePacket(tree, old(View()), mod, dst, b, src)
      ensures Goes(old(View()), mod, dst, b, src)
      ensures ret == if R.Neighbour(tree, mod, dst) >= 0 then 0 else wireRet
    {
      GoesWhere(mod, dst, b, src);
      var dir := if dst == 0 then 1 else 0;
      var next := R.Neighbour(tree, mod, dst);
      if next >= 0 {
        EnqueueModule(next, b, src, dir);
        ret := 0;
      } else {
        exits := exits + [R.Exit(R.ExitPort(tree, mod, dst), b)];
        ret := wireRet;
        FreeBuffer(b);
      }
    }

    /** On a finished chain the buffer has gone, since `st`, where output `dst` of copy `mod` leads. */
    ghost predicate Goes(st: R.State, mod: nat, dst: int, b: nat, src: int)
      reads this, paused
      requires Valid()
    {
      Routes(tree, st, View(), mod, dst, b, src)
    }

    lemma GoesWhere(mod: nat, dst: int, b: nat, src: int)
      requires Valid()
      ensures Routes(tree, View(), R.WritePacket(tree, View(), mod, dst, b, src), mod, dst, b, src)
    {
      hide R.WritePacket, ChainRouting.Routed, TreeOk;
      ghost var st := View();
      forall n | TreeOk(tree, n) && mod < |tree.nodes|
        ensures ChainRouting.Routed(tree, n, st, R.WritePacket(tree, st, mod, dst, b, src), mod, dst, b, src)
      {
        ChainRouting.WriteRouted(tree, n, st, mod, dst, b, src);
      }
    }

    // ----- What a worker and the module it runs can do -----

    /** Worker `w` is at work, and these buffers are in its hands. */
    ghost predicate At(w: nat, task: R.Task, held: set<nat>)
      reads this, paused
    {
      && Valid()
      && R.Inv(View(), {})
      && R.Acting(View(), w)
      && View().workers[w] == R.Worker(task, true, held)
    }

    ghost function Stored(task: R.Task): set<nat>
      reads this, paused
      requires Valid()
    {
      R.StoreOf(View(), R.Place(task.mod, task.dir))
    }

    method Malloc(w: nat, size: nat, task: R.Task, ghost held: set<nat>) returns (b: nat)
      requires At(w, task, held)
      modifies this, paused
      ensures Valid() && View().leaked == old(View()).leaked
      ensures paused == old(paused) && At(w, task, held + {b}) && Stored(task) == old(Stored(task))
      ensures b !in held && b !in old(Stored(task)) && b == old(View()).next && SameLanes(old(View()), View())
    {
      hide R.Inv;
      ghost var st := View();
      R.MallocKeeps(st, w, size);
      NewBuffer(st, w, task, held);
      b := AllocBuffer(size);
      ghost var st1 := View();
      books := R.Hold(books, w, b);
      assert View() == R.Hold(st1, w, b);
    }

    method Free(w: nat, b: nat, task: R.Task, ghost held: set<nat>)
      requires At(w, task, held) && (b in held || b in Stored(task))
      modifies this, paused
      ensures Valid() && View().leaked == old(View()).leaked
      ensures paused == old(paused) && At(w, task, held - {b}) && Stored(task) == old(Stored(task)) - {b}
      ensures b in held ==> Stored(task) == old(Stored(task))
      ensures SameLanes(old(View()), View())
    {
      hide R.Inv;
      ghost var st := View();
      R.ReleaseKeeps(st, w, b);
      R.FreeKeeps(R.Release(st, w, b), b);
      OneHolder(st, w, task, b);
      books := R.Release(books, w, b);
      assert View() == R.Release(st, w, b);
      FreeBuffer(b);
    }

    method WritePacket(w: nat, dst: int, b: nat, src: int, wireRet: int, task: R.Task, ghost held: set<nat>)
      returns (ret: int)
      requires At(w, task, held) && (b in held || b in Stored(task))
      modifies this, paused
      ensures Valid() && View().leaked == old(View()).leaked
      ensures paused == old(paused) && At(w, task, held - {b}) && Stored(task) == old(Stored(task)) - {b}
      ensures b in held ==> Stored(task) == old(Stored(task))
      ensures ret == if R.Neighbour(tree, task.mod, dst) >= 0 then 0 else wireRet
      ensures Goes(old(View()), task.mod, dst, b, src)
      ensures Adds(old(View()), View(), if dst == 0 then 1 else 0, 1)
    {
      hide R.Inv, R.WritePacket, Routes, Adds;
      ghost var st := View();
      R.ReleaseKeeps(st, w, b);
      R.WriteKeeps(tree, R.Release(st, w, b), task.mod, dst, b, src);
      OneHolder(st, w, task, b);
      R.WriteAway(tree, R.Release(st, w, b), task.mod, dst, b, src);
      books := R.Release(books, w, b);
      assert View() == R.Release(st, w, b);
      ret := WritePacketImpl(task.mod, dst, b, src, wireRet);
      SameRoutes(tree, st, R.Release(st, w, b), View(), task.mod, dst, b, src);
      WriteAdds(tree, R.Release(st, w, b), task.mod, dst, b, src);
      SameAdds(st, R.Release(st, w, b), if dst == 0 then 1 else 0);
      AddsTrans(st, R.Release(st, w, b), View(), if dst == 0 then 1 else 0, 0, 1);
    }

    /** The module puts a buffer into its store. */
    method Keep(w: nat, b: nat, task: R.Task, ghost held: set<nat>)
      requires At(w, task, held) && b in held
      modifies this, paused
      ensures Valid() && View().leaked == old(View()).leaked
      ensures paused == old(paused) && At(w, task, held - {b}) && Stored(task) == old(Stored(task)) + {b}
      ensures SameLanes(old(View()), View())
    {
      hide R.Inv;
      ghost var st, p := View(), R.Place(task.mod, task.dir);
      R.ReleaseKeeps(st, w, b);
      R.StoreKeeps(R.Release(st, w, b), p, b);
      books := R.Store(R.Release(books, w, b), p, b);
      assert View() == R.Store(R.Release(st, w, b), p, b);
    }

    /** A worker takes the oldest task and, unless the chain is cancelled, enters the module. */
    method TakeTask(w: nat) returns (task: R.Task, entered: bool)
      requires Valid() && R.Inv(View(), {}) && queue != [] && w !in View().workers
      modifies this, paused
      ensures Valid() && paused == old(paused) && R.Inv(View(), {})
      ensures task == old(queue[0]) && entered == !old(cancelled)
      ensures entered ==> At(w, task, {task.buf}) && Stored(task) == old(Stored(queue[0]))
      ensures View() == R.Start(R.Pop(old(View()), w), w)
    {
      hide R.Inv;
      ghost var st := View();
      R.PopKeeps(st, w);
      R.StartKeeps(R.Pop(st, w), w);
      task := queue[0];
      queue := queue[1..];
      books := books.(workers := books.workers[w := R.Worker(task, false, {task.buf})]);
      assert View() == R.Pop(st, w);
      entered := !cancelled;
      if entered {
        books := books.(workers := books.workers[w := R.Worker(task, true, {task.buf})]);
      } else {
        ghost var s1 := View();
        books := R.Release(books, w, task.buf);
        assert View() == R.Release(s1, w, task.buf);
        FreeBuffer(task.buf);
        TaskDone(w);
      }
    }

    method TaskDone(ghost w: nat)
      requires Valid() && w in View().workers
      modifies this
      ensures Valid() && paused == old(paused) && View() == R.TaskDone(old(View()), w)
    {
      inflight := inflight - 1;
      books := books.(workers := books.workers - {w}, leaked := books.leaked + books.workers[w].held);
    }

    /** After the module has returned. The books stay right if and only if the module has not both given the
        packet away and reported failure. */
    lemma AtValid(w: nat, task: R.Task, held: set<nat>)
      requires At(w, task, held)
      ensures Valid()
    {
    }

    method FinishTask(w: nat, task: R.Task, ret: int, ghost held: set<nat>)
      requires At(w, task, held)
      modifies this, paused
      ensures Valid() && paused == old(paused) && View() == R.Finish(old(View()), w, ret)
      ensures R.Inv(View(), {}) <==> (ret < 0 ==> task.buf in held)
    {
      hide R.Inv;
      ghost var st := View();
      R.FinishIff(st, w, ret);
      if ret < 0 {
        books := if task.buf in held then R.Release(books, w, task.buf) else books;
        assert View() == if task.buf in held then R.Release(st, w, task.buf) else st;
        FreeBuffer(task.buf);
      }
      TaskDone(w);
    }

    // ----- core/modules/copy.cpp -----

    /** `mallocOk` and `wireRet` are the answers of `malloc` and of `wire_write`. */
    method CopyProcess(w: nat, task: R.Task, len: nat, modeCopy: bool, mallocOk: bool, wireRet: int) returns (ret: int)
      requires At(w, task, {task.buf})
      modifies this, paused
      ensures Valid() && View().leaked == old(View()).leaked
      ensures paused == old(paused)
      ensures var refused := len == 0 || (modeCopy && !mallocOk);
              && At(w, task, if refused then {task.buf} else {})
              && ret == (if refused then -1
                         else if R.Neighbour(tree, task.mod, if task.dir == 0 then 1 else 0) >= 0 then 0 else wireRet)
              && (if refused then SameLanes(old(View()), View())
                  else Goes(old(View()), task.mod, if task.dir == 0 then 1 else 0,
                            if modeCopy then old(View()).next else task.buf, task.src))
    {
      hide At, View, Routes, R.Neighbour;
      AtValid(w, task, {task.buf});
      if len == 0 { return -1; }
      ghost var st := View();
      var dst := if task.dir == 0 then 1 else 0;
      ghost var held := {task.buf};
      if modeCopy {
        if !mallocOk { return -1; }
        var cp := Malloc(w, len, task, held);
        Free(w, task.buf, task, held + {cp});
        assert held + {cp} - {task.buf} == {cp};
        ghost var st1 := View();
        ret := WritePacket(w, dst, cp, task.src, wireRet, task, {cp});
        SameRoutes(tree, st, st1, View(), task.mod, dst, cp, task.src);
        assert {cp} - {cp} == {};
      } else {
        ret := WritePacket(w, dst, task.buf, task.src, wireRet, task, held);
        assert held - {task.buf} == {};
      }
    }

    /** One packet through `copy`: a packet that leaves the chain while `wire_write` fails is freed twice, and
        that is the only way for the books to go wrong. */
    method RunCopy(w: nat, task: R.Task, len: nat, modeCopy: bool, mallocOk: bool, wireRet: int)
      requires At(w, task, {task.buf})
      modifies this, paused
      ensures Valid() && paused == old(paused)
      ensures R.Inv(View(), {}) <==>
              !(&& len > 0 && (modeCopy ==> mallocOk)
                && R.Neighbour(tree, task.mod, if task.dir == 0 then 1 else 0) < 0 && wireRet < 0)
      ensures View().leaked == old(View()).leaked
    {
      hide R.Inv, R.Neighbour, Routes;
      var ret := CopyProcess(w, task, len, modeCopy, mallocOk, wireRet);
      FinishTask(w, task, ret, if len == 0 || (modeCopy && !mallocOk) then {task.buf} else {});
    }

    // ----- modules/split/split.cpp -----

    /** The splitting direction: a buffer for every chunk, which is written at once, and the packet is freed at
        the end. `pick` gives the chunk sizes, `out` the outputs in turn, `mallocOk` and `wireRet` the answers
        of `malloc` and `wire_write`; the latter is ignored. An empty packet is neither freed nor passed on. */
    method SplitProcess(w: nat, task: R.Task, len: nat, out: nat -> nat,
                        pick: nat -> nat, mallocOk: nat -> bool, wireRet: nat -> int) returns (ret: int, chunks: nat)
      requires At(w, task, {task.buf}) && forall i :: pick(i) >= 1 && out(i) >= 1
      modifies this, paused
      ensures Valid() && View().leaked == old(View()).leaked && paused == old(paused)
      ensures ret == 0 && At(w, task, if len == 0 then {task.buf} else {}) && Stored(task) == old(Stored(task))
      ensures Adds(old(View()), View(), 0, chunks)
    {
      hide At, Stored, View, SameLanes, Adds, Routes;
      AtValid(w, task, {task.buf});
      ghost var st := View();
      NoneAdded(st, 0);
      ret, chunks := 0, 0;
      if len == 0 { return; }
      var offset := 0;
      ghost var held := {task.buf};
      while offset < len
        invariant offset <= len && paused == old(paused)
        invariant At(w, task, held) && View().leaked == old(View()).leaked && Stored(task) == old(Stored(task))
        invariant Adds(st, View(), 0, chunks)
        decreases len - offset
      {
        var remain := len - offset;
        var chunkLen := if chunks >= 65535 || pick(chunks) > remain then remain else pick(chunks);
        ghost var st0 := View();
        if !mallocOk(chunks) {
          Free(w, task.buf, task, held);
          StillAdds(st, st0, View(), 0, chunks);
          assert held - {task.buf} == {};
          return;
        }
        var buf := Malloc(w, chunkLen + 4, task, held);
        StillAdds(st, st0, View(), 0, chunks);
        ghost var st1 := View();
        var _ := WritePacket(w, out(chunks), buf, task.src, wireRet(chunks), task, held + {buf});
        AddsTrans(st, st1, View(), 0, chunks, 1);
        assert held + {buf} - {buf} == held;
        offset, chunks := offset + chunkLen, chunks + 1;
      }
      ghost var st2 := View();
      Free(w, task.buf, task, held);
      StillAdds(st, st2, View(), 0, chunks);
      assert held - {task.buf} == {};
    }

    /** A packet through `split`: the books stay right, and the packet is leaked if and only if it is empty. */
    method RunSplit(w: nat, task: R.Task, len: nat, out: nat -> nat,
                    pick: nat -> nat, mallocOk: nat -> bool, wireRet: nat -> int)
      requires At(w, task, {task.buf}) && forall i :: pick(i) >= 1 && out(i) >= 1
      modifies this, paused
      ensures Valid() && paused == old(paused) && R.Inv(View(), {})
      ensures View().leaked == old(View()).leaked + if len == 0 then {task.buf} else {}
    {
      var ret, _ := SplitProcess(w, task, len, out, pick, mallocOk, wireRet);
      FinishTask(w, task, ret, if len == 0 then {task.buf} else {});
    }

    /** The slots of the merging direction hold the buffers of the store, one each. */
    ghost predicate SlotsOk(task: R.Task, slots: map<(nat, nat), nat>)
      reads this, paused
      requires Valid()
    {
      SlotMap(slots, Stored(task))
    }

    lemma SlotsAre(task: R.Task, slots: map<(nat, nat), nat>)
      requires Valid()
      ensures SlotsOk(task, slots) <==> SlotMap(slots, Stored(task))
    {
    }

    /** The merging direction. `key` is the slot of the chunk, if it is neither too short nor an orphan;
        `flushes` are the packets that the chunk completes, each with the slots it takes. An empty chunk is
        neither stored nor freed. */
    method MergeProcess(w: nat, task: R.Task, len: nat, key: (nat, nat), accepted: bool, size: nat,
                        slots: map<(nat, nat), nat>, flushes: seq<seq<(nat, nat)>>, wireRet: int)
      returns (ret: int, slots': map<(nat, nat), nat>)
      requires At(w, task, {task.buf}) && SlotsOk(task, slots)
      modifies this, paused
      ensures Valid() && View().leaked == old(View()).leaked && paused == old(paused)
      ensures ret == 0 && At(w, task, if len == 0 then {task.buf} else {}) && SlotsOk(task, slots')
      ensures forall k :: k in slots' ==> k in slots || k == key
      ensures Adds(old(View()), View(), 1, if accepted && len > 0 then |flushes| else 0)
    {
      hide At, SlotMap, SlotsOk, SameLanes, Adds, Routes, View, Stored;
      AtValid(w, task, {task.buf});
      ghost var held, st := {task.buf}, View();
      NoneAdded(st, 1);
      ret, slots' := 0, slots;
      if len == 0 {
        return;
      }
      if accepted {
        slots' := FillSlot(w, task, slots', key, size, held);
        ghost var st1 := View();
        SameAdds(st, st1, 1);
        slots' := FlushAll(w, task, slots', flushes, wireRet, held);
        AddsTrans(st, st1, View(), 1, 0, |flushes|);
      }
      ghost var st2 := View();
      SlotsAre(task, slots');
      Free(w, task.buf, task, held);
      SlotsAre(task, slots');
      StillAdds(st, st2, View(), 1, if accepted then |flushes| else 0);
      assert held - {task.buf} == {};
    }

    /** The packets that are complete are written one after the other. */
    method FlushAll(w: nat, task: R.Task, slots: map<(nat, nat), nat>, flushes: seq<seq<(nat, nat)>>, wireRet: int,
                    ghost held: set<nat>)
      returns (slots': map<(nat, nat), nat>)
      requires At(w, task, held) && SlotsOk(task, slots)
      modifies this, paused
      ensures Valid() && View().leaked == old(View()).leaked && paused == old(paused)
      ensures At(w, task, held) && SlotsOk(task, slots') && forall k :: k in slots' ==> k in slots
      ensures Adds(old(View()), View(), 1, |flushes|)
    {
      hide At, SlotMap, SlotsOk, SameLanes, Adds, Routes, View, Stored;
      AtValid(w, task, held);
      ghost var st := View();
      NoneAdded(st, 1);
      slots' := slots;
      var i := 0;
      while i < |flushes|
        invariant 0 <= i <= |flushes| && Valid() && paused == old(paused)
        invariant At(w, task, held) && View().leaked == st.leaked && SlotsOk(task, slots')
        invariant forall k :: k in slots' ==> k in slots
        invariant Adds(st, View(), 1, i)
      {
        ghost var st1 := View();
        slots' := FlushPacket(w, task, slots', flushes[i], wireRet, held);
        AddsTrans(st, st1, View(), 1, i, 1);
        i := i + 1;
      }
    }

    /** A chunk through `split` when merging: the books stay right, and the chunk is leaked if and only if it is
        empty. */
    method RunMerge(w: nat, task: R.Task, len: nat, key: (nat, nat), accepted: bool, size: nat,
                    slots: map<(nat, nat), nat>, flushes: seq<seq<(nat, nat)>>, wireRet: int)
      returns (slots': map<(nat, nat), nat>)
      requires At(w, task, {task.buf}) && SlotsOk(task, slots)
      modifies this, paused
      ensures Valid() && paused == old(paused) && R.Inv(View(), {})
      ensures View().leaked == old(View()).leaked + if len == 0 then {task.buf} else {}
    {
      var ret;
      ret, slots' := MergeProcess(w, task, len, key, accepted, size, slots, flushes, wireRet);
      FinishTask(w, task, ret, if len == 0 then {task.buf} else {});
    }

    /** A chunk that arrives again replaces the one in its slot. */
    method FillSlot(w: nat, task: R.Task, slots: map<(nat, nat), nat>, key: (nat, nat), size: nat, ghost held: set<nat>)
      returns (slots': map<(nat, nat), nat>)
      requires At(w, task, held) && SlotsOk(task, slots)
      modifies this, paused
      ensures Valid() && View().leaked == old(View()).leaked && paused == old(paused)
      ensures At(w, task, held) && SlotsOk(task, slots') && slots'.Keys == slots.Keys + {key}
      ensures SameLanes(old(View()), View())
    {
      slots' := slots;
      if key in slots' {
        slots' := DropSlot(w, task, slots', key, held);
      }
      var b := NewSlot(w, task, slots', key, size, held);
      slots' := slots'[key := b];
    }

    method NewSlot(w: nat, task: R.Task, slots: map<(nat, nat), nat>, key: (nat, nat), size: nat, ghost held: set<nat>)
      returns (b: nat)
      requires At(w, task, held) && SlotsOk(task, slots) && key !in slots
      modifies this, paused
      ensures Valid() && View().leaked == old(View()).leaked && paused == old(paused)
      ensures At(w, task, held) && SlotsOk(task, slots[key := b])
      ensures SameLanes(old(View()), View())
    {
      assert Valid();
      hide At, SlotMap, Stored, View;
      ghost var store := Stored(task);
      b := Malloc(w, size, task, held);
      Keep(w, b, task, held + {b});
      assert held + {b} - {b} == held;
      SlotMore(slots, store, key, b);
    }

    method DropSlot(w: nat, task: R.Task, slots: map<(nat, nat), nat>, k: (nat, nat), ghost held: set<nat>)
      returns (slots': map<(nat, nat), nat>)
      requires At(w, task, held) && SlotsOk(task, slots) && k in slots
      modifies this, paused
      ensures Valid() && View().leaked == old(View()).leaked && paused == old(paused)
      ensures At(w, task, held) && slots' == slots - {k} && SlotsOk(task, slots')
      ensures SameLanes(old(View()), View())
    {
      ghost var b := slots[k];
      SlotLess(slots, Stored(task), k);
      SlotFree(View(), w, task, b);
      hide SlotMap;
      Free(w, slots[k], task, held);
      slots' := slots - {k};
      assert held - {b} == held;
    }

    /** The slots of a packet are freed one by one. */
    method DropSlots(w: nat, task: R.Task, slots: map<(nat, nat), nat>, keys: seq<(nat, nat)>, ghost held: set<nat>)
      returns (slots': map<(nat, nat), nat>)
      requires At(w, task, held) && SlotsOk(task, slots)
      modifies this, paused
      ensures Valid() && View().leaked == old(View()).leaked && paused == old(paused)
      ensures At(w, task, held) && SlotsOk(task, slots') && forall k :: k in slots' ==> k in slots && k !in keys
      ensures SameLanes(old(View()), View())
    {
      hide At, SlotMap, SlotsOk, View, Stored, SameLanes;
      AtValid(w, task, held);
      ghost var st := View();
      slots' := slots;
      SameSelf(st);
      var j := 0;
      while j < |keys|
        invariant 0 <= j <= |keys| && Valid() && paused == old(paused)
        invariant At(w, task, held) && View().leaked == st.leaked && SlotsOk(task, slots')
        invariant forall k :: k in slots' ==> k in slots && k !in keys[..j]
        invariant SameLanes(st, View())
      {
        if keys[j] in slots' {
          ghost var st1 := View();
          slots' := DropSlot(w, task, slots', keys[j], held);
          SameTrans(st, st1, View());
        }
        assert keys[..j + 1] == keys[..j] + [keys[j]];
        j := j + 1;
      }
      assert keys[..j] == keys;
    }

    method PacketSize(slots: map<(nat, nat), nat>, keys: seq<(nat, nat)>) returns (total: nat)
    {
      var j := 0;
      total := 0;
      while j < |keys|
      {
        total := total + if keys[j] in slots && slots[keys[j]] in heap then heap[slots[keys[j]]] else 0;
        j := j + 1;
      }
    }

    method FlushPacket(w: nat, task: R.Task, slots: map<(nat, nat), nat>, keys: seq<(nat, nat)>, wireRet: int,
                       ghost held: set<nat>)
      returns (slots': map<(nat, nat), nat>)
      requires At(w, task, held) && SlotsOk(task, slots)
      modifies this, paused
      ensures Valid() && View().leaked == old(View()).leaked && paused == old(paused)
      ensures At(w, task, held) && SlotsOk(task, slots') && forall k :: k in slots' ==> k in slots && k !in keys
      ensures Adds(old(View()), View(), 1, 1)
    {
      hide At, SlotMap, SlotsOk, Stored, Adds, Routes, Goes, View, SameLanes;
      AtValid(w, task, held);
      SlotsAre(task, slots);
      ghost var st := View();
      var total := PacketSize(slots, keys);
      var out := Malloc(w, total, task, held);
      PutAndTake(held, out);
      SlotsAre(task, slots);
      ghost var st0 := View();
      slots' := DropSlots(w, task, slots, keys, held + {out});
      ghost var st1 := View();
      SlotsAre(task, slots');
      SameTrans(st, st0, st1);
      SameAdds(st, st1, 1);
      var _ := WritePacket(w, 0, out, task.src, wireRet, task, held + {out});
      SlotsAre(task, slots');
      AddsTrans(st, st1, View(), 1, 0, 1);
    }
  }

  ghost predicate SlotMap(slots: map<(nat, nat), nat>, store: set<nat>)
  {
    && slots.Values == store
    && forall k, k' :: k in slots && k' in slots && k != k' ==> slots[k] != slots[k']
  }

  lemma SlotLess(slots: map<(nat, nat), nat>, store: set<nat>, k: (nat, nat))
    requires SlotMap(slots, store) && k in slots
    ensures slots[k] in store && SlotMap(slots - {k}, store - {slots[k]})
  {
    var slots' := slots - {k};
    assert slots[k] in slots.Values;
    forall b
      ensures b in slots'.Values <==> b in store && b != slots[k]
    {
      if b in store && b != slots[k] {
        var j :| j in slots && slots[j] == b;
        assert slots'[j] == b;
      }
    }
  }

  lemma SlotMore(slots: map<(nat, nat), nat>, store: set<nat>, k: (nat, nat), b: nat)
    requires SlotMap(slots, store) && k !in slots && b !in store
    ensures SlotMap(slots[k := b], store + {b})
  {
    var slots' := slots[k := b];
    assert slots'[k] == b;
    forall c
      ensures c in slots'.Values <==> c in store || c == b
    {
      if c in store {
        var j :| j in slots && slots[j] == c;
        assert slots'[j] == c;
      }
    }
    forall j | j in slots
      ensures slots[j] != b
    {
      assert slots[j] in slots.Values;
    }
  }

  lemma SlotFree(st: R.State, w: nat, task: R.Task, b: nat)
    requires R.Inv(st, {}) && w in st.workers && st.workers[w].task == task
    requires b in R.StoreOf(st, R.Place(task.mod, task.dir))
    ensures b !in st.workers[w].held
  {
    OneHolder(st, w, task, b);
  }

  lemma NewBuffer(st: R.State, w: nat, task: R.Task, held: set<nat>)
    requires R.Inv(st, {}) && w in st.workers && st.workers[w] == R.Worker(task, true, held)
    ensures st.next !in held && st.next !in R.StoreOf(st, R.Place(task.mod, task.dir))
  {
    if st.next in held {
      assert R.Owns(st, R.Held(w), st.next);
    }
    if st.next in R.StoreOf(st, R.Place(task.mod, task.dir)) {
      assert R.Owns(st, R.Stored(R.Place(task.mod, task.dir)), st.next);
    }
  }

  lemma OneHolder(st: R.State, w: nat, task: R.Task, b: nat)
    requires R.Inv(st, {}) && w in st.workers && st.workers[w].task == task
    ensures b in st.workers[w].held ==> b !in R.StoreOf(st, R.Place(task.mod, task.dir))
  {
    assert b in st.workers[w].held <==> R.Owns(st, R.Held(w), b);
    assert b in R.StoreOf(st, R.Place(task.mod, task.dir)) <==> R.Owns(st, R.Stored(R.Place(task.mod, task.dir)), b);
  }
}
