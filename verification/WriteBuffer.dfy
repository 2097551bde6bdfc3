/** The two-lane write buffer of common/write_buffer.h: data frames and priority frames over one socket
    that may take any part of what it is given. */
module WriteBuffer {
  import opened Bytes

  /** The socket's answer to one write call: some bytes taken, EAGAIN, or a hard error. */
  datatype Answer = Wrote(n: nat) | Again | Failed

  datatype Lane = Data | Prio

  /** A stretch of the stream: a whole data frame, or the bytes one priority write call got through; `fin`
      says that it ends its frame. */
  datatype Piece = Piece(lane: Lane, bytes: Bytestring, fin: bool)

  /** The buffer with its socket, whose answers to come are `answers` and which has taken `out`. The
      remaining fields are history: `head` is the part of the front data frame that was written before the
      frame was queued, `log` the pieces of the stream, `torn` whether a data write call ever got bytes
      through while `prioOff` was positive, and `dataIn` and `prioIn` the frames accepted so far. */
  datatype State = State(
    prio: seq<Bytestring>, prioOff: nat, chunks: seq<Bytestring>, off: nat, total: int,
    answers: seq<Answer>, out: Bytestring,
    head: Bytestring, log: seq<Piece>, torn: bool, dataIn: seq<Bytestring>, prioIn: seq<Bytestring>)

  function Init(answers: seq<Answer>): State
  {
    State([], 0, [], 0, 0, answers, [], [], [], false, [], [])
  }

  // ----- The socket -----

  /** One write call with `len` bytes. */
  function Ask(w: State, len: nat): (r: (Answer, State))
    ensures |r.1.answers| <= |w.answers|
    ensures !r.0.Again? ==> |r.1.answers| < |w.answers|
    ensures r.0.Wrote? && len >= 1 ==> 1 <= r.0.n <= len
  {
    if w.answers == [] then (Again, w)
    else
      var w' := w.(answers := w.answers[1..]);
      match w.answers[0]
      case Wrote(n) => (Wrote(if n < 1 then 1 else if n > len then len else n), w')
      case Again => (Again, w')
      case Failed => (Failed, w')
  }

  predicate FrontOk(queue: seq<Bytestring>, off: nat)
  {
    if queue == [] then off == 0 else off < |queue[0]|
  }

  /** `n` bytes of the front priority frame get through. */
  function EmitPrio(w: State, n: nat): State
    requires w.prio != [] && w.prioOff + n <= |w.prio[0]|
  {
    var piece := w.prio[0][w.prioOff..w.prioOff + n];
    var w' := w.(out := w.out + piece, total := w.total - n,
                 log := w.log + [Piece(Prio, piece, w.prioOff + n >= |w.prio[0]|)]);
    if w.prioOff + n >= |w.prio[0]| then w'.(prio := w.prio[1..], prioOff := 0)
    else w'.(prioOff := w.prioOff + n)
  }

  /** `n` bytes of the front data chunk get through. */
  function EmitData(w: State, n: nat): State
    requires w.chunks != [] && w.off + n <= |w.chunks[0]|
  {
    var w' := w.(out := w.out + w.chunks[0][w.off..w.off + n], total := w.total - n, torn := w.torn || w.prioOff > 0);
    if w.off + n >= |w.chunks[0]| then
      w'.(chunks := w.chunks[1..], off := 0, head := [], log := w.log + [Piece(Data, w.head + w.chunks[0], true)])
    else w'.(off := w.off + n)
  }

  // ----- The operations -----

  /** `flush_priority_unlocked`. */
  function FlushPrio(w: State): (r: (State, bool))
    requires FrontOk(w.prio, w.prioOff)
    ensures |r.0.answers| <= |w.answers|
    ensures r.0.chunks == w.chunks && r.0.off == w.off
    decreases |w.answers|
  {
    if w.prio == [] then (w, true)
    else
      var (a, w1) := Ask(w, |w.prio[0]| - w.prioOff);
      match a
      case Wrote(n) =>
        var w2 := EmitPrio(w1, n);
        if FrontOk(w2.prio, w2.prioOff) then FlushPrio(w2) else (w2, true)
      case Again => (w1, false)
      case Failed => (w1, true)
  }

  /** `flush_unlocked`: the current data chunk first, priority frames between data frames. */
  function Flush(w: State): (r: (State, bool))
    requires FrontOk(w.prio, w.prioOff) && FrontOk(w.chunks, w.off)
    ensures |r.0.answers| <= |w.answers|
    decreases |w.answers|
  {
    if w.chunks == [] then FlushPrio(w)
    else
      var (a, w1) := Ask(w, |w.chunks[0]| - w.off);
      match a
      case Wrote(n) =>
        var w2 := EmitData(w1, n);
        if w2.off == 0 then
          var (w3, ok) := FlushPrio(w2);
          if ok && FrontOk(w3.prio, w3.prioOff) && FrontOk(w3.chunks, w3.off) then Flush(w3) else (w3, ok)
        else Flush(w2)
      case Again => (w1, false)
      case Failed => (w1, true)
  }

  function Enqueue(w: State, frame: Bytestring, done: nat): State
    requires done < |frame|
  {
    w.(chunks := w.chunks + [frame[done..]], total := w.total + (|frame| - done),
       head := if w.chunks == [] then frame[..done] else w.head, dataIn := w.dataIn + [frame])
  }

  /** The write call that `write` makes when no data chunk is queued. */
  function DirectWrite(w: State, frame: Bytestring): (State, int)
    requires frame != []
  {
    var (a, w1) := Ask(w, |frame|);
    match a
    case Wrote(n) =>
      var w2 := w1.(out := w1.out + frame[..n], torn := w1.torn || w1.prioOff > 0);
      if n < |frame| then (Enqueue(w2, frame, n), 1)
      else (w2.(log := w1.log + [Piece(Data, frame, true)], dataIn := w1.dataIn + [frame]), 0)
    case Again => (Enqueue(w1, frame, 0), 1)
    case Failed => (w1, -1)
  }

  /** `write`: 0 when the frame went out whole, 1 when some of it is queued, -1 on a hard error, in which
      case the frame is not accepted. */
  function Write(w: State, frame: Bytestring): (State, int)
    requires frame != [] && FrontOk(w.prio, w.prioOff) && FrontOk(w.chunks, w.off)
  {
    if w.chunks != [] then
      var w1 := Flush(w).0;
      if w1.chunks != [] then (Enqueue(w1, frame, 0), 1) else DirectWrite(w1, frame)
    else DirectWrite(w, frame)
  }

  /** `write_priority`. */
  function WritePriority(w: State, frame: Bytestring): State
  {
    w.(prio := w.prio + [frame], total := w.total + |frame|, prioIn := w.prioIn + [frame])
  }

  // ----- The invariant -----

  function PieceBytes(log: seq<Piece>): Bytestring
  {
    if log == [] then [] else log[0].bytes + PieceBytes(log[1..])
  }

  function OfLane(log: seq<Piece>, lane: Lane): seq<Bytestring>
  {
    if log == [] then []
    else (if log[0].lane == lane then [log[0].bytes] else []) + OfLane(log[1..], lane)
  }

  /** The queued data frames, each whole again. */
  function QueuedFrames(head: Bytestring, chunks: seq<Bytestring>): seq<Bytestring>
  {
    if chunks == [] then [] else [head + chunks[0]] + chunks[1..]
  }

  /** The part of the unfinished data frame that is already on the wire. */
  function Unfinished(head: Bytestring, chunks: seq<Bytestring>, off: nat): Bytestring
    requires FrontOk(chunks, off)
  {
    if chunks == [] then [] else head + chunks[0][..off]
  }

  /** The bytes of a queue that have not gone out yet. */
  function Queued(queue: seq<Bytestring>, off: nat): Bytestring
    requires FrontOk(queue, off)
  {
    if queue == [] then [] else queue[0][off..] + Flatten(queue[1..])
  }

  predicate NoEmpty(queue: seq<Bytestring>)
  {
    forall i :: 0 <= i < |queue| ==> queue[i] != []
  }

  predicate WellQueued(w: State)
  {
    && NoEmpty(w.prio) && NoEmpty(w.chunks)
    && FrontOk(w.prio, w.prioOff) && FrontOk(w.chunks, w.off)
    && w.total == |Queued(w.prio, w.prioOff)| + |Queued(w.chunks, w.off)|
  }

  /** The stream is whole data frames with priority pieces between them, then the unfinished data frame:
      no priority byte is ever inside a data frame. */
  predicate DataAtomic(w: State)
    requires WellQueued(w)
  {
    && w.out == PieceBytes(w.log) + Unfinished(w.head, w.chunks, w.off)
    && OfLane(w.log, Data) + QueuedFrames(w.head, w.chunks) == w.dataIn
  }

  /** Priority bytes leave in order and none is lost or repeated. */
  predicate PrioInOrder(w: State)
    requires WellQueued(w)
  {
    Flatten(OfLane(w.log, Prio)) + Queued(w.prio, w.prioOff) == Flatten(w.prioIn)
  }

  // ----- Whole frames -----

  /** A reading of the log as frames: those that are complete, in the order in which they were completed, the
      priority bytes of the one that is not, and whether no data frame came in between. */
  datatype Joined = Joined(frames: seq<Piece>, open: Bytestring, ok: bool)

  function AddPiece(j: Joined, p: Piece): Joined
  {
    if p.lane == Data then Joined(j.frames + [p], j.open, j.ok && j.open == [])
    else if p.fin then Joined(j.frames + [Piece(Prio, j.open + p.bytes, true)], [], j.ok)
    else j.(open := j.open + p.bytes)
  }

  function Join(log: seq<Piece>): Joined
  {
    if log == [] then Joined([], [], true) else AddPiece(Join(log[..|log| - 1]), log[|log| - 1])
  }

  lemma JoinSnoc(log: seq<Piece>, p: Piece)
    ensures Join(log + [p]) == AddPiece(Join(log), p)
  {
    assert (log + [p])[..|log|] == log;
  }

  /** The stream is whole frames, one after the other, followed by the start of at most one frame. */
  predicate Whole(w: State)
    requires FrontOk(w.chunks, w.off)
  {
    var j := Join(w.log);
    j.ok && (j.open == [] || Unfinished(w.head, w.chunks, w.off) == [])
  }

  /** The part of the front frame that is out. */
  function Started(queue: seq<Bytestring>, off: nat): Bytestring
    requires FrontOk(queue, off)
  {
    if queue == [] then [] else queue[0][..off]
  }

  /** The log as frames, each lane in its order. */
  predicate FramesInOrder(w: State)
    requires FrontOk(w.prio, w.prioOff)
  {
    var j := Join(w.log);
    && OfLane(j.frames, Prio) + w.prio == w.prioIn
    && OfLane(j.frames, Data) == OfLane(w.log, Data)
    && j.open == Started(w.prio, w.prioOff)
    && (j.ok ==> PieceBytes(w.log) == PieceBytes(j.frames) + j.open)
  }

  /** ... and whole exactly as long as the buffer was not torn. */
  predicate Framed(w: State)
    requires WellQueued(w)
  {
    FramesInOrder(w) && (w.torn <==> !Whole(w))
  }

  predicate Inv(w: State)
  {
    WellQueued(w) && DataAtomic(w) && PrioInOrder(w) && Framed(w)
  }

  // ----- Logs -----

  lemma {:induction false} LogSnoc(log: seq<Piece>, p: Piece)
    ensures PieceBytes(log + [p]) == PieceBytes(log) + p.bytes
    ensures OfLane(log + [p], p.lane) == OfLane(log, p.lane) + [p.bytes]
    ensures forall l :: l != p.lane ==> OfLane(log + [p], l) == OfLane(log, l)
  {
    if log == [] {
      assert ([] + [p])[1..] == [];
    } else {
      assert (log + [p])[1..] == log[1..] + [p];
      LogSnoc(log[1..], p);
    }
  }

  // ----- Every step keeps the invariant -----

  lemma AskKeeps(w: State, len: nat)
    requires Inv(w)
    ensures Inv(Ask(w, len).1) && Ask(w, len).1 == w.(answers := Ask(w, len).1.answers)
  {
    hide Queued, Unfinished, QueuedFrames, PieceBytes, OfLane, Flatten, NoEmpty;
  }

  /** Taking `n` bytes off the front of a queue. */
  function Advance(queue: seq<Bytestring>, off: nat, n: nat): (seq<Bytestring>, nat)
    requires queue != [] && off + n <= |queue[0]|
  {
    if off + n >= |queue[0]| then (queue[1..], 0) else (queue, off + n)
  }

  lemma AdvanceQueue(queue: seq<Bytestring>, off: nat, n: nat)
    requires queue != [] && 1 <= n && off + n <= |queue[0]| && NoEmpty(queue)
    ensures var (q, o) := Advance(queue, off, n);
            FrontOk(q, o) && NoEmpty(q) && Queued(queue, off) == queue[0][off..off + n] + Queued(q, o)
  {
    hide Flatten;
    if off + n == |queue[0]| {
      assert queue[0][off..] == queue[0][off..off + n];
      QueuedAll(queue[1..]);
    } else {
      var rest := Flatten(queue[1..]);
      assert queue[0][off..] == queue[0][off..off + n] + queue[0][off + n..];
      Assoc(queue[0][off..off + n], queue[0][off + n..], rest);
    }
  }

  lemma QueuedAll(queue: seq<Bytestring>)
    requires FrontOk(queue, 0)
    ensures Queued(queue, 0) == Flatten(queue)
  {
    if queue != [] {
      assert queue[0][0..] == queue[0];
    }
  }

  /** Priority bytes go out only when no data frame is unfinished. */
  lemma EmitPrioKeeps(w: State, n: nat)
    requires Inv(w) && w.prio != [] && 1 <= n <= |w.prio[0]| - w.prioOff
    requires Unfinished(w.head, w.chunks, w.off) == []
    ensures Inv(EmitPrio(w, n))
  {
    hide Queued, Unfinished, QueuedFrames, PieceBytes, OfLane, Flatten, Framed;
    var piece := w.prio[0][w.prioOff..w.prioOff + n];
    var w' := EmitPrio(w, n);
    AdvanceQueue(w.prio, w.prioOff, n);
    LogSnoc(w.log, Piece(Prio, piece, w.prioOff + n >= |w.prio[0]|));
    FlattenSnoc(OfLane(w.log, Prio), piece);
    assert Flatten(OfLane(w.log, Prio)) + (piece + Queued(w'.prio, w'.prioOff)) == Flatten(w.prioIn);
    EmitPrioFramed(w, n);
  }

  /** A priority write call never tears. */
  lemma EmitPrioFramed(w: State, n: nat)
    requires WellQueued(w) && Framed(w) && w.prio != [] && 1 <= n <= |w.prio[0]| - w.prioOff
    requires Unfinished(w.head, w.chunks, w.off) == [] && WellQueued(EmitPrio(w, n))
    ensures Framed(EmitPrio(w, n))
  {
    hide Queued, Unfinished, QueuedFrames, PieceBytes, OfLane, Join, NoEmpty;
    var piece, w' := w.prio[0][w.prioOff..w.prioOff + n], EmitPrio(w, n);
    var j, p := Join(w.log), Piece(Prio, piece, w.prioOff + n >= |w.prio[0]|);
    JoinSnoc(w.log, p);
    LogSnoc(w.log, p);
    Prefixes(w.prio[0], w.prioOff, w.prioOff + n);
    Assoc(PieceBytes(j.frames), j.open, piece);
    if p.fin {
      assert j.open + piece == w.prio[0] by { assert w.prio[0][..w.prioOff + n] == w.prio[0]; }
      LogSnoc(j.frames, Piece(Prio, w.prio[0], true));
      assert w.prio == [w.prio[0]] + w.prio[1..];
      Assoc(OfLane(j.frames, Prio), [w.prio[0]], w.prio[1..]);
      assert Started(w'.prio, 0) == [];
      NoneRight(PieceBytes(Join(w'.log).frames));
    }
  }

  lemma UnfinishedGrows(head: Bytestring, chunks: seq<Bytestring>, off: nat, n: nat)
    requires chunks != [] && off + n < |chunks[0]|
    ensures Unfinished(head, chunks, off + n) == Unfinished(head, chunks, off) + chunks[0][off..off + n]
  {
    var c := chunks[0];
    Prefixes(c, off, off + n);
    assert Unfinished(head, chunks, off + n) == head + c[..off + n];
    assert Unfinished(head, chunks, off) == head + c[..off];
    hide *;
    assert (head + c[..off]) + c[off..off + n] == head + (c[..off] + c[off..off + n]);
  }

  lemma Prefixes(c: Bytestring, i: nat, j: nat)
    requires i <= j <= |c|
    ensures c[..i] + c[i..j] == c[..j]
  {
  }

  lemma UnfinishedEnds(head: Bytestring, chunks: seq<Bytestring>, off: nat)
    requires chunks != [] && NoEmpty(chunks) && off < |chunks[0]|
    ensures Unfinished(head, chunks, off) + chunks[0][off..] == head + chunks[0]
    ensures FrontOk(chunks[1..], 0) && Unfinished([], chunks[1..], 0) == []
    ensures QueuedFrames(head, chunks) == [head + chunks[0]] + QueuedFrames([], chunks[1..])
  {
    assert chunks[0] == chunks[0][..off] + chunks[0][off..];
    if |chunks| > 1 {
      assert [] + chunks[1] == chunks[1];
      assert chunks[1..] == [chunks[1]] + chunks[1..][1..];
    }
  }

  lemma EmitDataKeeps(w: State, n: nat)
    requires Inv(w) && w.chunks != [] && 1 <= n <= |w.chunks[0]| - w.off
    ensures Inv(EmitData(w, n))
    ensures var w' := EmitData(w, n); w'.off == 0 ==> Unfinished(w'.head, w'.chunks, w'.off) == []
  {
    hide Queued, Unfinished, QueuedFrames, PieceBytes, OfLane, Flatten, Framed;
    var w' := EmitData(w, n);
    AdvanceQueue(w.chunks, w.off, n);
    if w.off + n == |w.chunks[0]| {
      UnfinishedEnds(w.head, w.chunks, w.off);
      assert w.chunks[0][w.off..w.off + n] == w.chunks[0][w.off..];
      LogSnoc(w.log, Piece(Data, w.head + w.chunks[0], true));
      Assoc(OfLane(w.log, Data), [w.head + w.chunks[0]], QueuedFrames(w'.head, w'.chunks));
    } else {
      UnfinishedGrows(w.head, w.chunks, w.off, n);
    }
    EmitDataFramed(w, n);
  }

  /** A data write call that gets bytes through tears if and only if a priority frame is unfinished. */
  lemma EmitDataFramed(w: State, n: nat)
    requires WellQueued(w) && Framed(w) && w.chunks != [] && 1 <= n <= |w.chunks[0]| - w.off &&
             WellQueued(EmitData(w, n))
    ensures Framed(EmitData(w, n))
    ensures Whole(w) ==> (Whole(EmitData(w, n)) <==> w.prioOff == 0)
  {
    hide Queued, QueuedFrames, PieceBytes, OfLane, Join, NoEmpty, Unfinished;
    var w', j := EmitData(w, n), Join(w.log);
    OpenIff(w.prio, w.prioOff);
    if w.off + n == |w.chunks[0]| {
      DataFramed(w.log, w.head + w.chunks[0]);
      UnfinishedNone(w'.head, w'.chunks, w'.off);
    } else {
      UnfinishedGrows(w.head, w.chunks, w.off, n);
    }
  }

  lemma OpenIff(queue: seq<Bytestring>, off: nat)
    requires FrontOk(queue, off)
    ensures Started(queue, off) == [] <==> off == 0
  {
  }

  lemma UnfinishedNone(head: Bytestring, chunks: seq<Bytestring>, off: nat)
    requires FrontOk(chunks, off) && head == [] && off == 0
    ensures Unfinished(head, chunks, off) == []
  {
  }

  /** The log with one more data frame. */
  lemma DataFramed(log: seq<Piece>, frame: Bytestring)
    ensures var j := Join(log); var j' := Join(log + [Piece(Data, frame, true)]);
            && j'.open == j.open && (j'.ok <==> j.ok && j.open == [])
            && OfLane(j'.frames, Prio) == OfLane(j.frames, Prio)
            && (OfLane(j.frames, Data) == OfLane(log, Data) ==>
                  OfLane(j'.frames, Data) == OfLane(log + [Piece(Data, frame, true)], Data))
            && (j'.ok && PieceBytes(log) == PieceBytes(j.frames) + j.open ==>
                  PieceBytes(log + [Piece(Data, frame, true)]) == PieceBytes(j'.frames) + j'.open)
  {
    hide PieceBytes, OfLane, Join;
    var p := Piece(Data, frame, true);
    JoinSnoc(log, p);
    LogSnoc(log, p);
    LogSnoc(Join(log).frames, p);
    NoneRight(PieceBytes(Join(log).frames));
    NoneRight(PieceBytes(Join(log).frames) + frame);
  }

  lemma {:induction false} FlushPrioKeeps(w: State)
    requires Inv(w) && Unfinished(w.head, w.chunks, w.off) == []
    ensures Inv(FlushPrio(w).0)
    decreases |w.answers|
  {
    hide Inv, Unfinished, EmitPrio, Ask;
    FlushPrioStep(w);
    if w.prio != [] {
      var (a, w1) := Ask(w, |w.prio[0]| - w.prioOff);
      if a.Wrote? {
        FlushPrioKeeps(EmitPrio(w1, a.n));
      }
    }
  }

  lemma FlushPrioStep(w: State)
    requires Inv(w) && Unfinished(w.head, w.chunks, w.off) == []
    ensures FrontOk(w.prio, w.prioOff)
    ensures w.prio != [] ==>
      var (a, w1) := Ask(w, |w.prio[0]| - w.prioOff);
      && w1.prio == w.prio && w1.prioOff == w.prioOff && Inv(w1)
      && (a.Wrote? ==> 1 <= a.n <= |w.prio[0]| - w.prioOff)
      && (a.Wrote? ==>
            var w2 := EmitPrio(w1, a.n);
            && Inv(w2) && |w2.answers| < |w.answers| && FrontOk(w2.prio, w2.prioOff)
            && FrontOk(w2.chunks, w2.off) && Unfinished(w2.head, w2.chunks, w2.off) == [])
  {
    hide Queued, Unfinished, QueuedFrames, PieceBytes, OfLane, Flatten, NoEmpty, Ask, DataAtomic, PrioInOrder;
    if w.prio != [] {
      var len := |w.prio[0]| - w.prioOff;
      AskKeeps(w, len);
      if Ask(w, len).0.Wrote? {
        EmitPrioKeeps(Ask(w, len).1, Ask(w, len).0.n);
      }
    }
  }

  /** What a turn of the priority loop is, by definition ... */
  lemma FlushPrioDef(w: State)
    requires FrontOk(w.prio, w.prioOff)
    ensures w.prio == [] ==> FlushPrio(w) == (w, true)
    ensures w.prio != [] ==>
              var (a, w1) := Ask(w, |w.prio[0]| - w.prioOff);
              && (a.Again? ==> FlushPrio(w) == (w1, false))
              && (a.Failed? ==> FlushPrio(w) == (w1, true))
              && (a.Wrote? && w1.prio == w.prio && w1.prioOff == w.prioOff && w.prioOff + a.n <= |w.prio[0]| ==>
                    var w2 := EmitPrio(w1, a.n);
                    FlushPrio(w) == if FrontOk(w2.prio, w2.prioOff) then FlushPrio(w2) else (w2, true))
  {
    hide EmitPrio, Ask;
  }

  lemma {:induction false} FlushKeeps(w: State)
    requires Inv(w)
    ensures Inv(Flush(w).0)
    decreases |w.answers|
  {
    hide EmitData, Ask, FlushPrio, NoEmpty, DataAtomic, PrioInOrder, Queued, Unfinished;
    if w.chunks == [] {
      NoneUnfinished(w);
      FlushPrioKeeps(w);
    } else {
      var (a, w1) := Ask(w, |w.chunks[0]| - w.off);
      AskKeeps(w, |w.chunks[0]| - w.off);
      if a.Wrote? {
        var w2 := EmitData(w1, a.n);
        EmitDataKeeps(w1, a.n);
        EmitDataAnswers(w1, a.n);
        if w2.off == 0 {
          FlushPrioKeeps(w2);
          FlushKeeps(FlushPrio(w2).0);
        } else {
          FlushKeeps(w2);
        }
      }
    }
  }

  lemma NoneUnfinished(w: State)
    requires Inv(w) && w.chunks == []
    ensures Unfinished(w.head, w.chunks, w.off) == []
  {
  }

  lemma EmitDataAnswers(w: State, n: nat)
    requires w.chunks != [] && w.off + n <= |w.chunks[0]|
    ensures EmitData(w, n).answers == w.answers
  {
  }

  lemma FlattenTail(a: seq<Bytestring>, x: Bytestring)
    requires a != []
    ensures Flatten((a + [x])[1..]) == Flatten(a[1..]) + x
  {
    assert (a + [x])[1..] == a[1..] + [x];
    FlattenSnoc(a[1..], x);
  }

  lemma EnqueueKeeps(w: State, frame: Bytestring, done: nat)
    requires WellQueued(w) && PrioInOrder(w) && FramesInOrder(w) && done < |frame|
    requires var j := Join(w.log);
             w.torn <==>
             !(j.ok && (j.open == [] ||
                        if w.chunks == [] then done == 0 else Unfinished(w.head, w.chunks, w.off) == []))
    requires OfLane(w.log, Data) + QueuedFrames(w.head, w.chunks) == w.dataIn
    requires if w.chunks == [] then w.out == PieceBytes(w.log) + frame[..done]
             else done == 0 && w.out == PieceBytes(w.log) + Unfinished(w.head, w.chunks, w.off)
    ensures Inv(Enqueue(w, frame, done))
  {
    hide PieceBytes, OfLane, Flatten, Queued, Unfinished, QueuedFrames, Join, Started;
    var w' := Enqueue(w, frame, done);
    if w.chunks == [] {
      EnqueueFirst(frame, done);
      assert w'.chunks == [frame[done..]] && w.off == 0;
    } else {
      EnqueueMore(w.head, w.chunks, w.off, frame);
      assert frame[0..] == frame && w'.chunks == w.chunks + [frame];
    }
    assert OfLane(w.log, Data) + (QueuedFrames(w.head, w.chunks) + [frame]) ==
           (OfLane(w.log, Data) + QueuedFrames(w.head, w.chunks)) + [frame];
  }

  lemma EnqueueFirst(frame: Bytestring, done: nat)
    requires done < |frame|
    ensures FrontOk([frame[done..]], 0) && NoEmpty([frame[done..]])
    ensures |Queued([frame[done..]], 0)| == |frame| - done && |Queued([], 0)| == 0
    ensures QueuedFrames(frame[..done], [frame[done..]]) == QueuedFrames([], []) + [frame]
    ensures forall head :: QueuedFrames(head, []) == []
    ensures Unfinished(frame[..done], [frame[done..]], 0) == frame[..done]
  {
    var one := [frame[done..]];
    assert one[1..] == [] && one[0][0..] == one[0] && one[0][..0] == [];
    assert frame[..done] + frame[done..] == frame;
    assert Flatten<byte>([]) == [];
    assert one[0][0..] + [] == one[0];
  }

  lemma EnqueueMore(head: Bytestring, chunks: seq<Bytestring>, off: nat, frame: Bytestring)
    requires chunks != [] && NoEmpty(chunks) && off < |chunks[0]| && frame != []
    ensures FrontOk(chunks + [frame], off) && NoEmpty(chunks + [frame])
    ensures Queued(chunks + [frame], off) == Queued(chunks, off) + frame
    ensures QueuedFrames(head, chunks + [frame]) == QueuedFrames(head, chunks) + [frame]
    ensures Unfinished(head, chunks + [frame], off) == Unfinished(head, chunks, off)
  {
    QueuedSnoc(chunks, off, frame);
    hide Queued, Flatten;
    assert (chunks + [frame])[1..] == chunks[1..] + [frame];
    assert [head + chunks[0]] + (chunks[1..] + [frame]) == ([head + chunks[0]] + chunks[1..]) + [frame];
  }

  lemma DirectWriteKeeps(w: State, frame: Bytestring)
    requires Inv(w) && frame != [] && w.chunks == []
    ensures Inv(DirectWrite(w, frame).0)
  {
    hide PieceBytes, OfLane, Flatten, Queued, QueuedFrames, Join, Ask;
    var (a, w1) := Ask(w, |frame|);
    AskKeeps(w, |frame|);
    NoneUnfinished(w);
    NoFrames(w.head);
    NoneRight(PieceBytes(w.log));
    match a
    case Wrote(n) =>
      OpenIff(w.prio, w.prioOff);
      if n < |frame| {
        EnqueueKeeps(w1.(out := w1.out + frame[..n], torn := w1.torn || w1.prioOff > 0), frame, n);
      } else {
        LogSnoc(w1.log, Piece(Data, frame, true));
        DataFramed(w1.log, frame);
        NoneRight(OfLane(w.log, Data));
        NoneRight(OfLane(w.log, Data) + [frame]);
        assert frame[..n] == frame;
        NoneRight(PieceBytes(w.log) + frame);
      }
    case Again =>
      assert frame[..0] == [];
      EnqueueKeeps(w1, frame, 0);
    case Failed =>
  }

  lemma NoFrames(head: Bytestring)
    ensures QueuedFrames(head, []) == []
  {
  }

  lemma WriteKeeps(w: State, frame: Bytestring)
    requires Inv(w) && frame != []
    ensures Inv(Write(w, frame).0)
  {
    hide Flush, DirectWrite, Queued, QueuedFrames, Unfinished, Join, PieceBytes, OfLane, Flatten, Started;
    if w.chunks != [] {
      FlushKeeps(w);
      var w1 := Flush(w).0;
      if w1.chunks != [] {
        EnqueueKeeps(w1, frame, 0);
      } else {
        DirectWriteKeeps(w1, frame);
      }
    } else {
      DirectWriteKeeps(w, frame);
    }
  }

  lemma QueuedSnoc(queue: seq<Bytestring>, off: nat, frame: Bytestring)
    requires FrontOk(queue, off) && frame != []
    ensures FrontOk(queue + [frame], off) && Queued(queue + [frame], off) == Queued(queue, off) + frame
  {
    if queue == [] {
      assert frame[0..] == frame && (queue + [frame])[1..] == [];
    } else {
      FlattenTail(queue, frame);
    }
  }

  lemma WritePriorityKeeps(w: State, frame: Bytestring)
    requires Inv(w) && frame != []
    ensures Inv(WritePriority(w, frame))
  {
    hide Queued, Unfinished, QueuedFrames, PieceBytes, OfLane, Flatten;
    var w' := WritePriority(w, frame);
    FlattenSnoc(w.prioIn, frame);
    QueuedSnoc(w.prio, w.prioOff, frame);
    assert Flatten(OfLane(w.log, Prio)) + (Queued(w.prio, w.prioOff) + frame) == Flatten(w.prioIn) + frame;
    hide Join;
    Assoc(OfLane(Join(w.log).frames, Prio), w.prio, [frame]);
    StartedSame(w.prio, w.prioOff, frame);
  }

  lemma StartedSame(queue: seq<Bytestring>, off: nat, frame: Bytestring)
    requires FrontOk(queue, off) && frame != []
    ensures FrontOk(queue + [frame], off) && Started(queue + [frame], off) == Started(queue, off)
  {
  }

  // ----- Runs -----

  datatype Op = DoWrite(frame: Bytestring) | DoWritePriority(frame: Bytestring) | DoFlush

  predicate ValidOp(op: Op)
  {
    op.DoFlush? || op.frame != []
  }

  function Apply(w: State, op: Op): State
    requires WellQueued(w) && ValidOp(op)
  {
    match op
    case DoWrite(f) => Write(w, f).0
    case DoWritePriority(f) => WritePriority(w, f)
    case DoFlush => Flush(w).0
  }

  lemma ApplyKeeps(w: State, op: Op)
    requires Inv(w) && ValidOp(op)
    ensures Inv(Apply(w, op))
  {
    match op
    case DoWrite(f) => WriteKeeps(w, f);
    case DoWritePriority(f) => WritePriorityKeeps(w, f);
    case DoFlush => FlushKeeps(w);
  }

  ghost predicate Reaches(w: State, ops: seq<Op>, w': State)
    decreases |ops|
  {
    if ops == [] then w' == w
    else WellQueued(w) && ValidOp(ops[0]) && Reaches(Apply(w, ops[0]), ops[1..], w')
  }

  lemma {:induction false} RunKeeps(w: State, ops: seq<Op>, w': State)
    requires Inv(w) && Reaches(w, ops, w')
    ensures Inv(w')
    decreases |ops|
  {
    if ops != [] {
      ApplyKeeps(w, ops[0]);
      RunKeeps(Apply(w, ops[0]), ops[1..], w');
    }
  }

  /** For every sequence of operations and all answers of the socket: `total_size` is the number of bytes
      queued, each lane is first in first out with emitted plus queued equal to accepted, and no priority
      byte is inside a data frame. The stream is whole frames of both lanes, each lane in its order, followed
      by the start of at most one frame, if and only if no data write call got bytes through while a priority
      frame was unfinished. */
  lemma BufferExact(answers: seq<Answer>, ops: seq<Op>, w: State)
    requires Reaches(Init(answers), ops, w)
    ensures WellQueued(w)
    ensures w.out == PieceBytes(w.log) + Unfinished(w.head, w.chunks, w.off)
    ensures OfLane(w.log, Data) + QueuedFrames(w.head, w.chunks) == w.dataIn
    ensures Flatten(OfLane(w.log, Prio)) + Queued(w.prio, w.prioOff) == Flatten(w.prioIn)
    ensures !w.torn <==> Whole(w)
    ensures var j := Join(w.log);
            && OfLane(j.frames, Data) + QueuedFrames(w.head, w.chunks) == w.dataIn
            && OfLane(j.frames, Prio) + w.prio == w.prioIn
            && (Whole(w) ==> w.out == PieceBytes(j.frames) + j.open + Unfinished(w.head, w.chunks, w.off))
  {
    InitInv(answers);
    hide Inv;
    RunKeeps(Init(answers), ops, w);
    InvExact(w);
  }

  lemma InitInv(answers: seq<Answer>)
    ensures Inv(Init(answers))
  {
  }

  lemma InvExact(w: State)
    requires Inv(w)
    ensures WellQueued(w)
    ensures w.out == PieceBytes(w.log) + Unfinished(w.head, w.chunks, w.off)
    ensures OfLane(w.log, Data) + QueuedFrames(w.head, w.chunks) == w.dataIn
    ensures Flatten(OfLane(w.log, Prio)) + Queued(w.prio, w.prioOff) == Flatten(w.prioIn)
    ensures !w.torn <==> Whole(w)
    ensures var j := Join(w.log);
            && OfLane(j.frames, Data) + QueuedFrames(w.head, w.chunks) == w.dataIn
            && OfLane(j.frames, Prio) + w.prio == w.prioIn
            && (Whole(w) ==> w.out == PieceBytes(j.frames) + j.open + Unfinished(w.head, w.chunks, w.off))
  {
    hide Join, OfLane, PieceBytes, Queued, QueuedFrames, Unfinished, Flatten, Started, NoEmpty;
  }

  lemma FlushTears(w: State, a: byte, b: byte)
    requires w.prio == [[a, b]] && w.prioOff == 0 && w.chunks == [] && w.off == 0
    requires |w.answers| >= 2 && w.answers[0] == Wrote(1) && w.answers[1] == Again
    ensures var w' := Flush(w).0;
            && w'.out == w.out + [a] && w'.prio == w.prio && w'.prioOff == 1 && w'.chunks == [] && w'.off == 0
            && w'.total == w.total - 1 && w'.answers == w.answers[2..]
  {
    var (_, w1) := Ask(w, 2);
    var e := EmitPrio(w1, 1);
    assert w.prio[0][0..1] == [a];
    assert e.answers[0] == Again;
    assert FlushPrio(e) == (Ask(e, 1).1, false);
    assert w.answers[1..][1..] == w.answers[2..];
  }

  lemma FirstQueued(a: byte, b: byte)
    ensures Queued([[a, b]], 0) == [a, b] && Queued([[a, b]], 1) == [b]
  {
    assert [[a, b]][1..] == [];
    assert [a, b][1..] == [b];
  }

  /** A priority frame that is split lets a data frame into its middle: the next write goes out at once. */
  lemma SplitPriorityTears(a: byte, b: byte, d: Bytestring)
    requires d != []
    ensures var w := Init([Wrote(1), Again, Wrote(|d|)]);
            var ops := [DoWritePriority([a, b]), DoFlush, DoWrite(d)];
            exists w' :: Reaches(w, ops, w') && w'.out == [a] + d && w'.prio == [[a, b]] && w'.prioOff == 1
  {
    var w := Init([Wrote(1), Again, Wrote(|d|)]);
    var ops := [DoWritePriority([a, b]), DoFlush, DoWrite(d)];
    var w1 := WritePriority(w, [a, b]);
    FirstQueued(a, b);
    FlushTears(w1, a, b);
    var w2 := Flush(w1).0;
    assert w2.answers == [Wrote(|d|)];
    hide Flush, Flatten;
    var w3 := Write(w2, d).0;
    assert ops[1..] == [DoFlush, DoWrite(d)] && ops[1..][1..] == [DoWrite(d)];
    assert Reaches(w2, [DoWrite(d)], w3);
    assert Reaches(w1, ops[1..], w3);
    assert Reaches(w, ops, w3);
  }
}
