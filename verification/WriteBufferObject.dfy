/** `struct WriteBuffer` as it runs, and what the reader at the other end makes of its stream. */
module WriteBufferObject {
  import opened Bytes
  import opened WriteBuffer
  import FrameReader
  import Segments

  /** What happened so far, as in `WriteBuffer.State`. */
  datatype Record = Record(head: Bytestring, log: seq<Piece>, torn: bool, dataIn: seq<Bytestring>,
                           prioIn: seq<Bytestring>)

  /** The buffer together with the socket it writes to: `answers` are the socket's answers to come and
      `out` is what it has taken. */
  class Buffer {
    var priorityChunks: seq<Bytestring>
    var priorityReadOffset: nat
    var chunks: seq<Bytestring>
    var readOffset: nat
    var totalSize: int
    var answers: seq<Answer>
    var out: Bytestring
    ghost var record: Record

    ghost function View(): State
      reads this
    {
      State(priorityChunks, priorityReadOffset, chunks, readOffset, totalSize, answers, out,
            record.head, record.log, record.torn, record.dataIn, record.prioIn)
    }

    constructor (answers: seq<Answer>)
      ensures View() == Init(answers)
    {
      priorityChunks, priorityReadOffset, chunks, readOffset, totalSize := [], 0, [], 0, 0;
      this.answers, out := answers, [];
      record := Record([], [], false, [], []);
    }

    /** The system call: the socket takes the next of its answers. */
    method SocketWrite(len: nat) returns (a: Answer)
      modifies this`answers
      ensures (a, View()) == Ask(old(View()), len)
    {
      if answers == [] {
        return Again;
      }
      a := answers[0];
      answers := answers[1..];
      if a.Wrote? {
        a := Wrote(if a.n < 1 then 1 else if a.n > len then len else a.n);
      }
    }

    /** Bytes of the front priority frame that the socket took. */
    method TakePriority(n: nat)
      requires priorityChunks != [] && priorityReadOffset + n <= |priorityChunks[0]|
      modifies this
      ensures View() == EmitPrio(old(View()), n)
    {
      var piece := priorityChunks[0][priorityReadOffset..priorityReadOffset + n];
      out := out + piece;
      record := record.(log := record.log + [Piece(Prio, piece, priorityReadOffset + n >= |priorityChunks[0]|)]);
      priorityReadOffset := priorityReadOffset + n;
      totalSize := totalSize - n;
      if priorityReadOffset >= |priorityChunks[0]| {
        priorityChunks := priorityChunks[1..];
        priorityReadOffset := 0;
      }
    }

    /** Bytes of the front data chunk that the socket took. */
    method TakeData(n: nat)
      requires chunks != [] && readOffset + n <= |chunks[0]|
      modifies this
      ensures View() == EmitData(old(View()), n)
    {
      out := out + chunks[0][readOffset..readOffset + n];
      record := record.(torn := record.torn || priorityReadOffset > 0);
      readOffset := readOffset + n;
      totalSize := totalSize - n;
      if readOffset >= |chunks[0]| {
        record := record.(log := record.log + [Piece(Data, record.head + chunks[0], true)], head := []);
        chunks := chunks[1..];
        readOffset := 0;
      }
    }

    method FlushPriorityUnlocked() returns (ok: bool)
      requires Inv(View()) && Unfinished(record.head, chunks, readOffset) == []
      modifies this
      ensures (View(), ok) == FlushPrio(old(View()))
      ensures Inv(View())
    {
      hide Inv, Unfinished, FlushPrio, EmitPrio, Ask, FrontOk;
      ghost var start := View();
      ghost var _, _, _ := PrioTurn(start);
      while true
        invariant Inv(View()) && FrontOk(chunks, readOffset) && Unfinished(record.head, chunks, readOffset) == []
        invariant FrontOk(start.prio, start.prioOff) && FrontOk(View().prio, View().prioOff)
        invariant FlushPrio(View()) == FlushPrio(start)
        decreases |answers|
      {
        ghost var w := View();
        ghost var _, _, _ := PrioTurn(w);
        if priorityChunks == [] {
          return true;
        }
        var a := SocketWrite(|priorityChunks[0]| - priorityReadOffset);
        match a
        case Wrote(n) =>
          TakePriority(n);
        case Again =>
          return false;
        case Failed =>
          return true;
      }
    }

    method FlushUnlocked() returns (ok: bool)
      requires Inv(View())
      modifies this
      ensures (View(), ok) == Flush(old(View()))
      ensures Inv(View())
    {
      hide Inv, Unfinished, Flush, FlushPrio, EmitData, Ask, FrontOk;
      ghost var start := View();
      InvFronts(start);
      while chunks != []
        invariant Inv(View()) && Fronts(View()) && Fronts(start)
        invariant Flush(View()) == Flush(start)
        decreases |answers|
      {
        ghost var w := View();
        DataTurn(w);
        var a := SocketWrite(|chunks[0]| - readOffset);
        match a
        case Wrote(n) =>
          TakeData(n);
          if readOffset == 0 {
            ok := FlushPriorityUnlocked();
            InvFronts(View());
            if !ok {
              return false;
            }
          }
        case Again =>
          return false;
        case Failed =>
          return true;
      }
      NothingQueued(View());
      ok := FlushPriorityUnlocked();
    }

    method WriteFrame(frame: Bytestring) returns (ret: int)
      requires Inv(View()) && frame != []
      modifies this
      ensures (View(), ret) == Write(old(View()), frame)
      ensures Inv(View())
    {
      ghost var w := View();
      WriteKeeps(w, frame);
      InvFronts(w);
      hide Inv, Flush, FlushPrio, Ask, DirectWrite, FrontOk, Unfinished, Enqueue;
      if chunks != [] {
        var _ := FlushUnlocked();
        if chunks != [] {
          QueueFrame(frame);
          return 1;
        }
      }
      ret := DirectWriteFrame(frame);
    }

    /** Appends a whole frame behind the chunks already queued. */
    method QueueFrame(frame: Bytestring)
      requires frame != [] && chunks != []
      modifies this
      ensures View() == Enqueue(old(View()), frame, 0)
    {
      assert frame[0..] == frame;
      chunks := chunks + [frame];
      totalSize := totalSize + |frame|;
      record := record.(dataIn := record.dataIn + [frame]);
    }

    /** The part of `write` that runs when no data chunk is queued. */
    method DirectWriteFrame(frame: Bytestring) returns (ret: int)
      requires frame != [] && chunks == []
      modifies this
      ensures (View(), ret) == DirectWrite(old(View()), frame)
    {
      var a := SocketWrite(|frame|);
      match a
      case Wrote(n) =>
        out := out + frame[..n];
        record := record.(torn := record.torn || priorityReadOffset > 0, dataIn := record.dataIn + [frame]);
        if n < |frame| {
          chunks, record := chunks + [frame[n..]], record.(head := frame[..n]);
          totalSize := totalSize + (|frame| - n);
          return 1;
        }
        assert frame[..n] == frame;
        record := record.(log := record.log + [Piece(Data, frame, true)]);
        return 0;
      case Again =>
        assert frame[0..] == frame && frame[..0] == [];
        chunks, record := chunks + [frame], record.(head := [], dataIn := record.dataIn + [frame]);
        totalSize := totalSize + |frame|;
        return 1;
      case Failed =>
        return -1;
    }

    method WritePriorityFrame(frame: Bytestring)
      modifies this
      ensures View() == WritePriority(old(View()), frame)
    {
      priorityChunks := priorityChunks + [frame];
      totalSize := totalSize + |frame|;
      record := record.(prioIn := record.prioIn + [frame]);
    }

    /** `clear`, called before the buffer is used with a new socket. */
    method Clear(newAnswers: seq<Answer>)
      modifies this
      ensures View() == Init(newAnswers)
    {
      priorityChunks, priorityReadOffset, chunks, readOffset, totalSize := [], 0, [], 0, 0;
      answers, out := newAnswers, [];
      record := Record([], [], false, [], []);
    }
  }

  predicate Fronts(w: State)
  {
    FrontOk(w.prio, w.prioOff) && FrontOk(w.chunks, w.off)
  }

  lemma InvFronts(w: State)
    requires Inv(w)
    ensures Fronts(w) && FrontOk(w.prio, w.prioOff) && FrontOk(w.chunks, w.off)
  {
  }

  lemma NothingQueued(w: State)
    requires Inv(w) && w.chunks == []
    ensures FrontOk(w.chunks, w.off) && Unfinished(w.head, w.chunks, w.off) == []
    ensures FrontOk(w.prio, w.prioOff) && Flush(w) == FlushPrio(w)
  {
  }

  /** ... and of the data loop. */
  lemma FlushDef(w: State)
    requires Fronts(w) && w.chunks != []
    ensures var (a, w1) := Ask(w, |w.chunks[0]| - w.off);
              && (a.Again? ==> Flush(w) == (w1, false))
              && (a.Failed? ==> Flush(w) == (w1, true))
              && (a.Wrote? && w1.chunks == w.chunks && w1.off == w.off && w.off + a.n <= |w.chunks[0]| ==>
                    var w2 := EmitData(w1, a.n);
                    && (w2.off != 0 && Fronts(w2) ==> Flush(w) == Flush(w2))
                    && (w2.off == 0 && FrontOk(w2.prio, w2.prioOff) ==>
                          var (w3, ok) := FlushPrio(w2);
                          (!ok ==> Flush(w) == (w3, false)) && (ok && Fronts(w3) ==> Flush(w) == Flush(w3))))
  {
    hide EmitData, Ask, FlushPrio;
  }

  /** One turn of the priority loop. */
  lemma PrioTurn(w: State) returns (a: Answer, w1: State, w2: State)
    requires Inv(w) && Unfinished(w.head, w.chunks, w.off) == []
    ensures FrontOk(w.prio, w.prioOff) && FrontOk(w.chunks, w.off)
    ensures w.prio == [] ==> FlushPrio(w) == (w, true)
    ensures w.prio != [] ==> |w.prio[0]| >= w.prioOff && (a, w1) == Ask(w, |w.prio[0]| - w.prioOff)
    ensures w.prio != [] ==> Inv(w1) && w1.prio == w.prio && w1.prioOff == w.prioOff
    ensures w.prio != [] && a.Again? ==> FlushPrio(w) == (w1, false)
    ensures w.prio != [] && a.Failed? ==> FlushPrio(w) == (w1, true)
    ensures w.prio != [] && a.Wrote? ==> w.prioOff + a.n <= |w.prio[0]| && w2 == EmitPrio(w1, a.n)
    ensures w.prio != [] && a.Wrote? ==>
      && Inv(w2) && |w2.answers| < |w.answers| && FrontOk(w2.prio, w2.prioOff) && FrontOk(w2.chunks, w2.off)
      && Unfinished(w2.head, w2.chunks, w2.off) == [] && FlushPrio(w) == FlushPrio(w2)
  {
    hide Inv, Unfinished, EmitPrio, Ask, FrontOk, FlushPrio;
    InvFronts(w);
    FlushPrioDef(w);
    w1, w2, a := w, w, Again;
    if w.prio != [] {
      FlushPrioStep(w);
      var r := Ask(w, |w.prio[0]| - w.prioOff);
      a, w1 := r.0, r.1;
      if a.Wrote? {
        w2 := EmitPrio(w1, a.n);
      }
    }
  }

  /** One turn of the data loop. */
  lemma DataTurn(w: State)
    requires Inv(w) && w.chunks != []
    ensures Fronts(w) && FrontOk(w.chunks, w.off) && FrontOk(w.prio, w.prioOff) && |w.chunks[0]| >= w.off
    ensures
      var (a, w1) := Ask(w, |w.chunks[0]| - w.off);
      && Inv(w1) && w1.chunks == w.chunks && w1.off == w.off
      && (a.Again? ==> Flush(w) == (w1, false))
      && (a.Failed? ==> Flush(w) == (w1, true))
      && (a.Wrote? ==>
            && w.off + a.n <= |w.chunks[0]|
            && var w2 := EmitData(w1, a.n);
            && Inv(w2) && |w2.answers| < |w.answers| && Fronts(w2)
            && FrontOk(w2.chunks, w2.off) && FrontOk(w2.prio, w2.prioOff)
            && (w2.off != 0 ==> Flush(w) == Flush(w2))
            && (w2.off == 0 ==>
                  && Unfinished(w2.head, w2.chunks, w2.off) == []
                  && var (w3, ok) := FlushPrio(w2);
                  && |w3.answers| < |w.answers|
                  && (!ok ==> Flush(w) == (w3, false))
                  && (ok ==> Fronts(w3) && Flush(w) == Flush(w3))))
  {
    hide EmitData, Ask, FlushPrio, Flush, Inv, Unfinished;
    InvFronts(w);
    FlushDef(w);
    var (a, w1) := Ask(w, |w.chunks[0]| - w.off);
    AskKeeps(w, |w.chunks[0]| - w.off);
    if a.Wrote? {
      var w2 := EmitData(w1, a.n);
      EmitDataKeeps(w1, a.n);
      EmitDataAnswers(w1, a.n);
      InvFronts(w2);
      if w2.off == 0 {
        FlushPrioKeeps(w2);
        InvFronts(FlushPrio(w2).0);
      }
    }
  }

  // ----- At the other end -----

  /** `f` is the wire form of a frame the reader accepts. */
  ghost predicate IsFrame(shut: byte, f: Bytestring)
  {
    exists body :: FrameReader.WellFormed(shut, body) && f == FrameReader.EncFrame(body)
  }

  ghost predicate AllFrames(shut: byte, fs: seq<Bytestring>)
  {
    forall f :: f in fs ==> IsFrame(shut, f)
  }

  lemma {:induction false} LogFrames(shut: byte, log: seq<Piece>) returns (bodies: seq<Bytestring>)
    requires AllFrames(shut, OfLane(log, Data)) && AllFrames(shut, OfLane(log, Prio))
    ensures |bodies| == |log| && (forall b :: b in bodies ==> FrameReader.WellFormed(shut, b))
    ensures forall i :: 0 <= i < |log| ==> log[i].bytes == FrameReader.EncFrame(bodies[i])
    ensures Segments.EncAll(FrameReader.EncFrame, bodies) == PieceBytes(log)
  {
    if log == [] {
      bodies := [];
    } else {
      var rest, lane := log[1..], log[0].lane;
      assert OfLane(log, lane) == [log[0].bytes] + OfLane(rest, lane);
      assert IsFrame(shut, log[0].bytes) by {
        assert log[0].bytes in OfLane(log, lane);
      }
      var body :| FrameReader.WellFormed(shut, body) && log[0].bytes == FrameReader.EncFrame(body);
      forall l: Lane, f | f in OfLane(rest, l)
        ensures f in OfLane(log, l)
      {
      }
      var tail := LogFrames(shut, rest);
      bodies := [body] + tail;
      assert bodies[1..] == tail;
    }
  }

  lemma {:induction false} EncAllLength(xs: seq<Bytestring>, ys: seq<Bytestring>)
    requires xs <= ys && |xs| < |ys|
    ensures |Segments.EncAll(FrameReader.EncFrame, xs)| + |FrameReader.EncFrame(ys[|xs|])|
            <= |Segments.EncAll(FrameReader.EncFrame, ys)|
  {
    if xs != [] {
      EncAllLength(xs[1..], ys[1..]);
      assert ys[1..][|xs| - 1] == ys[|xs|];
    }
  }

  /** As long as the buffer was not torn, the reader at the other end, however its reads are cut, dispatches
      exactly the frames that left completely: the two lanes interleaved, each in its own order. */
  lemma ReadBack(shut: byte, w: State, pieces: seq<Bytestring>) returns (bodies: seq<Bytestring>)
    requires Inv(w) && !w.torn && AllFrames(shut, w.dataIn) && AllFrames(shut, w.prioIn)
    requires Flatten(pieces) == w.out
    ensures var frames := Join(w.log).frames;
            |bodies| == |frames| && forall i :: 0 <= i < |frames| ==> frames[i].bytes == FrameReader.EncFrame(bodies[i])
    ensures Segments.Feed(FrameReader.FrameParser(shut), [], pieces).0 == bodies
  {
    hide OfLane, PieceBytes, FrameReader.EncFrame, FrameReader.WellFormed, Flatten, Queued, QueuedFrames, AllFrames,
      Unfinished,
      Inv, Join, Started;
    InvExact(w);
    var j := Join(w.log);
    SubFrames(shut, OfLane(j.frames, Data), QueuedFrames(w.head, w.chunks));
    SubFrames(shut, OfLane(j.frames, Prio), w.prio);
    bodies := LogFrames(shut, j.frames);
    var done := PieceBytes(j.frames);
    var rest := Unfinished(w.head, w.chunks, w.off);
    NoneRight(done);
    NoneRight(done + j.open);
    if j.open == [] && rest == [] {
      Finish(shut, bodies, bodies, w.out, pieces);
    } else {
      var body, tail;
      if j.open == [] {
        body, tail := NextFrame(shut, w);
        Longer(done, rest, tail);
      } else {
        body, tail := NextPriority(shut, w);
        Longer(done, j.open, tail);
      }
      Segments.EncAllConcat(FrameReader.EncFrame, bodies, [body]);
      OneFrame(body);
      Finish(shut, bodies, bodies + [body], w.out, pieces);
    }
  }

  lemma Longer(a: Bytestring, b: Bytestring, c: Bytestring)
    requires c != []
    ensures a + (b + c) == (a + b) + c && a <= a + b <= a + (b + c) && |a + b| < |a + (b + c)|
  {
  }

  /** The data frame at the front of the queue: what of it has gone out, and what has not. */
  lemma NextFrame(shut: byte, w: State) returns (body: Bytestring, tail: Bytestring)
    requires Inv(w) && AllFrames(shut, w.dataIn) && Unfinished(w.head, w.chunks, w.off) != []
    ensures FrameReader.WellFormed(shut, body) && tail != []
    ensures FrameReader.EncFrame(body) == Unfinished(w.head, w.chunks, w.off) + tail
  {
    hide OfLane, PieceBytes, FrameReader.EncFrame, FrameReader.WellFormed, Flatten, Queued, NoEmpty, PrioInOrder,
      Framed;
    var next := w.head + w.chunks[0];
    assert next == QueuedFrames(w.head, w.chunks)[0];
    assert w.dataIn[|OfLane(w.log, Data)|] == next;
    assert IsFrame(shut, next);
    body :| FrameReader.WellFormed(shut, body) && next == FrameReader.EncFrame(body);
    tail := w.chunks[0][w.off..];
    hide *;
    assert w.chunks[0] == w.chunks[0][..w.off] + w.chunks[0][w.off..];
  }

  /** The same for the priority frame at the front. */
  lemma NextPriority(shut: byte, w: State) returns (body: Bytestring, tail: Bytestring)
    requires Inv(w) && AllFrames(shut, w.prioIn) && Join(w.log).open != []
    ensures FrameReader.WellFormed(shut, body) && tail != []
    ensures FrameReader.EncFrame(body) == Join(w.log).open + tail
  {
    hide OfLane, PieceBytes, FrameReader.EncFrame, FrameReader.WellFormed, Flatten, Queued, NoEmpty, PrioInOrder,
      DataAtomic,
      Join, Unfinished;
    var next := w.prio[0];
    assert w.prioIn[|OfLane(Join(w.log).frames, Prio)|] == next;
    assert IsFrame(shut, next);
    body :| FrameReader.WellFormed(shut, body) && next == FrameReader.EncFrame(body);
    tail := next[w.prioOff..];
    assert next == next[..w.prioOff] + next[w.prioOff..];
  }

  lemma OneFrame(body: Bytestring)
    ensures Segments.EncAll(FrameReader.EncFrame, [body]) == FrameReader.EncFrame(body)
  {
    var one := [body];
    assert one[1..] == [];
  }

  lemma SubFrames(shut: byte, a: seq<Bytestring>, b: seq<Bytestring>)
    requires AllFrames(shut, a + b)
    ensures AllFrames(shut, a)
  {
    assert forall f :: f in a ==> f in a + b;
  }

  lemma Finish(shut: byte, bodies: seq<Bytestring>, all: seq<Bytestring>, out: Bytestring, pieces: seq<Bytestring>)
    requires bodies <= all && |all| <= |bodies| + 1 && forall b :: b in all ==> FrameReader.WellFormed(shut, b)
    requires Flatten(pieces) == out <= Segments.EncAll(FrameReader.EncFrame, all)
    requires Segments.EncAll(FrameReader.EncFrame, bodies) <= out
    requires |bodies| < |all| ==> |out| < |Segments.EncAll(FrameReader.EncFrame, all)|
    ensures Segments.Feed(FrameReader.FrameParser(shut), [], pieces).0 == bodies
  {
    FrameReader.ReaderExact(shut, all, pieces);
    var r := Segments.Feed(FrameReader.FrameParser(shut), [], pieces);
    hide *;
    OnlyCut(bodies, all, out, r.0, r.1);
  }

  /** There is only one way to cut the stream into whole frames and an unfinished one. */
  lemma OnlyCut(bodies: seq<Bytestring>, all: seq<Bytestring>, out: Bytestring, xs: seq<Bytestring>, rest: Bytestring)
    requires bodies <= all && |all| <= |bodies| + 1
    requires Segments.ExactCut(FrameReader.EncFrame, all, out, xs, rest)
    requires Segments.EncAll(FrameReader.EncFrame, bodies) <= out
    requires |bodies| < |all| ==> |out| < |Segments.EncAll(FrameReader.EncFrame, all)|
    ensures xs == bodies
  {
    hide Segments.EncAll, FrameReader.EncFrame;
    if |xs| < |bodies| {
      SamePrefix(all, xs, bodies);
      EncAllLength(xs, bodies);
    }
    CutSizes(bodies, all, out, xs, rest);
    SamePrefix(all, xs, bodies);
  }

  lemma SamePrefix(all: seq<Bytestring>, a: seq<Bytestring>, b: seq<Bytestring>)
    requires a <= all && b <= all && |a| <= |b|
    ensures a <= b
  {
    assert a == all[..|a|] && b == all[..|b|];
  }

  lemma CutSizes(bodies: seq<Bytestring>, all: seq<Bytestring>, out: Bytestring, xs: seq<Bytestring>, rest: Bytestring)
    requires bodies <= all && |all| <= |bodies| + 1
    requires Segments.ExactCut(FrameReader.EncFrame, all, out, xs, rest)
    requires Segments.EncAll(FrameReader.EncFrame, bodies) <= out
    requires |bodies| < |all| ==> |out| < |Segments.EncAll(FrameReader.EncFrame, all)|
    requires |xs| < |bodies| ==> |Segments.EncAll(FrameReader.EncFrame, xs)| + |FrameReader.EncFrame(bodies[|xs|])|
                                 <= |Segments.EncAll(FrameReader.EncFrame, bodies)|
    ensures |xs| == |bodies|
  {
    hide Segments.EncAll, FrameReader.EncFrame;
    assert |Segments.EncAll(FrameReader.EncFrame, xs)| + |rest| == |out|;
    if |xs| == |all| {
      assert xs == all;
    }
  }
}
