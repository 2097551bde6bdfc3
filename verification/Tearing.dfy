/** Exactly when an operation of the write buffer tears a priority frame. */
module Tearing {
  import opened Bytes
  import opened WriteBuffer

  /** The socket takes nothing any more. */
  predicate Dead(answers: seq<Answer>)
  {
    forall i :: 0 <= i < |answers| ==> !answers[i].Wrote?
  }

  /** A socket that has failed once never takes a byte again. */
  predicate StaysDead(answers: seq<Answer>)
  {
    forall i, j :: 0 <= i < j < |answers| && answers[i].Failed? ==> !answers[j].Wrote?
  }

  /** The next write call gets bytes through. */
  predicate Takes(answers: seq<Answer>)
  {
    answers != [] && answers[0].Wrote?
  }

  lemma AskFacts(w: State, len: nat)
    ensures var (a, w1) := Ask(w, len);
            && w1 == w.(answers := w1.answers)
            && (a.Wrote? <==> Takes(w.answers))
            && (StaysDead(w.answers) ==> StaysDead(w1.answers))
            && (Dead(w.answers) ==> Dead(w1.answers))
            && (StaysDead(w.answers) && a.Failed? ==> Dead(w1.answers))
  {
    if w.answers != [] {
      var rest := w.answers[1..];
      assert forall i :: 0 <= i < |rest| ==> rest[i] == w.answers[i + 1];
    }
  }

  /** The priority loop never tears. If it reports success with a frame unfinished, the socket is dead. */
  lemma {:induction false} FlushPrioTears(w: State)
    requires FrontOk(w.prio, w.prioOff) && StaysDead(w.answers)
    ensures var (w', ok) := FlushPrio(w);
            && w'.torn == w.torn && StaysDead(w'.answers)
            && (Dead(w.answers) ==> Dead(w'.answers))
            && (ok && FrontOk(w'.prio, w'.prioOff) && w'.prioOff > 0 ==> Dead(w'.answers))
    decreases |w.answers|
  {
    hide StaysDead, Dead, Takes, FlushPrio, Ask, EmitPrio;
    FlushPrioDef(w);
    if w.prio != [] {
      var len := |w.prio[0]| - w.prioOff;
      AskFacts(w, len);
      var (a, w1) := Ask(w, len);
      if a.Wrote? {
        EmitPrioFacts(w1, a.n);
        NotDead(w.answers);
        if FrontOk(EmitPrio(w1, a.n).prio, EmitPrio(w1, a.n).prioOff) {
          FlushPrioTears(EmitPrio(w1, a.n));
        }
      }
    }
  }

  lemma EmitPrioFacts(w: State, n: nat)
    requires w.prio != [] && w.prioOff + n <= |w.prio[0]|
    ensures EmitPrio(w, n).answers == w.answers && EmitPrio(w, n).torn == w.torn
  {
  }

  lemma NotDead(answers: seq<Answer>)
    requires Takes(answers)
    ensures !Dead(answers)
  {
    assert answers[0].Wrote?;
  }

  /** Once torn, always torn; and a flush that starts without an unfinished priority frame, without data or
      on a dead socket does not tear. */
  lemma {:induction false} FlushTorn(w: State)
    requires FrontOk(w.prio, w.prioOff) && FrontOk(w.chunks, w.off) && StaysDead(w.answers)
    ensures var w' := Flush(w).0;
            && (w.torn ==> w'.torn) && StaysDead(w'.answers)
            && (w.prioOff == 0 || w.chunks == [] || Dead(w.answers) ==> w'.torn == w.torn)
    decreases |w.answers|
  {
    hide StaysDead, Dead, Takes;
    FlushPrioTears(w);
    if w.chunks != [] {
      var len := |w.chunks[0]| - w.off;
      AskFacts(w, len);
      var (a, w1) := Ask(w, len);
      if a.Wrote? {
        NotDead(w.answers);
        FlushTornWrote(w, a.n, w1);
      }
    }
  }

  lemma {:induction false} FlushTornWrote(w: State, n: nat, w1: State)
    requires FrontOk(w.prio, w.prioOff) && FrontOk(w.chunks, w.off) && w.chunks != []
    requires Ask(w, |w.chunks[0]| - w.off) == (Wrote(n), w1) && StaysDead(w1.answers)
    requires w1 == w.(answers := w1.answers)
    ensures StaysDead(Flush(w).0.answers)
    ensures w.torn || w.prioOff > 0 ==> Flush(w).0.torn
    ensures w.prioOff == 0 ==> Flush(w).0.torn == w.torn
    decreases |w.answers|, 0
  {
    hide StaysDead, Dead, Takes, Ask, FlushPrio;
    var w2 := EmitData(w1, n);
    assert w2.torn == (w.torn || w.prioOff > 0) && w2.prioOff == w.prioOff && w2.prio == w.prio &&
           w2.answers == w1.answers;
    hide EmitData;
    if w2.off == 0 {
      FlushPrioTears(w2);
      var (w3, ok) := FlushPrio(w2);
      if ok && FrontOk(w3.prio, w3.prioOff) && FrontOk(w3.chunks, w3.off) {
        FlushTorn(w3);
      }
    } else {
      assert FrontOk(w2.chunks, w2.off);
      FlushTorn(w2);
    }
  }

  /** The stream is whole frames and the start of at most one. */
  predicate Intact(w: State)
  {
    WellQueued(w) && Whole(w)
  }

  lemma TornIff(w: State)
    requires Inv(w)
    ensures FrontOk(w.prio, w.prioOff) && FrontOk(w.chunks, w.off) && (w.torn <==> !Intact(w))
  {
    hide Whole, FramesInOrder, DataAtomic, PrioInOrder;
  }

  /** `flush` tears if and only if it starts with a priority frame unfinished, a data chunk queued and a socket
      that takes bytes. */
  lemma FlushTearsIff(w: State)
    requires Inv(w) && Intact(w) && StaysDead(w.answers)
    ensures Intact(Flush(w).0) <==> !(w.prioOff > 0 && w.chunks != [] && Takes(w.answers))
  {
    hide Inv, Intact, Flush, StaysDead, Dead, Ask;
    TornIff(w);
    FlushKeeps(w);
    TornIff(Flush(w).0);
    FlushTornIff(w);
  }

  lemma FlushStops(w: State)
    requires FrontOk(w.prio, w.prioOff) && FrontOk(w.chunks, w.off) && w.chunks != [] && !Takes(w.answers)
    ensures Flush(w).0.torn == w.torn
  {
    AskFacts(w, |w.chunks[0]| - w.off);
    hide Ask;
  }

  /** The state in which `write` decides whether to write directly. */
  function BeforeDirect(w: State): State
    requires FrontOk(w.prio, w.prioOff) && FrontOk(w.chunks, w.off)
  {
    if w.chunks == [] then w else Flush(w).0
  }

  /** `write` tears if and only if the flush it starts with does, or it then writes directly while a priority
      frame is unfinished. */
  lemma WriteTearsIff(w: State, frame: Bytestring)
    requires Inv(w) && frame != []
    ensures var w1 := BeforeDirect(w);
            Intact(Write(w, frame).0) <==> Intact(w1) && !(w1.chunks == [] && w1.prioOff > 0 && Takes(w1.answers))
  {
    hide Inv, Flush, Intact, Ask, DirectWrite, Enqueue;
    TornIff(w);
    WriteKeeps(w, frame);
    TornIff(Write(w, frame).0);
    var w1 := BeforeDirect(w);
    if w.chunks != [] {
      FlushKeeps(w);
    }
    TornIff(w1);
    if w1.chunks != [] {
      EnqueueTorn(w1, frame);
    } else {
      DirectTorn(w1, frame);
    }
  }

  lemma EnqueueTorn(w: State, frame: Bytestring)
    requires frame != []
    ensures Enqueue(w, frame, 0).torn == w.torn && Enqueue(w, frame, 0).answers == w.answers
  {
  }

  lemma DirectTorn(w: State, frame: Bytestring)
    requires frame != []
    ensures StaysDead(w.answers) ==> StaysDead(DirectWrite(w, frame).0.answers)
    ensures DirectWrite(w, frame).0.torn <==> w.torn || (w.prioOff > 0 && Takes(w.answers))
  {
    AskFacts(w, |frame|);
    hide Ask;
  }

  /** `write_priority` never tears. */
  lemma PriorityNeverTears(w: State, frame: Bytestring)
    requires Inv(w) && Intact(w) && frame != []
    ensures Intact(WritePriority(w, frame))
  {
    WritePriorityKeeps(w, frame);
    hide Inv, Intact;
    TornIff(w);
    TornIff(WritePriority(w, frame));
  }

  // ----- Runs -----

  /** What an operation does to tear, given the state it starts in and the answers it will get. */
  predicate Tears(w: State, op: Op)
    requires FrontOk(w.prio, w.prioOff) && FrontOk(w.chunks, w.off)
  {
    match op
    case DoFlush => w.prioOff > 0 && w.chunks != [] && Takes(w.answers)
    case DoWritePriority(_) => false
    case DoWrite(_) =>
      var w1 := BeforeDirect(w);
      (w.prioOff > 0 && w.chunks != [] && Takes(w.answers)) || (w1.chunks == [] && w1.prioOff > 0 && Takes(w1.answers))
  }

  /** Some operation of the run tears. */
  ghost predicate SomeTears(w: State, ops: seq<Op>)
    decreases |ops|
  {
    && ops != [] && WellQueued(w) && ValidOp(ops[0])
    && (Tears(w, ops[0]) || SomeTears(Apply(w, ops[0]), ops[1..]))
  }

  lemma OpTorn(w: State, op: Op)
    requires Inv(w) && StaysDead(w.answers) && ValidOp(op)
    ensures WellQueued(w) && Inv(Apply(w, op)) && StaysDead(Apply(w, op).answers)
    ensures Apply(w, op).torn <==> w.torn || Tears(w, op)
  {
    hide Inv, Flush, Write, WritePriority, StaysDead, Takes;
    InvQueued(w);
    ApplyKeeps(w, op);
    match op
    case DoFlush => FlushTornIff(w);
    case DoWritePriority(f) => PriorityTorn(w, f);
    case DoWrite(f) => WriteTornIff(w, f);
  }

  lemma InvQueued(w: State)
    requires Inv(w)
    ensures WellQueued(w) && FrontOk(w.prio, w.prioOff) && FrontOk(w.chunks, w.off)
  {
  }

  lemma PriorityTorn(w: State, frame: Bytestring)
    ensures WritePriority(w, frame).torn == w.torn && WritePriority(w, frame).answers == w.answers
  {
  }

  lemma FlushTornIff(w: State)
    requires FrontOk(w.prio, w.prioOff) && FrontOk(w.chunks, w.off) && StaysDead(w.answers)
    ensures StaysDead(Flush(w).0.answers)
    ensures Flush(w).0.torn <==> w.torn || (w.prioOff > 0 && w.chunks != [] && Takes(w.answers))
  {
    hide Flush, StaysDead, Dead, Ask;
    FlushTorn(w);
    if w.chunks != [] {
      var len := |w.chunks[0]| - w.off;
      AskFacts(w, len);
      var (a, w1) := Ask(w, len);
      if a.Wrote? {
        FlushTornWrote(w, a.n, w1);
      } else {
        FlushStops(w);
      }
    }
  }

  lemma WriteTornIff(w: State, frame: Bytestring)
    requires FrontOk(w.prio, w.prioOff) && FrontOk(w.chunks, w.off) && StaysDead(w.answers) && frame != []
    ensures StaysDead(Write(w, frame).0.answers)
    ensures Write(w, frame).0.torn <==> w.torn || Tears(w, DoWrite(frame))
  {
    hide Flush, StaysDead, Dead, Ask, DirectWrite, Enqueue, Takes;
    var w1 := BeforeDirect(w);
    FlushTornIff(w);
    EnqueueTorn(w1, frame);
    DirectTorn(w1, frame);
  }

  /** Lifted to runs: on a socket that stays dead once it fails, the stream of a run is whole frames if and only
      if no operation of the run tears. */
  lemma {:induction false} RunTorn(w: State, ops: seq<Op>, w': State)
    requires Inv(w) && StaysDead(w.answers) && Reaches(w, ops, w')
    ensures Inv(w') && (w'.torn <==> w.torn || SomeTears(w, ops))
    decreases |ops|
  {
    if ops != [] {
      hide Inv, Apply, StaysDead, Tears;
      OpTorn(w, ops[0]);
      RunTorn(Apply(w, ops[0]), ops[1..], w');
    }
  }

  lemma RunTearsIff(answers: seq<Answer>, ops: seq<Op>, w: State)
    requires StaysDead(answers) && Reaches(Init(answers), ops, w)
    ensures Intact(w) <==> !SomeTears(Init(answers), ops)
  {
    InitInv(answers);
    hide Inv, Intact, SomeTears;
    RunTorn(Init(answers), ops, w);
    TornIff(w);
  }
}
