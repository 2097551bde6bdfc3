/** When the operations of the write buffer stop and what they return. */
module Flushing {
  import opened Bytes
  import opened WriteBuffer

  predicate Queues(w: State)
  {
    NoEmpty(w.prio) && NoEmpty(w.chunks) && FrontOk(w.prio, w.prioOff) && FrontOk(w.chunks, w.off)
  }

  /** The socket may be busy, but it does not fail. */
  predicate NoneFails(answers: seq<Answer>)
  {
    forall i :: 0 <= i < |answers| ==> !answers[i].Failed?
  }

  predicate Consumed(before: seq<Answer>, after: seq<Answer>, k: nat)
  {
    k <= |before| && after == before[k..]
  }

  /** The last answer of the socket was that it takes nothing more now. */
  ghost predicate Refused(before: seq<Answer>, after: seq<Answer>)
  {
    exists k: nat :: Consumed(before, after, k) && (k == |before| || (k > 0 && before[k - 1].Again?))
  }

  lemma RefusedLater(a: seq<Answer>, b: seq<Answer>, c: seq<Answer>, j: nat)
    requires Consumed(a, b, j) && Refused(b, c)
    ensures Refused(a, c)
  {
    var k: nat :| Consumed(b, c, k) && (k == |b| || (k > 0 && b[k - 1].Again?));
    assert Consumed(a, c, j + k);
  }

  lemma AskOnce(w: State, len: nat)
    requires NoneFails(w.answers)
    ensures var (a, w1) := Ask(w, len);
            && w1 == w.(answers := w1.answers) && NoneFails(w1.answers) && !a.Failed?
            && (a.Again? ==> Refused(w.answers, w1.answers))
            && Consumed(w.answers, w1.answers, if w.answers == [] then 0 else 1)
  {
    var (a, w1) := Ask(w, len);
    assert Consumed(w.answers, w1.answers, if w.answers == [] then 0 else 1);
  }

  lemma EmitPrioQueues(w: State, n: nat)
    requires Queues(w) && w.prio != [] && 1 <= n <= |w.prio[0]| - w.prioOff
    ensures var r := EmitPrio(w, n);
            Queues(r) && r.answers == w.answers && r.chunks == w.chunks && r.off == w.off
  {
  }

  lemma EmitDataQueues(w: State, n: nat)
    requires Queues(w) && w.chunks != [] && 1 <= n <= |w.chunks[0]| - w.off
    ensures var r := EmitData(w, n);
            && Queues(r) && r.answers == w.answers && r.prio == w.prio && r.prioOff == w.prioOff
            && r.chunks == if r.off == 0 then w.chunks[1..] else w.chunks
  {
  }

  /** `flush_priority_unlocked` goes on until all priority frames are out or the socket takes nothing more, and
      says which. */
  lemma {:induction false} FlushPrioExact(w: State)
    requires Queues(w) && NoneFails(w.answers)
    ensures var (r, ok) := FlushPrio(w);
            && Queues(r) && NoneFails(r.answers) && r.chunks == w.chunks && r.off == w.off
            && (ok <==> r.prio == [])
            && (!ok ==> Refused(w.answers, r.answers))
            && (exists k :: Consumed(w.answers, r.answers, k))
    decreases |w.answers|
  {
    hide Refused, NoneFails, Ask, EmitPrio, NoEmpty, FlushPrio;
    FlushPrioDef(w);
    if w.prio == [] {
      assert Consumed(w.answers, w.answers, 0);
    } else {
      var len := |w.prio[0]| - w.prioOff;
      AskOnce(w, len);
      var (a, w1) := Ask(w, len);
      var j := if w.answers == [] then 0 else 1;
      if a.Wrote? {
        EmitPrioQueues(w1, a.n);
        var w2 := EmitPrio(w1, a.n);
        FlushPrioExact(w2);
        ConsumedLater(w.answers, w2.answers, FlushPrio(w2).0.answers, j);
        if !FlushPrio(w2).1 {
          RefusedLater(w.answers, w2.answers, FlushPrio(w2).0.answers, j);
        }
      }
    }
  }

  lemma ConsumedLater(a: seq<Answer>, b: seq<Answer>, c: seq<Answer>, j: nat)
    requires Consumed(a, b, j) && exists k :: Consumed(b, c, k)
    ensures exists k :: Consumed(a, c, k)
  {
    var k :| Consumed(b, c, k);
    assert Consumed(a, c, j + k);
  }

  /** On a socket that does not fail, `flush` reports success if and only if everything is out, and otherwise has
      gone on until the socket took nothing more. Priority frames come first: as long as one is left, at most
      one data frame has been finished, the one in front. */
  lemma {:induction false} FlushExact(w: State)
    requires Queues(w) && NoneFails(w.answers)
    ensures var (r, ok) := Flush(w);
            && Queues(r) && NoneFails(r.answers)
            && (ok <==> r.chunks == [] && r.prio == [])
            && (!ok ==> Refused(w.answers, r.answers))
            && (w.prio == [] ==> r.prio == [])
            && (r.prio != [] ==> |r.chunks| + 1 >= |w.chunks|)
    decreases |w.answers|
  {
    hide Refused, NoneFails, Ask, EmitData, NoEmpty, FlushPrio, Consumed;
    FlushPrioExact(w);
    NoPrio(w);
    if w.chunks != [] {
      var len := |w.chunks[0]| - w.off;
      AskOnce(w, len);
      var (a, w1) := Ask(w, len);
      var j := if w.answers == [] then 0 else 1;
      if a.Wrote? {
        EmitDataQueues(w1, a.n);
        FlushRest(w, EmitData(w1, a.n), j);
      }
    }
  }

  lemma NoPrio(w: State)
    requires FrontOk(w.prio, w.prioOff)
    ensures w.prio == [] ==> FlushPrio(w) == (w, true)
  {
  }

  /** What is left to do after some data bytes went out. */
  lemma {:induction false} FlushRest(w: State, w2: State, j: nat)
    requires Queues(w2) && NoneFails(w2.answers) && |w2.answers| < |w.answers| && Consumed(w.answers, w2.answers, j)
    requires w.chunks != [] && w2.chunks == if w2.off == 0 then w.chunks[1..] else w.chunks
    ensures var (r, ok) := if w2.off == 0 then
                             var (w3, ok) := FlushPrio(w2);
                             if ok && FrontOk(w3.prio, w3.prioOff) && FrontOk(w3.chunks, w3.off) then Flush(w3)
                             else (w3, ok)
                           else Flush(w2);
            && Queues(r) && NoneFails(r.answers)
            && (ok <==> r.chunks == [] && r.prio == [])
            && (!ok ==> Refused(w.answers, r.answers))
            && (w2.prio == [] ==> r.prio == [])
            && (r.prio != [] ==> |r.chunks| + 1 >= |w.chunks|)
    decreases |w.answers|, 0
  {
    hide Refused, NoneFails, Flush, FlushPrio, NoEmpty, Consumed;
    if w2.off == 0 {
      FlushPrioExact(w2);
      NoPrio(w2);
      var (w3, ok) := FlushPrio(w2);
      if ok {
        var k :| Consumed(w2.answers, w3.answers, k);
        FlushExact(w3);
        if !Flush(w3).1 {
          RefusedLater(w2.answers, w3.answers, Flush(w3).0.answers, k);
          RefusedLater(w.answers, w2.answers, Flush(w3).0.answers, j);
        }
      } else {
        RefusedLater(w.answers, w2.answers, w3.answers, j);
      }
    } else {
      FlushExact(w2);
      if !Flush(w2).1 {
        RefusedLater(w.answers, w2.answers, Flush(w2).0.answers, j);
      }
    }
  }

  /** `write` returns 0 if and only if the frame was accepted and all data is out, 1 if and only if it was accepted
      and some of it is queued, and -1 if and only if it was not accepted, for any answers of the socket. */
  lemma WriteReturns(w: State, frame: Bytestring)
    requires Inv(w) && frame != []
    ensures var (r, ret) := Write(w, frame);
            && (ret == 0 <==> r.dataIn == w.dataIn + [frame] && r.chunks == [])
            && (ret == 1 <==> r.dataIn == w.dataIn + [frame] && r.chunks != [])
            && (ret == -1 <==> r.dataIn == w.dataIn)
            && (ret == 0 || ret == 1 || ret == -1)
  {
    hide Inv, Flush;
    FrontsOk(w);
    if w.chunks != [] {
      FlushFrames(w);
      var w1 := Flush(w).0;
      if w1.chunks == [] {
        DirectReturns(w1, frame);
      } else {
        assert |w.dataIn + [frame]| == |w.dataIn| + 1;
      }
    } else {
      DirectReturns(w, frame);
    }
  }

  lemma FrontsOk(w: State)
    requires Inv(w)
    ensures FrontOk(w.prio, w.prioOff) && FrontOk(w.chunks, w.off)
  {
  }

  lemma DirectReturns(w: State, frame: Bytestring)
    requires frame != [] && w.chunks == []
    ensures var (r, ret) := DirectWrite(w, frame);
            && (ret == 0 <==> r.dataIn == w.dataIn + [frame] && r.chunks == [])
            && (ret == 1 <==> r.dataIn == w.dataIn + [frame] && r.chunks != [])
            && (ret == -1 <==> r.dataIn == w.dataIn)
            && (ret == 0 || ret == 1 || ret == -1)
  {
    var (a, w1) := Ask(w, |frame|);
    assert w1 == w.(answers := w1.answers);
    assert |w.dataIn + [frame]| == |w.dataIn| + 1;
    hide Ask;
  }

  /** A flush accepts no frames. */
  lemma {:induction false} FlushFrames(w: State)
    requires FrontOk(w.prio, w.prioOff) && FrontOk(w.chunks, w.off)
    ensures Flush(w).0.dataIn == w.dataIn && Flush(w).0.prioIn == w.prioIn
    decreases |w.answers|
  {
    hide Ask, FlushPrio;
    FlushPrioFrames(w);
    if w.chunks != [] {
      var len := |w.chunks[0]| - w.off;
      AskSame(w, len);
      var (a, w1) := Ask(w, len);
      if a.Wrote? {
        var w2 := EmitData(w1, a.n);
        if w2.off == 0 {
          FlushPrioFrames(w2);
          var (w3, ok) := FlushPrio(w2);
          if ok && FrontOk(w3.prio, w3.prioOff) && FrontOk(w3.chunks, w3.off) {
            FlushFrames(w3);
          }
        } else {
          FlushFrames(w2);
        }
      }
    }
  }

  lemma AskSame(w: State, len: nat)
    ensures Ask(w, len).1 == w.(answers := Ask(w, len).1.answers)
  {
  }

  lemma {:induction false} FlushPrioFrames(w: State)
    requires FrontOk(w.prio, w.prioOff)
    ensures FlushPrio(w).0.dataIn == w.dataIn && FlushPrio(w).0.prioIn == w.prioIn
    decreases |w.answers|
  {
    hide Ask, FlushPrio;
    FlushPrioDef(w);
    if w.prio != [] {
      var len := |w.prio[0]| - w.prioOff;
      AskSame(w, len);
      var (a, w1) := Ask(w, len);
      if a.Wrote? && FrontOk(EmitPrio(w1, a.n).prio, EmitPrio(w1, a.n).prioOff) {
        FlushPrioFrames(EmitPrio(w1, a.n));
      }
    }
  }
}
