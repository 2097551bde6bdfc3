/** Reliable delivery over one data connection (client/client.cpp, server/session.cpp): 16-bit wrapping
    sequence numbers, a bounded queue of unacknowledged frames, cumulative acknowledgements,
    retransmission of the oldest frame, and replay of the queue on reconnect. */
module ReliableLink {
  import opened Bytes

  const WIRE_MAX_UNACKED: nat := 200
  const SEQ_SPACE: nat := 65536

  datatype Frame = Frame(seqNo: u16, payload: Bytestring)

  // ----- The two ends -----

  datatype Sender = Sender(sendSeq: u16, unacked: seq<Frame>)

  datatype Receiver = Receiver(recvSeq: u16, dispatched: seq<Bytestring>)

  /** `wire_write`: numbers the payload and queues it for retransmission, dropping the oldest entry of
      a full queue. */
  function WireWrite(s: Sender, payload: Bytestring): (Sender, Frame)
  {
    var f := Frame(s.sendSeq, payload);
    var kept := if |s.unacked| >= WIRE_MAX_UNACKED then s.unacked[1..] else s.unacked;
    (Sender((s.sendSeq + 1) % SEQ_SPACE, kept + [f]), f)
  }

  /** The acknowledgement loop: a plain comparison of 16-bit numbers. */
  function PopAcked(unacked: seq<Frame>, ack: u16): seq<Frame>
  {
    if unacked != [] && unacked[0].seqNo <= ack then PopAcked(unacked[1..], ack) else unacked
  }

  /** A data frame at the receiver; every frame is acknowledged, dispatched or not. */
  function OnData(r: Receiver, f: Frame): Receiver
  {
    if f.seqNo == r.recvSeq then Receiver((r.recvSeq + 1) % SEQ_SPACE, r.dispatched + [f.payload]) else r
  }

  // ----- The link as a state machine -----

  /** A payload given to `wire_write`, and whether the descriptor was closed at the time. */
  datatype Given = Given(payload: Bytestring, down: bool)

  /** `wire` and `acks` are in flight, oldest first; `down` says that the descriptor is closed. `given` is the
      history of the calls of `wire_write`, and `sent` of the payloads that got a number. */
  datatype Link = Link(snd: Sender, rcv: Receiver, wire: seq<Frame>, acks: seq<u16>, sent: seq<Bytestring>,
                       down: bool, given: seq<Given>)

  const START := Link(Sender(0, []), Receiver(0, []), [], [], [], false, [])

  datatype Event =
    | Send(payload: Bytestring)
    | Retransmit
    | DeliverData
    | DeliverAck
    | Cut
    | Reconnect

  /** A cut closes the descriptor and loses all that is in flight both ways; what the other side reads after
      the client has noticed might as well have been read before. While the descriptor is closed `wire_write`
      drops its payload without a number. Reconnecting clears the writer and writes every unacknowledged
      frame again. */
  function Apply(l: Link, e: Event): Link
  {
    match e
    case Send(p) =>
      if l.down then l.(given := l.given + [Given(p, true)])
      else
        var (s, f) := WireWrite(l.snd, p);
        l.(snd := s, wire := l.wire + [f], sent := l.sent + [p], given := l.given + [Given(p, false)])
    case Retransmit =>
      if l.down || l.snd.unacked == [] then l else l.(wire := l.wire + [l.snd.unacked[0]])
    case DeliverData =>
      if l.wire == [] then l
      else l.(rcv := OnData(l.rcv, l.wire[0]), wire := l.wire[1..], acks := l.acks + [l.wire[0].seqNo])
    case DeliverAck =>
      if l.acks == [] then l
      else l.(snd := l.snd.(unacked := PopAcked(l.snd.unacked, l.acks[0])), acks := l.acks[1..])
    case Cut =>
      l.(wire := [], acks := [], down := true)
    case Reconnect =>
      if l.down then l.(wire := l.snd.unacked, down := false) else l
  }

  function Run(l: Link, es: seq<Event>): Link
    decreases |es|
  {
    if es == [] then l else Run(Apply(l, es[0]), es[1..])
  }

  lemma {:induction false} RunConcat(l: Link, a: seq<Event>, b: seq<Event>)
    ensures Run(l, a + b) == Run(Run(l, a), b)
    decreases |a|
  {
    if a == [] {
      assert a + b == b;
    } else {
      assert (a + b)[1..] == a[1..] + b;
      RunConcat(Apply(l, a[0]), a[1..], b);
    }
  }

  // ----- The invariant -----

  /** The frame that carries payload number `i`. */
  function FrameOf(sent: seq<Bytestring>, i: nat): Frame
    requires i < |sent|
  {
    Frame(i % SEQ_SPACE, sent[i])
  }

  /** The frames number a, a+1, ... */
  function Frames(sent: seq<Bytestring>, a: nat): (u: seq<Frame>)
    requires a <= |sent|
    ensures |u| == |sent| - a
    decreases |sent| - a
  {
    if a == |sent| then [] else [FrameOf(sent, a)] + Frames(sent, a + 1)
  }

  lemma {:induction false} FramesSnoc(sent: seq<Bytestring>, p: Bytestring, a: nat)
    requires a <= |sent|
    ensures Frames(sent + [p], a) == Frames(sent, a) + [Frame(|sent| % SEQ_SPACE, p)]
    decreases |sent| - a
  {
    if a == |sent| {
      assert Frames(sent + [p], a + 1) == [];
    } else {
      FramesSnoc(sent, p, a + 1);
      assert FrameOf(sent + [p], a) == FrameOf(sent, a);
    }
  }

  lemma NextSeqNo(n: nat)
    ensures (n % SEQ_SPACE + 1) % SEQ_SPACE == (n + 1) % SEQ_SPACE
  {
  }

  lemma SeqNosDiffer(i: nat, j: nat)
    requires i < j < i + SEQ_SPACE
    ensures i % SEQ_SPACE != j % SEQ_SPACE
  {
  }

  /** `f` repeats one of the 200 payloads before number `r`. */
  ghost predicate Repeats(sent: seq<Bytestring>, r: nat, f: Frame)
  {
    exists i: nat :: i < r <= i + WIRE_MAX_UNACKED && i < |sent| && f == FrameOf(sent, i)
  }

  /** Taken in order by a receiver that has `r` payloads, these frames are the next payloads up to the
      last one sent, interleaved with repetitions. */
  ghost predicate Flows(wire: seq<Frame>, r: nat, sent: seq<Bytestring>)
    decreases |wire|
  {
    if wire == [] then r == |sent|
    else
      || (r < |sent| && wire[0] == FrameOf(sent, r) && Flows(wire[1..], r + 1, sent))
      || (Repeats(sent, r, wire[0]) && Flows(wire[1..], r, sent))
  }

  /** The queue is the contiguous suffix of the payloads sent from number `a` on, at most 200 of them. */
  predicate SenderAt(s: Sender, sent: seq<Bytestring>, a: nat)
  {
    && a <= |sent| <= a + WIRE_MAX_UNACKED
    && s.sendSeq == |sent| % SEQ_SPACE
    && s.unacked == Frames(sent, a)
  }

  predicate ReceiverAt(r: Receiver, sent: seq<Bytestring>)
  {
    r.dispatched <= sent && r.recvSeq == |r.dispatched| % SEQ_SPACE
  }

  ghost predicate Inv(l: Link, a: nat)
  {
    && SenderAt(l.snd, l.sent, a)
    && ReceiverAt(l.rcv, l.sent)
    && (if l.down then l.wire == [] && l.acks == [] else Flows(l.wire, |l.rcv.dispatched|, l.sent))
  }

  lemma {:induction false} FlowsSend(wire: seq<Frame>, r: nat, sent: seq<Bytestring>, p: Bytestring)
    requires Flows(wire, r, sent)
    ensures Flows(wire + [FrameOf(sent + [p], |sent|)], r, sent + [p])
    decreases |wire|
  {
    var f := FrameOf(sent + [p], |sent|);
    if wire == [] {
      assert [f][1..] == [];
    } else {
      assert (wire + [f])[1..] == wire[1..] + [f];
      if r < |sent| && wire[0] == FrameOf(sent, r) && Flows(wire[1..], r + 1, sent) {
        FlowsSend(wire[1..], r + 1, sent, p);
      } else {
        FlowsSend(wire[1..], r, sent, p);
        var i: nat :| i < r <= i + WIRE_MAX_UNACKED && i < |sent| && wire[0] == FrameOf(sent, i);
        assert wire[0] == FrameOf(sent + [p], i);
      }
    }
  }

  lemma {:induction false} FlowsRepeat(wire: seq<Frame>, r: nat, sent: seq<Bytestring>, f: Frame)
    requires Flows(wire, r, sent) && Repeats(sent, |sent|, f)
    ensures Flows(wire + [f], r, sent)
    decreases |wire|
  {
    if wire == [] {
      assert [f][1..] == [];
    } else {
      assert (wire + [f])[1..] == wire[1..] + [f];
      if r < |sent| && wire[0] == FrameOf(sent, r) && Flows(wire[1..], r + 1, sent) {
        FlowsRepeat(wire[1..], r + 1, sent, f);
      } else {
        FlowsRepeat(wire[1..], r, sent, f);
      }
    }
  }

  /** Repetitions lie within 200 of the expected payload, so the 16-bit numbers tell them apart. */
  lemma RepeatsDiffer(sent: seq<Bytestring>, r: nat, f: Frame)
    requires Repeats(sent, r, f)
    ensures f.seqNo != r % SEQ_SPACE
  {
    var i: nat :| i < r <= i + WIRE_MAX_UNACKED && i < |sent| && f == FrameOf(sent, i);
    SeqNosDiffer(i, r);
  }

  lemma DeliverKeeps(l: Link, a: nat)
    requires Inv(l, a) && l.wire != []
    ensures Inv(Apply(l, DeliverData), a)
  {
    var r := |l.rcv.dispatched|;
    if Repeats(l.sent, r, l.wire[0]) && Flows(l.wire[1..], r, l.sent) {
      RepeatsDiffer(l.sent, r, l.wire[0]);
    } else {
      NextSeqNo(r);
      assert l.rcv.dispatched + [l.sent[r]] == l.sent[..r + 1];
    }
  }

  /** Where the queue starts after one more payload. */
  function NextStart(sent: seq<Bytestring>, a: nat): nat
    requires a <= |sent|
  {
    if |sent| - a >= WIRE_MAX_UNACKED then a + 1 else a
  }

  lemma WireWriteAt(s: Sender, sent: seq<Bytestring>, a: nat, p: Bytestring)
    requires SenderAt(s, sent, a)
    ensures SenderAt(WireWrite(s, p).0, sent + [p], NextStart(sent, a))
    ensures WireWrite(s, p).1 == FrameOf(sent + [p], |sent|)
  {
    FramesSnoc(sent, p, NextStart(sent, a));
    if NextStart(sent, a) == a + 1 {
      assert s.unacked[1..] == Frames(sent, a + 1);
    }
    NextSeqNo(|sent|);
  }

  lemma SendKeeps(l: Link, a: nat, p: Bytestring)
    requires Inv(l, a) && !l.down
    ensures Inv(Apply(l, Send(p)), NextStart(l.sent, a))
  {
    FlowsSend(l.wire, |l.rcv.dispatched|, l.sent, p);
    WireWriteAt(l.snd, l.sent, a, p);
  }

  lemma RetransmitKeeps(l: Link, a: nat)
    requires Inv(l, a) && l.snd.unacked != [] && !l.down
    ensures Inv(Apply(l, Retransmit), a)
  {
    assert l.snd.unacked[0] == FrameOf(l.sent, a);
    FlowsRepeat(l.wire, |l.rcv.dispatched|, l.sent, l.snd.unacked[0]);
  }

  /** However the 16-bit comparison comes out, acknowledgements only shorten the queue from the front. */
  lemma {:induction false} PopSuffix(sent: seq<Bytestring>, a: nat, ack: u16) returns (b: nat)
    requires a <= |sent|
    ensures a <= b <= |sent| && PopAcked(Frames(sent, a), ack) == Frames(sent, b)
    decreases |sent| - a
  {
    var u := Frames(sent, a);
    if u != [] && u[0].seqNo <= ack {
      assert u[1..] == Frames(sent, a + 1);
      b := PopSuffix(sent, a + 1, ack);
    } else {
      b := a;
    }
  }

  lemma ApplyKeeps(l: Link, a: nat, e: Event) returns (b: nat)
    requires Inv(l, a) && !l.down && !e.Cut?
    ensures Inv(Apply(l, e), b) && !Apply(l, e).down
  {
    b := a;
    match e
    case Send(p) =>
      SendKeeps(l, a, p);
      b := NextStart(l.sent, a);
    case Retransmit =>
      if l.snd.unacked != [] {
        RetransmitKeeps(l, a);
      }
    case DeliverData =>
      if l.wire != [] {
        DeliverKeeps(l, a);
      }
    case DeliverAck =>
      if l.acks != [] {
        b := PopSuffix(l.sent, a, l.acks[0]);
      }
    case Reconnect =>
  }

  lemma {:induction false} RunKeeps(l: Link, a: nat, es: seq<Event>) returns (b: nat)
    requires Inv(l, a) && !l.down && forall e :: e in es ==> !e.Cut?
    ensures Inv(Run(l, es), b) && !Run(l, es).down
    decreases |es|
  {
    if es == [] {
      b := a;
    } else {
      var b0 := ApplyKeeps(l, a, es[0]);
      b := RunKeeps(Apply(l, es[0]), b0, es[1..]);
    }
  }

  /** Exactly once and in order, for runs of any length without a cut: any number of frames, of
      retransmissions and any delay of acknowledgements. What has been dispatched is a prefix of what was
      sent, all of it once the connection is empty, and the queue is a contiguous suffix of at most 200. */
  lemma ExactlyOnce(es: seq<Event>) returns (a: nat)
    requires forall e :: e in es ==> !e.Cut?
    ensures var l := Run(START, es);
            && l.rcv.dispatched <= l.sent
            && (l.wire == [] ==> l.rcv.dispatched == l.sent)
            && a <= |l.sent| <= a + WIRE_MAX_UNACKED && l.snd.unacked == Frames(l.sent, a)
  {
    assert Inv(START, 0);
    a := RunKeeps(START, 0, es);
  }

  // ----- Reconnect -----

  /** The queue reaches back to the receiver's count, and no acknowledgement in flight is ahead of it. */
  ghost predicate Covered(l: Link, a: nat)
  {
    && Inv(l, a)
    && a <= |l.rcv.dispatched|
    && |l.sent| <= SEQ_SPACE
    && forall x :: x in l.acks ==> x < |l.rcv.dispatched|
  }

  /** The condition on the sender: fewer than 200 payloads undelivered and fewer than 65536 sent so far. */
  predicate MaySend(l: Link)
  {
    |l.sent| - |l.rcv.dispatched| < WIRE_MAX_UNACKED && |l.sent| < SEQ_SPACE
  }

  lemma {:induction false} PopCovered(sent: seq<Bytestring>, a: nat, ack: u16)
    requires a <= |sent| <= SEQ_SPACE && ack < |sent|
    ensures PopAcked(Frames(sent, a), ack) == Frames(sent, if a <= ack then ack + 1 else a)
    decreases |sent| - a
  {
    var u := Frames(sent, a);
    if a < |sent| {
      assert u[0].seqNo == a && u[1..] == Frames(sent, a + 1);
      if a <= ack {
        PopCovered(sent, a + 1, ack);
      }
    }
  }

  lemma {:induction false} FlowsReplay(sent: seq<Bytestring>, a: nat, r: nat)
    requires a <= r <= |sent| <= a + WIRE_MAX_UNACKED
    ensures Flows(Frames(sent, a), r, sent)
    decreases |sent| - a
  {
    var u := Frames(sent, a);
    if a < |sent| {
      assert u[1..] == Frames(sent, a + 1);
      if a < r {
        assert Repeats(sent, r, u[0]);
        FlowsReplay(sent, a + 1, r);
      } else {
        FlowsReplay(sent, a + 1, r + 1);
      }
    }
  }

  lemma DeliverCovered(l: Link, a: nat)
    requires Covered(l, a) && l.wire != []
    ensures Covered(Apply(l, DeliverData), a)
  {
    DeliverKeeps(l, a);
    SeqBelow(l);
    hide Inv, Flows, OnData;
  }

  /** Below 65536 a frame that arrives carries its own number, and afterwards the receiver is past it. */
  lemma SeqBelow(l: Link)
    requires ReceiverAt(l.rcv, l.sent) && l.wire != [] && |l.sent| <= SEQ_SPACE &&
             Flows(l.wire, |l.rcv.dispatched|, l.sent)
    ensures l.wire[0].seqNo < |OnData(l.rcv, l.wire[0]).dispatched|
    ensures |l.rcv.dispatched| <= |OnData(l.rcv, l.wire[0]).dispatched|
  {
    var r, f := |l.rcv.dispatched|, l.wire[0];
    SmallSeqNo(r);
    if Repeats(l.sent, r, f) {
      var i: nat :| i < r <= i + WIRE_MAX_UNACKED && i < |l.sent| && f == FrameOf(l.sent, i);
      SmallSeqNo(i);
    }
  }

  lemma SmallSeqNo(i: nat)
    ensures i < SEQ_SPACE ==> i % SEQ_SPACE == i
  {
  }

  lemma ApplyCovered(l: Link, a: nat, e: Event) returns (b: nat)
    requires Covered(l, a) && (e.Send? && !l.down ==> MaySend(l))
    ensures Covered(Apply(l, e), b)
  {
    b := a;
    match e
    case Send(p) =>
      if !l.down {
        SendKeeps(l, a, p);
        b := NextStart(l.sent, a);
      }
    case Retransmit =>
      if !l.down && l.snd.unacked != [] {
        RetransmitKeeps(l, a);
      }
    case DeliverData =>
      if l.wire != [] {
        DeliverCovered(l, a);
      }
    case DeliverAck =>
      if l.acks != [] {
        assert l.acks[0] in l.acks && forall x :: x in l.acks[1..] ==> x in l.acks;
        PopCovered(l.sent, a, l.acks[0]);
        b := if a <= l.acks[0] then l.acks[0] + 1 else a;
      }
    case Cut =>
    case Reconnect =>
      if l.down {
        FlowsReplay(l.sent, a, |l.rcv.dispatched|);
      }
  }

  ghost predicate Paced(l: Link, es: seq<Event>)
    decreases |es|
  {
    es == [] || ((es[0].Send? && !l.down ==> MaySend(l)) && Paced(Apply(l, es[0]), es[1..]))
  }

  lemma {:induction false} RunCovered(l: Link, a: nat, es: seq<Event>) returns (b: nat)
    requires Covered(l, a) && Paced(l, es)
    ensures Covered(Run(l, es), b)
    decreases |es|
  {
    if es == [] {
      b := a;
    } else {
      var b0 := ApplyCovered(l, a, es[0]);
      b := RunCovered(Apply(l, es[0]), b0, es[1..]);
    }
  }

  /** The payloads that were not written while the descriptor was closed. */
  function Accepted(given: seq<Given>): seq<Bytestring>
  {
    if given == [] then []
    else
      var n := |given| - 1;
      Accepted(given[..n]) + if given[n].down then [] else [given[n].payload]
  }

  function Payloads(given: seq<Given>): (ps: seq<Bytestring>)
    ensures |ps| == |given|
  {
    if given == [] then [] else Payloads(given[..|given| - 1]) + [given[|given| - 1].payload]
  }

  lemma AcceptedSnoc(given: seq<Given>, g: Given)
    ensures Accepted(given + [g]) == Accepted(given) + if g.down then [] else [g.payload]
  {
    assert (given + [g])[..|given|] == given;
  }

  lemma {:induction false} RunAccepts(l: Link, es: seq<Event>)
    requires l.sent == Accepted(l.given)
    ensures Run(l, es).sent == Accepted(Run(l, es).given)
    decreases |es|
  {
    if es != [] {
      if es[0].Send? {
        AcceptedSnoc(l.given, Given(es[0].payload, l.down));
        NoneRight(l.sent);
      }
      hide Accepted;
      assert Apply(l, es[0]).sent == Accepted(Apply(l, es[0]).given);
      RunAccepts(Apply(l, es[0]), es[1..]);
    }
  }

  /** Cuts at any point, any number of them: with at most 200 payloads undelivered and at most 65536 sent,
      what has been dispatched is a prefix of the payloads that were not written while the descriptor was
      closed, and all of these once the connection is up and empty. */
  lemma ReconnectExact(es: seq<Event>)
    requires Paced(START, es)
    ensures var l := Run(START, es);
            && l.rcv.dispatched <= Accepted(l.given)
            && (!l.down && l.wire == [] ==> l.rcv.dispatched == Accepted(l.given))
  {
    assert Covered(START, 0);
    RunAccepts(START, es);
    var a := RunCovered(START, 0, es);
  }

  lemma {:induction false} AcceptedIff(given: seq<Given>)
    ensures |Accepted(given)| <= |given|
    ensures Accepted(given) == Payloads(given) <==> forall i :: 0 <= i < |given| ==> !given[i].down
    ensures (exists i :: 0 <= i < |given| && given[i].down) ==> |Accepted(given)| < |given|
  {
    if given != [] {
      var n := |given| - 1;
      AcceptedIff(given[..n]);
      assert given == given[..n] + [given[n]];
      assert forall i :: 0 <= i < n ==> given[..n][i] == given[i];
      hide Accepted, Payloads;
      AcceptedSnoc(given[..n], given[n]);
      PayloadsSnoc(given[..n], given[n]);
    }
  }

  lemma PayloadsSnoc(given: seq<Given>, g: Given)
    ensures Payloads(given + [g]) == Payloads(given) + [g.payload]
  {
    assert (given + [g])[..|given|] == given;
  }

  /** Nothing is lost if and only if nothing was written while the descriptor was closed. */
  lemma NothingLostIff(es: seq<Event>)
    requires Paced(START, es) && !Run(START, es).down && Run(START, es).wire == []
    ensures var l := Run(START, es);
            l.rcv.dispatched == Payloads(l.given) <==> forall i :: 0 <= i < |l.given| ==> !l.given[i].down
  {
    ReconnectExact(es);
    AcceptedIff(Run(START, es).given);
  }

  /** A payload written between the cut and the reconnect is gone for good. */
  lemma WrittenWhileDown(p: Bytestring)
    ensures var es := [Cut, Send(p), Reconnect]; var l := Run(START, es);
            Paced(START, es) && !l.down && l.wire == [] && l.given == [Given(p, true)] && l.rcv.dispatched == []
  {
    var es := [Cut, Send(p), Reconnect];
    var l1 := Apply(START, Cut);
    var l2 := Apply(l1, Send(p));
    assert es[1..] == [Send(p), Reconnect] && es[1..][1..] == [Reconnect];
    assert Run(l2, [Reconnect]) == Apply(l2, Reconnect);
    assert Run(l1, es[1..]) == Apply(l2, Reconnect);
    assert Paced(l2, [Reconnect]) && Paced(l1, es[1..]);
  }

  // ----- When replay works -----

  function DeliverAll(r: Receiver, wire: seq<Frame>): Receiver
    decreases |wire|
  {
    if wire == [] then r else DeliverAll(OnData(r, wire[0]), wire[1..])
  }

  lemma {:induction false} FlowsDelivers(r: Receiver, wire: seq<Frame>, sent: seq<Bytestring>)
    requires ReceiverAt(r, sent) && Flows(wire, |r.dispatched|, sent)
    ensures DeliverAll(r, wire).dispatched == sent
    decreases |wire|
  {
    if wire != [] {
      var l := Link(Sender(|sent| % SEQ_SPACE, Frames(sent, |sent|)), r, wire, [], sent, false, []);
      DeliverKeeps(l, |sent|);
      FlowsDelivers(OnData(r, wire[0]), wire[1..], sent);
    }
  }

  lemma {:induction false} AheadIgnored(r: Receiver, sent: seq<Bytestring>, a: nat)
    requires ReceiverAt(r, sent) && |r.dispatched| < a <= |sent| < |r.dispatched| + SEQ_SPACE
    ensures DeliverAll(r, Frames(sent, a)) == r
    decreases |sent| - a
  {
    if a < |sent| {
      var u := Frames(sent, a);
      SeqNosDiffer(|r.dispatched|, a);
      assert u[1..] == Frames(sent, a + 1);
      AheadIgnored(r, sent, a + 1);
    }
  }

  /** Replaying the queue from payload `a` on brings the receiver up to date if and only if `a` is not
      past the receiver's count; otherwise every replayed frame is dropped, and yet acknowledged. */
  lemma ReplayIff(r: Receiver, sent: seq<Bytestring>, a: nat)
    requires ReceiverAt(r, sent) && a <= |sent| <= a + WIRE_MAX_UNACKED
    requires |sent| < |r.dispatched| + SEQ_SPACE
    ensures DeliverAll(r, Frames(sent, a)).dispatched == sent <==> a <= |r.dispatched|
  {
    if a <= |r.dispatched| {
      FlowsReplay(sent, a, |r.dispatched|);
      FlowsDelivers(r, Frames(sent, a), sent);
    } else {
      AheadIgnored(r, sent, a);
    }
  }

  // ----- The two bounds are needed -----

  function Sends(ps: seq<Bytestring>): seq<Event>
  {
    seq(|ps|, i requires 0 <= i < |ps| => Send(ps[i]))
  }

  lemma {:induction false} SendsState(ps: seq<Bytestring>)
    ensures var l := Run(START, Sends(ps)); var n := |ps|;
            && l.sent == ps && l.rcv == START.rcv && !l.down
            && SenderAt(l.snd, ps, if n <= WIRE_MAX_UNACKED then 0 else n - WIRE_MAX_UNACKED)
    decreases |ps|
  {
    if ps == [] {
      assert Sends(ps) == [];
    } else {
      var n := |ps| - 1;
      var q := ps[..n];
      SendsState(q);
      assert ps == q + [ps[n]] && Sends(ps) == Sends(q) + [Send(ps[n])];
      RunConcat(START, Sends(q), [Send(ps[n])]);
      var l := Run(START, Sends(q));
      assert Run(l, [Send(ps[n])]) == Apply(l, Send(ps[n]));
      var a := if n <= WIRE_MAX_UNACKED then 0 else n - WIRE_MAX_UNACKED;
      WireWriteAt(l.snd, q, a, ps[n]);
    }
  }

  /** With more than 200 payloads undelivered a cut loses all of them, the ones replayed included. */
  lemma TooManyUndelivered(ps: seq<Bytestring>)
    requires WIRE_MAX_UNACKED < |ps| < SEQ_SPACE
    ensures var l := Run(START, Sends(ps) + [Cut, Reconnect]);
            l.sent == ps && !l.down && DeliverAll(l.rcv, l.wire).dispatched == []
  {
    SendsState(ps);
    RunConcat(START, Sends(ps), [Cut, Reconnect]);
    var l := Run(START, Sends(ps));
    TwoSteps(l, Cut, Reconnect);
    AheadIgnored(l.rcv, ps, |ps| - WIRE_MAX_UNACKED);
  }

  lemma TwoSteps(l: Link, a: Event, b: Event)
    ensures Run(l, [a, b]) == Apply(Apply(l, a), b)
  {
    hide Apply;
    assert [a, b][1..] == [b];
    assert Run(Apply(l, a), [b]) == Apply(Apply(l, a), b);
  }

  /** A payload sent, delivered and acknowledged. */
  function Round(p: Bytestring): seq<Event>
  {
    [Send(p), DeliverData, DeliverAck]
  }

  function Idle(sent: seq<Bytestring>): Link
  {
    Link(Sender(|sent| % SEQ_SPACE, []), Receiver(|sent| % SEQ_SPACE, sent), [], [], sent, false, AllUp(sent))
  }

  function AllUp(sent: seq<Bytestring>): seq<Given>
  {
    seq(|sent|, i requires 0 <= i < |sent| => Given(sent[i], false))
  }

  lemma RoundIdles(sent: seq<Bytestring>, p: Bytestring)
    ensures Run(Idle(sent), Round(p)) == Idle(sent + [p])
  {
    var f := Frame(|sent| % SEQ_SPACE, p);
    assert AllUp(sent) + [Given(p, false)] == AllUp(sent + [p]);
    hide AllUp;
    var l1 := Apply(Idle(sent), Send(p));
    assert l1.snd.unacked == [f] && l1.wire == [f];
    var l2 := Apply(l1, DeliverData);
    assert l2.acks == [f.seqNo];
    var l3 := Apply(l2, DeliverAck);
    assert PopAcked([f], f.seqNo) == [];
    NextSeqNo(|sent|);
    assert l3 == Idle(sent + [p]);
    assert Round(p)[1..] == [DeliverData, DeliverAck] && Round(p)[1..][1..] == [DeliverAck];
    assert Run(l2, [DeliverAck]) == l3;
    assert Run(l1, [DeliverData, DeliverAck]) == Run(l2, [DeliverAck]);
  }

  lemma {:induction false} RoundsIdle(n: nat, p: Bytestring) returns (es: seq<Event>)
    ensures Run(START, es) == Idle(seq(n, _ => p))
  {
    if n == 0 {
      es := [];
      assert seq(0, _ => p) == [];
      assert AllUp([]) == [];
    } else {
      var es' := RoundsIdle(n - 1, p);
      es := es' + Round(p);
      RunConcat(START, es', Round(p));
      RoundIdles(seq(n - 1, _ => p), p);
      assert seq(n - 1, _ => p) + [p] == seq(n, _ => p);
    }
  }

  /** Once the sequence numbers have wrapped, an acknowledgement of number 65535 also discards the
      undelivered frame number 0 behind it, and a cut then loses that payload for good: nothing is in
      flight, nothing is queued, and yet not everything has arrived. */
  lemma TooManySent(p: Bytestring) returns (es: seq<Event>)
    ensures var l := Run(START, es);
            && !l.down && l.wire == [] && l.snd.unacked == []
            && |l.sent| == SEQ_SPACE + 1 && |l.rcv.dispatched| == SEQ_SPACE
  {
    var es0 := RoundsIdle(SEQ_SPACE - 1, p);
    var sent := seq(SEQ_SPACE - 1, _ => p);
    var last := [Send(p), Send(p), DeliverData, DeliverAck] + [Cut, Reconnect];
    es := es0 + last;
    hide *;
    RunConcat(START, es0, last);
    WrapLoses(sent, p);
  }

  /** The last six events of that run. */
  lemma WrapLoses(sent: seq<Bytestring>, p: Bytestring)
    requires |sent| == SEQ_SPACE - 1
    ensures var l := Run(Idle(sent), [Send(p), Send(p), DeliverData, DeliverAck] + [Cut, Reconnect]);
            && !l.down && l.wire == [] && l.snd.unacked == []
            && |l.sent| == SEQ_SPACE + 1 && |l.rcv.dispatched| == SEQ_SPACE
  {
    var first := [Send(p), Send(p), DeliverData, DeliverAck];
    RunConcat(Idle(sent), first, [Cut, Reconnect]);
    FourSteps(Idle(sent), Send(p), Send(p), DeliverData, DeliverAck);
    TwoSteps(Run(Idle(sent), first), Cut, Reconnect);
    hide Run, AllUp;
    var l2 := Apply(Apply(Idle(sent), Send(p)), Send(p));
    assert l2.snd.unacked == [Frame(65535, p), Frame(0, p)] == l2.wire;
    var l3 := Apply(l2, DeliverData);
    assert l3.acks == [65535] && l3.snd == l2.snd && l3.rcv.dispatched == sent + [p];
    PopBoth(p);
  }

  lemma FourSteps(l: Link, a: Event, b: Event, c: Event, d: Event)
    ensures Run(l, [a, b, c, d]) == Apply(Apply(Apply(Apply(l, a), b), c), d)
  {
    hide Apply;
    assert [a, b, c, d][1..] == [b, c, d] && [b, c, d][1..] == [c, d];
    TwoSteps(Apply(Apply(l, a), b), c, d);
  }

  lemma PopBoth(p: Bytestring)
    ensures PopAcked([Frame(65535, p), Frame(0, p)], 65535) == []
  {
    var u := [Frame(65535, p), Frame(0, p)];
    assert u[1..] == [Frame(0, p)];
    assert PopAcked(u[1..], 65535) == PopAcked(u[1..][1..], 65535);
  }
}
