/** The reliable-delivery fields of a `DataConnection`, updated in place, and the frames as bytes. */
module DataConnection {
  import opened Bytes
  import opened ReliableLink
  import FrameReader
  import Segments

  const WIRE_RETRANSMIT_MS: int := 200

  datatype PendingFrame = PendingFrame(frame: Frame, sentAt: int)

  function Plain(u: seq<PendingFrame>): (r: seq<Frame>)
    ensures |r| == |u|
  {
    if u == [] then [] else [u[0].frame] + Plain(u[1..])
  }

  lemma PlainTail(u: seq<PendingFrame>)
    requires u != []
    ensures Plain(u)[0] == u[0].frame && Plain(u)[1..] == Plain(u[1..])
  {
  }

  lemma PlainHead(x: PendingFrame, u: seq<PendingFrame>)
    ensures Plain([x] + u) == [x.frame] + Plain(u)
  {
    assert ([x] + u)[1..] == u;
  }

  lemma {:induction false} PlainSnoc(u: seq<PendingFrame>, x: PendingFrame)
    ensures Plain(u + [x]) == Plain(u) + [x.frame]
  {
    if u != [] {
      assert (u + [x])[1..] == u[1..] + [x];
      PlainSnoc(u[1..], x);
    }
  }

  lemma {:induction false} PlainSame(u: seq<PendingFrame>, k: nat, x: PendingFrame)
    requires k < |u| && x.frame == u[k].frame
    ensures Plain(u[k := x]) == Plain(u)
  {
    if k == 0 {
      assert u[0 := x][1..] == u[1..];
    } else {
      assert u[k := x][1..] == u[1..][k - 1 := x];
      PlainSame(u[1..], k - 1, x);
    }
  }

  // ----- When frames were handed over -----

  lemma QueueLimit(u: seq<PendingFrame>, next: u16)
    requires Numbered(u, next)
    ensures |u| <= WIRE_MAX_UNACKED
  {
  }

  /** The time at which a frame with this number was last handed to the writer, or -1 if none was. */
  function LastTime(wrote: seq<Frame>, times: seq<int>, seqNo: u16): int
    requires |times| == |wrote|
  {
    if wrote == [] then -1
    else
      var k := |wrote| - 1;
      if wrote[k].seqNo == seqNo then times[k] else LastTime(wrote[..k], times[..k], seqNo)
  }

  lemma HandOver(wrote: seq<Frame>, times: seq<int>, f: Frame, now: int, seqNo: u16)
    requires |times| == |wrote|
    ensures LastTime(wrote + [f], times + [now], seqNo) ==
            if f.seqNo == seqNo then now else LastTime(wrote, times, seqNo)
  {
    assert (wrote + [f])[..|wrote|] == wrote && (times + [now])[..|times|] == times;
  }

  /** The queue is the last frames sent, in order, so no two of them share a number. */
  predicate Numbered(u: seq<PendingFrame>, next: u16)
  {
    && |u| <= WIRE_MAX_UNACKED
    && forall i :: 0 <= i < |u| ==> u[i].frame.seqNo == (next + SEQ_SPACE - |u| + i) % SEQ_SPACE
  }

  /** Every queued frame carries the time at which it was last handed to the writer. */
  predicate Timed(u: seq<PendingFrame>, wrote: seq<Frame>, times: seq<int>)
    requires |times| == |wrote|
  {
    forall i :: 0 <= i < |u| ==> u[i].sentAt == LastTime(wrote, times, u[i].frame.seqNo)
  }

  lemma NumbersDiffer(u: seq<PendingFrame>, next: u16, i: nat, j: nat)
    requires Numbered(u, next) && i < j < |u|
    ensures u[i].frame.seqNo != u[j].frame.seqNo && u[i].frame.seqNo != next
  {
  }

  lemma NumbersTail(u: seq<PendingFrame>, next: u16)
    requires Numbered(u, next) && u != []
    ensures Numbered(u[1..], next)
  {
  }

  lemma NumbersSnoc(u: seq<PendingFrame>, f: Frame, now: int)
    requires Numbered(u, f.seqNo) && |u| < WIRE_MAX_UNACKED
    ensures Numbered(u + [PendingFrame(f, now)], (f.seqNo + 1) % SEQ_SPACE)
  {
    var v, next := u + [PendingFrame(f, now)], (f.seqNo + 1) % SEQ_SPACE;
    forall i | 0 <= i < |v|
      ensures v[i].frame.seqNo == (next + SEQ_SPACE - |v| + i) % SEQ_SPACE
    {
      assert i < |u| ==> v[i] == u[i];
    }
  }

  lemma TimesTail(u: seq<PendingFrame>, wrote: seq<Frame>, times: seq<int>)
    requires |times| == |wrote| && Timed(u, wrote, times) && u != []
    ensures Timed(u[1..], wrote, times)
  {
    hide LastTime;
  }

  /** A frame that is not queued is handed over. */
  lemma TimesNew(u: seq<PendingFrame>, wrote: seq<Frame>, times: seq<int>, f: Frame, now: int)
    requires |times| == |wrote| && Timed(u, wrote, times) && Numbered(u, f.seqNo)
    ensures Timed(u + [PendingFrame(f, now)], wrote + [f], times + [now])
  {
    hide LastTime;
    var v := u + [PendingFrame(f, now)];
    forall i | 0 <= i < |v|
      ensures v[i].sentAt == LastTime(wrote + [f], times + [now], v[i].frame.seqNo)
    {
      HandOver(wrote, times, f, now, v[i].frame.seqNo);
      assert i < |u| ==> v[i] == u[i] && u[i].frame.seqNo != f.seqNo;
    }
  }

  /** Frame number `k` of the queue is handed over again. */
  lemma TimesAgain(u: seq<PendingFrame>, next: u16, wrote: seq<Frame>, times: seq<int>, k: nat, now: int)
    requires |times| == |wrote| && Timed(u, wrote, times) && Numbered(u, next) && k < |u|
    ensures var v := u[k := PendingFrame(u[k].frame, now)];
            Numbered(v, next) && Timed(v, wrote + [u[k].frame], times + [now])
  {
    hide LastTime;
    var f, v := u[k].frame, u[k := PendingFrame(u[k].frame, now)];
    forall i | 0 <= i < |v|
      ensures v[i].sentAt == LastTime(wrote + [f], times + [now], v[i].frame.seqNo)
    {
      HandOver(wrote, times, f, now, v[i].frame.seqNo);
      if i < k {
        NumbersDiffer(u, next, i, k);
      } else if i > k {
        NumbersDiffer(u, next, k, i);
      }
    }
  }

  /** `wrote` logs the frames handed to the connection's writer, `times` when that was, `acked` the
      acknowledgements. */
  class Connection {
    /** The descriptor, negative from the loss of the connection until the reconnect. */
    var fd: int
    var sendSeq: u16
    var unacked: seq<PendingFrame>
    var recvSeq: u16
    var dispatched: seq<Bytestring>
    var wrote: seq<Frame>
    ghost var times: seq<int>
    var acked: seq<u16>

    /** The queue holds the last frames sent, each with the time at which it was last handed over. */
    ghost predicate Valid()
      reads this
    {
      |times| == |wrote| && Numbered(unacked, sendSeq) && Timed(unacked, wrote, times)
    }

    function SenderView(): Sender
      reads this
    {
      Sender(sendSeq, Plain(unacked))
    }

    function ReceiverView(): Receiver
      reads this
    {
      Receiver(recvSeq, dispatched)
    }

    constructor (fd: int)
      ensures this.fd == fd
      ensures SenderView() == START.snd && ReceiverView() == START.rcv && wrote == [] && acked == []
      ensures Valid()
    {
      this.fd := fd;
      sendSeq, unacked, recvSeq, dispatched, wrote, times, acked := 0, [], 0, [], [], [], [];
    }

    /** `wire_write` to a port. While the descriptor is closed the payload is dropped, without a number. */
    method WireWrite(payload: Bytestring, now: int) returns (ret: int)
      requires Valid()
      modifies this`sendSeq, this`unacked, this`wrote, this`times
      ensures Valid() && ret == 0
      ensures times == if fd < 0 then old(times) else old(times) + [now]
      ensures fd < 0 ==> SenderView() == old(SenderView()) && wrote == old(wrote)
      ensures fd >= 0 ==> SenderView() == ReliableLink.WireWrite(old(SenderView()), payload).0
      ensures fd >= 0 ==> wrote == old(wrote) + [ReliableLink.WireWrite(old(SenderView()), payload).1]
    {
      hide Plain, LastTime, Numbered, Timed;
      ret := 0;
      if fd < 0 {
        return;
      }
      var f := Frame(sendSeq, payload);
      sendSeq := (sendSeq + 1) % SEQ_SPACE;
      QueueLimit(unacked, f.seqNo);
      if |unacked| >= WIRE_MAX_UNACKED {
        PlainTail(unacked);
        NumbersTail(unacked, f.seqNo);
        TimesTail(unacked, wrote, times);
        unacked := unacked[1..];
      }
      PlainSnoc(unacked, PendingFrame(f, now));
      NumbersSnoc(unacked, f, now);
      TimesNew(unacked, wrote, times, f, now);
      wrote, times := wrote + [f], times + [now];
      unacked := unacked + [PendingFrame(f, now)];
    }

    /** The acknowledgement loop of the reader. */
    method OnAck(ack: u16)
      requires Valid()
      modifies this`unacked
      ensures Valid()
      ensures SenderView() == old(SenderView()).(unacked := PopAcked(old(SenderView()).unacked, ack))
    {
      hide Plain, LastTime, Numbered, Timed;
      while unacked != [] && unacked[0].frame.seqNo <= ack
        invariant Valid()
        invariant PopAcked(Plain(unacked), ack) == PopAcked(old(Plain(unacked)), ack)
        decreases |unacked|
      {
        PlainTail(unacked);
        NumbersTail(unacked, sendSeq);
        TimesTail(unacked, wrote, times);
        unacked := unacked[1..];
      }
      if unacked != [] {
        PlainTail(unacked);
      }
    }

    /** A data frame in the reader: dispatched if it is the expected one, acknowledged in any case. */
    method OnData(f: Frame)
      modifies this`recvSeq, this`dispatched, this`acked
      ensures ReceiverView() == ReliableLink.OnData(old(ReceiverView()), f)
      ensures acked == old(acked) + [f.seqNo]
    {
      if f.seqNo == recvSeq {
        recvSeq := (recvSeq + 1) % SEQ_SPACE;
        dispatched := dispatched + [f.payload];
      }
      acked := acked + [f.seqNo];
    }

    /** The oldest frame is queued, and was last handed to the writer more than 200 ms before `now`. */
    ghost predicate Overdue(now: int)
      reads this
      requires Valid()
    {
      unacked != [] && now - LastTime(wrote, times, unacked[0].frame.seqNo) > 200
    }

    /** The retransmission loop of one tick: it rewrites the oldest frame if and only if that frame is overdue, and
        stops there, because the frame has just been given a fresh time. */
    method Retransmit(now: int)
      requires Valid()
      modifies this`unacked, this`wrote, this`times
      ensures Valid() && SenderView() == old(SenderView())
      ensures wrote == old(wrote) + if fd >= 0 && old(Overdue(now)) then [old(unacked)[0].frame] else []
      ensures times == old(times) + if fd >= 0 && old(Overdue(now)) then [now] else []
    {
      hide Plain, LastTime, Numbered;
      if fd < 0 {
        return;
      }
      while unacked != []
        invariant Valid() && Plain(unacked) == old(Plain(unacked))
        invariant (unacked == old(unacked) && wrote == old(wrote) && times == old(times)) ||
                  (old(Overdue(now)) && unacked != [] && unacked[0].sentAt == now &&
                   wrote == old(wrote) + [old(unacked)[0].frame] && times == old(times) + [now])
        decreases unacked != [] && now - unacked[0].sentAt > WIRE_RETRANSMIT_MS
      {
        var oldest := unacked[0];
        if now - oldest.sentAt > WIRE_RETRANSMIT_MS {
          TimesAgain(unacked, sendSeq, wrote, times, 0, now);
          wrote, times := wrote + [oldest.frame], times + [now];
          PlainTail(unacked);
          PlainHead(PendingFrame(oldest.frame, now), unacked[1..]);
          assert unacked[0 := PendingFrame(oldest.frame, now)] == [PendingFrame(oldest.frame, now)] + unacked[1..];
          unacked := [PendingFrame(oldest.frame, now)] + unacked[1..];
        } else {
          break;
        }
      }
    }

    /** The loss of the connection. */
    method Hup()
      modifies this`fd
      ensures fd < 0
    {
      fd := -1;
    }

    /** Reconnect: every unacknowledged frame is written again, in order; `clock` gives the readings of the
        clock. */
    method Replay(newFd: int, clock: int -> int)
      requires newFd >= 0 && Valid()
      modifies this`fd, this`unacked, this`wrote, this`times
      ensures Valid() && fd == newFd && SenderView() == old(SenderView())
      ensures wrote == old(wrote) + old(SenderView()).unacked
      ensures times == old(times) + seq(|old(unacked)|, i => clock(i))
    {
      hide Plain, LastTime, Numbered, Timed;
      fd := newFd;
      ghost var was := unacked;
      var k := 0;
      while k < |unacked|
        invariant 0 <= k <= |unacked| == |was| && Valid() && fd == newFd && Plain(unacked) == Plain(was)
        invariant wrote == old(wrote) + Plain(was[..k]) && times == old(times) + seq(k, i => clock(i))
        invariant forall i :: k <= i < |was| ==> unacked[i] == was[i]
      {
        var f, now := unacked[k].frame, clock(k);
        TimesAgain(unacked, sendSeq, wrote, times, k, now);
        PlainSame(unacked, k, PendingFrame(f, now));
        PlainSnoc(was[..k], was[k]);
        assert was[..k] + [was[k]] == was[..k + 1];
        assert seq(k, i => clock(i)) + [now] == seq(k + 1, i => clock(i));
        wrote, times := wrote + [f], times + [now];
        unacked := unacked[k := PendingFrame(f, now)];
        k := k + 1;
      }
      assert was[..k] == was;
    }
  }

  // ----- Frames as bytes -----

  /** The body of a data frame: the type, the sequence number in little-endian order, the payload. */
  function Body(f: Frame): Bytestring
  {
    [FrameReader.WIRE_DATA, f.seqNo % 256, f.seqNo / 256] + f.payload
  }

  function ParseBody(b: Bytestring): Frame
    requires |b| >= 3
  {
    Frame(b[1] as int + 256 * (b[2] as int), b[3..])
  }

  lemma ParseBodyOf(f: Frame)
    ensures ParseBody(Body(f)) == f
  {
  }

  /** A frame of any kind on the connection: data, or an acknowledgement, a control message, a heartbeat or a
      half-close, given by its body. */
  datatype Sent = DataFrame(f: Frame) | OtherFrame(body: Bytestring)

  function BodyOf(x: Sent): Bytestring
  {
    match x
    case DataFrame(f) => Body(f)
    case OtherFrame(body) => body
  }

  predicate SentOk(shut: byte, x: Sent)
  {
    match x
    case DataFrame(f) => |f.payload| + 3 < FrameReader.TWO_56
    case OtherFrame(body) => FrameReader.WellFormed(shut, body) && body[0] != FrameReader.WIRE_DATA
  }

  function Bodies(wire: seq<Sent>): (r: seq<Bytestring>)
    ensures |r| == |wire|
    ensures forall i :: 0 <= i < |wire| ==> r[i] == BodyOf(wire[i])
  {
    if wire == [] then [] else [BodyOf(wire[0])] + Bodies(wire[1..])
  }

  /** What the reader does with a body: it is a data frame, or it is something else. */
  function Understand(body: Bytestring): Sent
  {
    if |body| >= 3 && body[0] == FrameReader.WIRE_DATA then DataFrame(ParseBody(body)) else OtherFrame(body)
  }

  lemma UnderstandBody(shut: byte, x: Sent)
    requires SentOk(shut, x)
    ensures FrameReader.WellFormed(shut, BodyOf(x)) || shut == FrameReader.WIRE_DATA
    ensures Understand(BodyOf(x)) == x
  {
    if x.DataFrame? {
      ParseBodyOf(x.f);
    }
  }

  /** A connection cut at any byte, whatever the reads before the cut returned, has delivered a whole number of
      frames of the stream, data frames among frames of other kinds, in order and each as it was sent; the
      rest of a half-received frame is not mistaken for anything. */
  lemma CutAtAnyByte(shut: byte, wire: seq<Sent>, pieces: seq<Bytestring>) returns (k: nat)
    requires shut != FrameReader.WIRE_DATA && forall x :: x in wire ==> SentOk(shut, x)
    requires Flatten(pieces) <= Segments.EncAll(FrameReader.EncFrame, Bodies(wire))
    ensures k <= |wire|
    ensures var got := Segments.Feed(FrameReader.FrameParser(shut), [], pieces).0;
            |got| == k && forall i :: 0 <= i < k ==> Understand(got[i]) == wire[i]
  {
    forall b | b in Bodies(wire)
      ensures FrameReader.WellFormed(shut, b)
    {
      var i :| 0 <= i < |wire| && b == Bodies(wire)[i];
      assert wire[i] in wire;
      UnderstandBody(shut, wire[i]);
    }
    hide FrameReader.WellFormed, Understand, SentOk, BodyOf;
    FrameReader.ReaderExact(shut, Bodies(wire), pieces);
    var got := Segments.Feed(FrameReader.FrameParser(shut), [], pieces).0;
    k := |got|;
    forall i | 0 <= i < k
      ensures Understand(got[i]) == wire[i]
    {
      assert got[i] == Bodies(wire)[i];
      assert wire[i] in wire;
      UnderstandBody(shut, wire[i]);
    }
  }
}
