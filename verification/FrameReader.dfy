/** The incremental frame reader of a data connection (server/session.cpp, client/client.cpp). */
module FrameReader {
  import opened Bytes
  import opened Varint
  import Segments

  const MAX_PACKET_SIZE: nat := 131072
  const WIRE_DATA: byte := 0
  const WIRE_SHUTDOWN_WR: byte := 3
  const WIRE_SHUTDOWN_WR_ACK: byte := 4
  const WIRE_DATA_ACK: byte := 6
  const TWO_56: nat := 0x100_0000_0000_0000

  /** A frame on the wire: the length of the body, then the body, whose first byte is its type. */
  function EncFrame(body: Bytestring): Bytestring
  {
    Enc(|body|) + body
  }

  /** A body the reader accepts. `shut` is the half-close type that the side in question parses:
      WIRE_SHUTDOWN_WR in the session, WIRE_SHUTDOWN_WR_ACK in the client. */
  predicate WellFormed(shut: byte, body: Bytestring)
  {
    && 1 <= |body| < TWO_56
    && body[0] <= WIRE_DATA_ACK
    && (body[0] == shut ==> |body| >= 2)
  }

  /** One turn of the parse loop. Eight length bytes without an end, an unknown type or a short
      half-close frame make the reader drop its buffer. */
  function ParseFrame(shut: byte, buf: Bytestring): Segments.Outcome<Bytestring>
  {
    var s := Scan(buf, 8);
    if !s.terminated then
      if s.pos < 8 then Segments.Need else Segments.Bad
    else if s.pos + s.value > |buf| || s.value < 1 then Segments.Need
    else
      var kind := buf[s.pos];
      if kind > WIRE_DATA_ACK || (kind == shut && s.value < 2) then Segments.Bad
      else Segments.Got(s.pos + s.value, buf[s.pos..s.pos + s.value])
  }

  function FrameParser(shut: byte): Segments.Parser<Bytestring>
  {
    (buf: Bytestring) => ParseFrame(shut, buf)
  }

  function FrameOk(shut: byte): Bytestring -> bool
  {
    (body: Bytestring) => WellFormed(shut, body)
  }

  /** One turn of the parse loop, on the unread bytes `ptr`. */
  method TakeFrame(shut: byte, ptr: Bytestring) returns (r: Segments.Outcome<Bytestring>)
    ensures r == ParseFrame(shut, ptr)
  {
    if |ptr| < 1 {
      return Segments.Need;
    }
    var val, pos, terminated := ReadVarint(ptr, 8);
    if pos >= 10 || (!terminated && pos >= 8) {
      return Segments.Bad;
    }
    if !terminated || pos + val > |ptr| || val < 1 {
      return Segments.Need;
    }
    var kind := ptr[pos];
    if kind > WIRE_DATA_ACK || (kind == shut && val < 2) {
      return Segments.Bad;
    }
    return Segments.Got(pos + val, ptr[pos..pos + val]);
  }

  /** The parse loop: consumes complete frames from offset `start` of `buf` on. */
  method TakeFrames(shut: byte, buf: Bytestring, start: nat)
    returns (bodies: seq<Bytestring>, buf': Bytestring, off: nat)
    requires start <= |buf|
    ensures off <= |buf'|
    ensures bodies == Segments.Drain(FrameParser(shut), buf[start..]).0
    ensures buf'[off..] == Segments.Drain(FrameParser(shut), buf[start..]).1
  {
    hide *;
    ghost var parse := FrameParser(shut);
    ghost var all := Segments.Drain(parse, buf[start..]);
    bodies, buf', off := [], buf, start;
    while true
      invariant off <= |buf| == |buf'| && buf' == buf
      invariant all.1 == Segments.Drain(parse, buf[off..]).1
      invariant all.0 == bodies + Segments.Drain(parse, buf[off..]).0
      decreases |buf| - off
    {
      var ptr := buf[off..];
      var r := TakeFrame(shut, ptr);
      FrameStep(shut, ptr, bodies);
      match r
      case Need =>
        break;
      case Bad =>
        buf', off := [], 0;
        return;
      case Got(n, body) =>
        assert ptr[n..] == buf[off + n..];
        bodies := bodies + [body];
        off := off + n;
    }
  }

  lemma FrameStep(shut: byte, ptr: Bytestring, done: seq<Bytestring>)
    ensures ParseFrame(shut, ptr).Need? ==> Segments.Drain(FrameParser(shut), ptr) == ([], ptr)
    ensures ParseFrame(shut, ptr).Bad? ==> Segments.Drain(FrameParser(shut), ptr) == ([], [])
    ensures ParseFrame(shut, ptr).Got? ==> 1 <= ParseFrame(shut, ptr).size <= |ptr|
    ensures ParseFrame(shut, ptr).Got? ==>
              var rest := Segments.Drain(FrameParser(shut), ptr[ParseFrame(shut, ptr).size..]);
              && done + Segments.Drain(FrameParser(shut), ptr).0 == (done + [ParseFrame(shut, ptr).item]) + rest.0
              && Segments.Drain(FrameParser(shut), ptr).1 == rest.1
  {
    if ParseFrame(shut, ptr).Got? {
      Segments.DrainGot(FrameParser(shut), ptr, done);
    }
  }

  /** The reader's part of a `DataConnection`; `dispatched` logs the bodies handed on. */
  class Reader {
    const shut: byte
    var readBuf: Bytestring
    var readOffset: nat
    var dispatched: seq<Bytestring>

    ghost predicate Valid()
      reads this
    {
      readOffset <= |readBuf|
    }

    /** The bytes read from the socket and not yet consumed. */
    ghost function Pending(): Bytestring
      requires Valid()
      reads this
    {
      readBuf[readOffset..]
    }

    constructor (shut: byte)
      ensures Valid() && Pending() == [] && dispatched == [] && this.shut == shut
    {
      this.shut := shut;
      readBuf, readOffset, dispatched := [], 0, [];
    }

    /** The body of the EPOLLIN handler for a read that returned `chunk`. */
    method OnRead(chunk: Bytestring)
      requires Valid()
      modifies this
      ensures Valid()
      ensures var r := Segments.Drain(FrameParser(shut), old(Pending()) + chunk);
              dispatched == old(dispatched) + r.0 && Pending() == r.1
    {
      assert (readBuf + chunk)[readOffset..] == old(Pending()) + chunk;
      readBuf := readBuf + chunk;
      var bodies, buf, off := TakeFrames(shut, readBuf, readOffset);
      dispatched := dispatched + bodies;
      readBuf, readOffset := buf, off;
      if readOffset > MAX_PACKET_SIZE {
        ghost var before := Pending();
        readBuf := readBuf[readOffset..];
        readOffset := 0;
        assert Pending() == before;
      }
    }
  }

  lemma Pow128Of8()
    ensures TWO_56 == Pow128(8)
  {
    assert Pow128(4) == 0x1000_0000;
    assert Pow128(8) == 0x1000_0000 * 0x1000_0000;
  }

  lemma FrameWhole(shut: byte, body: Bytestring, rest: Bytestring)
    requires WellFormed(shut, body)
    ensures ParseFrame(shut, EncFrame(body) + rest) == Segments.Got(|EncFrame(body)|, body)
  {
    Pow128Of8();
    var buf := EncFrame(body) + rest;
    assert buf == Enc(|body|) + (body + rest);
    ScanEnc(|body|, body + rest, 8);
    assert buf[|Enc(|body|)|..|EncFrame(body)|] == body;
  }

  lemma FrameCut(shut: byte, body: Bytestring, n: nat)
    requires WellFormed(shut, body) && n < |EncFrame(body)|
    ensures ParseFrame(shut, EncFrame(body)[..n]) == Segments.Need
  {
    Pow128Of8();
    var e, cut := Enc(|body|), EncFrame(body)[..n];
    EncLength(|body|, 8);
    if n < |e| {
      assert cut == e[..n];
      ScanCut(|body|, n, 8);
    } else {
      assert cut == e + body[..n - |e|];
      ScanEnc(|body|, body[..n - |e|], 8);
    }
  }

  lemma FrameExact(shut: byte)
    ensures Segments.Exact(FrameParser(shut), EncFrame, FrameOk(shut))
  {
    var parse, ok := FrameParser(shut), FrameOk(shut);
    forall body, rest | ok(body)
      ensures parse(EncFrame(body) + rest) == Segments.Got(|EncFrame(body)|, body)
    {
      FrameWhole(shut, body, rest);
    }
    forall body, n | ok(body) && 0 <= n < |EncFrame(body)|
      ensures parse(EncFrame(body)[..n]).Need?
    {
      FrameCut(shut, body, n);
    }
  }

  /** For all lists of well-formed frames and all cuttings of their bytes into reads, inside the
      length varint included, the reader dispatches exactly those frames, in order, and keeps exactly
      the unfinished suffix. `Reader.OnRead` computes one step of this run. */
  lemma ReaderExact(shut: byte, frames: seq<Bytestring>, pieces: seq<Bytestring>)
    requires forall f :: f in frames ==> WellFormed(shut, f)
    requires Flatten(pieces) <= Segments.EncAll(EncFrame, frames)
    ensures var r := Segments.Feed(FrameParser(shut), [], pieces);
            Segments.ExactCut(EncFrame, frames, Flatten(pieces), r.0, r.1)
  {
    FrameExact(shut);
    Segments.FeedExact(FrameParser(shut), EncFrame, FrameOk(shut), frames, pieces);
  }

  // ----- Malformed input -----

  /** A frame of an unknown type, or a half-close frame without a connection number. */
  predicate Malformed(shut: byte, body: Bytestring)
  {
    1 <= |body| < TWO_56 && !WellFormed(shut, body)
  }

  lemma MalformedBad(shut: byte, body: Bytestring, rest: Bytestring)
    requires Malformed(shut, body)
    ensures ParseFrame(shut, EncFrame(body) + rest) == Segments.Bad
  {
    Pow128Of8();
    var buf := EncFrame(body) + rest;
    assert buf == Enc(|body|) + (body + rest);
    ScanEnc(|body|, body + rest, 8);
    assert buf[|Enc(|body|)|] == body[0];
  }

  /** A malformed frame costs all that follows it in the buffer: the frames before it are dispatched and the buffer
      is dropped, with every frame behind it. */
  lemma {:induction false} MalformedDrops(shut: byte, frames: seq<Bytestring>, body: Bytestring, rest: Bytestring)
    requires (forall f :: f in frames ==> WellFormed(shut, f)) && Malformed(shut, body)
    ensures var buf := Segments.EncAll(EncFrame, frames) + (EncFrame(body) + rest);
            Segments.Drain(FrameParser(shut), buf) == (frames, [])
    decreases |frames|
  {
    hide ParseFrame, WellFormed, EncFrame, Segments.Drain, Segments.EncAll, Malformed;
    var tail := EncFrame(body) + rest;
    AllFrames(frames);
    if frames == [] {
      assert [] + tail == tail;
      MalformedBad(shut, body, rest);
      FrameStep(shut, tail, []);
    } else {
      var x, more := frames[0], Segments.EncAll(EncFrame, frames[1..]);
      assert x in frames;
      MalformedDrops(shut, frames[1..], body, rest);
      Assoc(EncFrame(x), more, tail);
      TakeOne(shut, x, more + tail);
      assert [x] + frames[1..] == frames;
    }
  }

  lemma AllFrames(frames: seq<Bytestring>)
    ensures Segments.EncAll(EncFrame, frames) ==
            if frames == [] then [] else EncFrame(frames[0]) + Segments.EncAll(EncFrame, frames[1..])
  {
  }

  /** The parse loop takes a whole frame off the front. */
  lemma TakeOne(shut: byte, body: Bytestring, rest: Bytestring)
    requires WellFormed(shut, body)
    ensures var (xs, left) := Segments.Drain(FrameParser(shut), rest);
            Segments.Drain(FrameParser(shut), EncFrame(body) + rest) == ([body] + xs, left)
  {
    hide ParseFrame, WellFormed, EncFrame;
    var buf := EncFrame(body) + rest;
    FrameWhole(shut, body, rest);
    FrameSize(body);
    assert FrameParser(shut)(buf) == Segments.Got(|EncFrame(body)|, body);
    assert buf[|EncFrame(body)|..] == rest;
  }

  lemma FrameSize(body: Bytestring)
    ensures |EncFrame(body)| >= 1
  {
  }

  lemma {:induction false} NoEnd(buf: Bytestring, limit: nat)
    requires |buf| >= limit && forall i :: 0 <= i < limit ==> buf[i] >= 128
    ensures !Scan(buf, limit).terminated && Scan(buf, limit).pos == limit
  {
    if limit > 0 {
      NoEnd(buf[1..], limit - 1);
    }
  }

  /** Eight length bytes without an end: the buffer is dropped. */
  lemma EndlessLengthDrops(shut: byte, buf: Bytestring)
    requires |buf| >= 8 && forall i :: 0 <= i < 8 ==> buf[i] >= 128
    ensures Segments.Drain(FrameParser(shut), buf) == ([], [])
  {
    NoEnd(buf, 8);
    assert FrameParser(shut)(buf) == Segments.Bad;
  }

  /** A frame of length 0 stalls the reader for ever: it is waited for, and so is all that comes after it, however
      much is read. */
  lemma {:induction false} EmptyFrameStalls(shut: byte, kept: Bytestring, pieces: seq<Bytestring>)
    requires kept != [] && kept[0] == 0
    ensures Segments.Feed(FrameParser(shut), kept, pieces) == ([], kept + Flatten(pieces))
    decreases |pieces|
  {
    if pieces == [] {
      NoneRight(kept);
    } else {
      var buf := kept + pieces[0];
      assert buf[0] == 0 && ParseFrame(shut, buf) == Segments.Need;
      FrameStep(shut, buf, []);
      EmptyFrameStalls(shut, buf, pieces[1..]);
      var r := Segments.Feed(FrameParser(shut), buf, pieces[1..]);
      assert Segments.Feed(FrameParser(shut), kept, pieces) == ([] + r.0, r.1);
      NoneRight<Bytestring>([]);
      Assoc(kept, pieces[0], Flatten(pieces[1..]));
    }
  }
}
