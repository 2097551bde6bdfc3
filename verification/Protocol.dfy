/** Protocol packets of core/protocol.cpp: a type varint, a length varint and the payload. */
module Protocol {
  import opened Bytes
  import opened Varint
  import Segments

  datatype Packet = Packet(mtype: byte, payload: Bytestring)

  function Serialize(p: Packet): Bytestring
  {
    Enc(p.mtype) + (Enc(|p.payload|) + p.payload)
  }

  /** Result of `read_varint`: a varint that does not end within ten bytes reads as 0. */
  function ReadVal(buf: Bytestring): (nat, nat)
  {
    var s := Scan(buf, 10);
    (if s.terminated then s.value % TWO_64 else 0, s.pos)
  }

  type Parsed = Segments.Outcome<Packet>

  function TryParse(buf: Bytestring): Parsed
  {
    var (typeVal, typeLen) := ReadVal(buf);
    if typeLen == 0 || typeVal > 0xFF then Segments.Need
    else
      var (payLen, lenLen) := ReadVal(buf[typeLen..]);
      if lenLen == 0 then Segments.Need
      else
        var offset := typeLen + lenLen;
        var total := offset + payLen;
        if |buf| < total then Segments.Need
        else Segments.Got(total, Packet(typeVal, buf[offset..total]))
  }

  /** `Protocol::serialize`, with its output vector built in place. */
  method BuildPacket(p: Packet) returns (out: Bytestring)
    requires |p.payload| < TWO_64
    ensures out == Serialize(p)
  {
    out := WriteVarint([], p.mtype);
    out := WriteVarint(out, |p.payload|);
    out := out + p.payload;
  }

  /** `Protocol::try_parse`: returns the bytes consumed, 0 meaning none. */
  method ParsePacket(buf: Bytestring) returns (consumed: nat, p: Packet)
    ensures consumed == 0 <==> TryParse(buf).Need?
    ensures consumed > 0 ==> TryParse(buf) == Segments.Got(consumed, p)
    ensures consumed <= |buf|
  {
    consumed, p := 0, Packet(0, []);
    var v, n, done := ReadVarint(buf, 10);
    var typeVal := if done then v % TWO_64 else 0;
    if n == 0 || typeVal > 0xFF {
      return;
    }
    var w, m, done2 := ReadVarint(buf[n..], 10);
    var payLen := if done2 then w % TWO_64 else 0;
    if m == 0 {
      return;
    }
    if |buf| < n + m + payLen {
      return;
    }
    consumed, p := n + m + payLen, Packet(typeVal, buf[n + m..n + m + payLen]);
  }

  lemma Pow128Of10()
    ensures TWO_64 < Pow128(10)
  {
    assert Pow128(5) == 0x8_0000_0000 by { assert Pow128(3) == 0x20_0000; }
    assert Pow128(10) == 0x8_0000_0000 * 0x8_0000_0000 by { assert Pow128(8) == 128 * 128 * 128 * Pow128(5); }
  }

  lemma ReadEnc(v: nat, rest: Bytestring)
    requires v < TWO_64
    ensures ReadVal(Enc(v) + rest) == (v, |Enc(v)|)
  {
    Pow128Of10();
    ScanEnc(v, rest, 10);
  }

  lemma ReadCut(v: nat, n: nat)
    requires v < TWO_64 && n < |Enc(v)|
    ensures ReadVal(Enc(v)[..n]) == (0, n)
  {
    Pow128Of10();
    ScanCut(v, n, 10);
  }

  /** Round trip with the exact length, whatever bytes follow. */
  lemma ParseSerialize(p: Packet, rest: Bytestring)
    requires |p.payload| < TWO_64
    ensures TryParse(Serialize(p) + rest) == Segments.Got(|Serialize(p)|, p)
  {
    var t, l := Enc(p.mtype), Enc(|p.payload|);
    var buf := Serialize(p) + rest;
    assert buf == t + (l + (p.payload + rest));
    ReadEnc(p.mtype, l + (p.payload + rest));
    assert buf[|t|..] == l + (p.payload + rest);
    ReadEnc(|p.payload|, p.payload + rest);
    assert buf[|t| + |l|..|t| + |l| + |p.payload|] == p.payload;
  }

  /** A packet cut short is recognised as incomplete exactly when the cut is not strictly inside the
      length varint; a cut there is taken for a complete packet with an empty payload. */
  lemma ParseCut(p: Packet, n: nat)
    requires |p.payload| < TWO_64 && n < |Serialize(p)|
    ensures TryParse(Serialize(p)[..n]).Need? <==> !(|Enc(p.mtype)| < n < |Enc(p.mtype)| + |Enc(|p.payload|)|)
    ensures |Enc(p.mtype)| < n < |Enc(p.mtype)| + |Enc(|p.payload|)| ==>
              TryParse(Serialize(p)[..n]) == Segments.Got(n, Packet(p.mtype, []))
  {
    var t, l, cut := Enc(p.mtype), Enc(|p.payload|), Serialize(p)[..n];
    var tail := l + p.payload;
    if n < |t| {
      assert cut == t[..n];
      ReadCut(p.mtype, n);
      assert Scan(cut[n..], 10).pos == 0;
    } else {
      assert cut == t + tail[..n - |t|];
      assert cut[|t|..] == tail[..n - |t|];
      ReadEnc(p.mtype, cut[|t|..]);
      if n < |t| + |l| {
        assert tail[..n - |t|] == l[..n - |t|];
        ReadCut(|p.payload|, n - |t|);
        assert cut[n..n] == [];
      } else {
        assert tail[..n - |t|] == l + p.payload[..n - |t| - |l|];
        ReadEnc(|p.payload|, p.payload[..n - |t| - |l|]);
      }
    }
  }

  /** Lengths up to 127 bytes take a single byte, so there is no inside of the length varint. */
  predicate Short(p: Packet)
  {
    |p.payload| <= 127
  }

  /** The loop of the authentication phase: the packets taken and the bytes left in `recv_buf_`. */
  method TakePackets(recvBuf: Bytestring) returns (packets: seq<Packet>, rest: Bytestring)
    ensures packets == Segments.Drain(TryParse, recvBuf).0
    ensures rest == Segments.Drain(TryParse, recvBuf).1
  {
    hide TryParse;
    packets, rest := [], recvBuf;
    while true
      invariant Segments.Drain(TryParse, recvBuf).0 == packets + Segments.Drain(TryParse, rest).0
      invariant Segments.Drain(TryParse, recvBuf).1 == Segments.Drain(TryParse, rest).1
      decreases |rest|
    {
      var consumed, p := ParsePacket(rest);
      if consumed == 0 {
        break;
      }
      Segments.DrainGot(TryParse, rest, packets);
      packets, rest := packets + [p], rest[consumed..];
    }
  }

  lemma TryParseExact()
    ensures Segments.Exact(TryParse, Serialize, Short)
  {
    forall p, rest | Short(p)
      ensures TryParse(Serialize(p) + rest) == Segments.Got(|Serialize(p)|, p)
    {
      ParseSerialize(p, rest);
    }
    forall p, n | Short(p) && 0 <= n < |Serialize(p)|
      ensures TryParse(Serialize(p)[..n]).Need?
    {
      ParseCut(p, n);
    }
  }

  /** The authentication phase does not depend on how TCP cuts the stream: for all lists of packets
      with payloads of at most 127 bytes and every cutting of their bytes into reads. */
  lemma AuthPhaseExact(packets: seq<Packet>, pieces: seq<Bytestring>)
    requires forall p :: p in packets ==> Short(p)
    requires Flatten(pieces) <= Segments.EncAll(Serialize, packets)
    ensures var r := Segments.Feed(TryParse, [], pieces);
            Segments.ExactCut(Serialize, packets, Flatten(pieces), r.0, r.1)
  {
    TryParseExact();
    Segments.FeedExact(TryParse, Serialize, Short, packets, pieces);
  }

  /** The bound of 127 bytes is sharp: any longer payload has a cutting into two reads after which
      the first packet taken is not the one sent. */
  lemma AuthPhaseSharp(p: Packet) returns (pieces: seq<Bytestring>)
    requires 127 < |p.payload| < TWO_64
    ensures Flatten(pieces) == Serialize(p)
    ensures var r := Segments.Feed(TryParse, [], pieces); r.0 != [] && r.0[0] != p
  {
    hide TryParse, Scan;
    var n := |Enc(p.mtype)| + 1;
    var s := Serialize(p);
    pieces := [s[..n], s[n..]];
    assert pieces[1..] == [s[n..]];
    assert Flatten([s[n..]]) == s[n..] + Flatten<byte>([]);
    ParseCut(p, n);
    Segments.FirstTaken(TryParse, s[..n], [s[n..]]);
  }
}
