/** The 4-byte chunk header of modules/split/split.cpp and the expansion of its 15-bit packet id. */
module SplitHeader {
  import opened Bytes

  const TWO_32: int := 0x1_0000_0000
  const WINDOW: int := 16384
  const ID_SPACE: int := 32768

  /** The first packet number that `process_merge` can never accept. */
  const LAST_PACKET: int := TWO_32 - WINDOW

  type u32 = x: int | 0 <= x < TWO_32
  function EncodeHdr(pkt: nat, more: bool, chunk: u16): u32
  {
    pkt % ID_SPACE + (if more then ID_SPACE else 0) + chunk * 65536
  }

  /** Little-endian bytes of a header. */
  function HdrBytes(h: u32): Bytestring
  {
    [h % 256, h / 256 % 256, h / 65536 % 256, h / 0x100_0000]
  }

  function ReadHdr(b: Bytestring): u32
    requires |b| >= 4
  {
    b[0] as int + 256 * (b[1] as int) + 65536 * (b[2] as int) + 0x100_0000 * (b[3] as int)
  }

  datatype Header = Header(wireId: nat, more: bool, chunk: u16)

  function DecodeHdr(h: u32): Header
  {
    Header(h % ID_SPACE, h / ID_SPACE % 2 == 1, h / 65536)
  }

  /** A chunk as written to an output. */
  function ChunkBytes(pkt: nat, more: bool, chunk: u16, payload: Bytestring): Bytestring
  {
    HdrBytes(EncodeHdr(pkt, more, chunk)) + payload
  }

  lemma HdrBytesRead(h: u32, payload: Bytestring)
    ensures ReadHdr(HdrBytes(h) + payload) == h
  {
    var b := HdrBytes(h) + payload;
    var q1, q2 := h / 256, h / 65536;
    assert b[0] == h % 256 && b[1] == q1 % 256 && b[2] == q2 % 256 && b[3] == h / 0x100_0000;
    assert q2 == q1 / 256 && h / 0x100_0000 == q2 / 256;
    assert h == 256 * q1 + b[0] && q1 == 256 * q2 + b[1] && q2 == 256 * (b[3] as int) + b[2];
  }

  lemma EncodeDecode(pkt: nat, more: bool, chunk: u16)
    ensures DecodeHdr(EncodeHdr(pkt, more, chunk)) == Header(pkt % ID_SPACE, more, chunk)
  {
    var h, id, bit := EncodeHdr(pkt, more, chunk), pkt % ID_SPACE, if more then 1 else 0;
    assert h == (2 * chunk + bit) * ID_SPACE + id;
    assert h / ID_SPACE == 2 * chunk + bit && h % ID_SPACE == id;
    assert h / 65536 == chunk;
  }

  /** The bytes on the wire: the low 15 bits of the packet number and the flag above them, then the chunk number,
      both in little-endian order. */
  lemma HeaderLayout(pkt: nat, more: bool, chunk: u16, payload: Bytestring)
    ensures var b := ChunkBytes(pkt, more, chunk, payload);
            && b[0] == pkt % 256 && b[1] == pkt / 256 % 128 + (if more then 128 else 0)
            && b[2] == chunk % 256 && b[3] == chunk / 256
  {
    var id, bit := pkt % ID_SPACE, if more then 1 else 0;
    var h := EncodeHdr(pkt, more, chunk);
    var low := id + bit * ID_SPACE;
    LowParts(pkt);
    assert h == 65536 * chunk + low && 0 <= low < 65536;
    assert h / 65536 == chunk && h / 0x100_0000 == chunk / 256;
    assert low / 256 == id / 256 + 128 * bit && low % 256 == id % 256;
    HighParts(h, chunk, low);
  }

  lemma LowParts(pkt: nat)
    ensures pkt % ID_SPACE % 256 == pkt % 256 && pkt % ID_SPACE / 256 == pkt / 256 % 128
  {
    var q, r := pkt / ID_SPACE, pkt % ID_SPACE;
    assert pkt == 256 * (128 * q + r / 256) + r % 256;
    assert pkt / 256 == 128 * q + r / 256;
  }

  lemma HighParts(h: nat, chunk: nat, low: nat)
    requires h == 65536 * chunk + low && low < 65536
    ensures h % 256 == low % 256 && h / 256 % 256 == low / 256
  {
    assert h == 256 * (256 * chunk + low / 256) + low % 256;
    assert h / 256 == 256 * chunk + low / 256;
  }

  /** Header round trip: the reader sees the low 15 bits of the packet number, the flag, the chunk id
      and the payload that the writer put in. */
  lemma ChunkBytesRead(pkt: nat, more: bool, chunk: u16, payload: Bytestring)
    ensures |ChunkBytes(pkt, more, chunk, payload)| >= 4
    ensures DecodeHdr(ReadHdr(ChunkBytes(pkt, more, chunk, payload))) == Header(pkt % ID_SPACE, more, chunk)
    ensures ChunkBytes(pkt, more, chunk, payload)[4..] == payload
  {
    HdrBytesRead(EncodeHdr(pkt, more, chunk), payload);
    EncodeDecode(pkt, more, chunk);
  }

  /** The expansion of a 15-bit id to 32 bits, in wrapping 32-bit arithmetic. */
  function Expand(exp: u32, wireId: nat): u32
    requires wireId < ID_SPACE
  {
    var full := exp - exp % ID_SPACE + wireId;
    if (full + WINDOW) % TWO_32 < exp then (full + ID_SPACE) % TWO_32
    else if full >= (exp + WINDOW) % TWO_32 then (full - ID_SPACE) % TWO_32
    else full
  }

  lemma Congruent(a: int, b: int)
    requires a % ID_SPACE == b % ID_SPACE && 0 - ID_SPACE < a - b < ID_SPACE
    ensures a == b
  {
  }

  predicate InWindow(exp: int, t: int)
  {
    exp - WINDOW <= t < exp + WINDOW
  }

  lemma SameInWindow(exp: int, t: int, e: int)
    requires InWindow(exp, t) && InWindow(exp, e) && t % ID_SPACE == e % ID_SPACE
    ensures t == e
  {
    Congruent(t, e);
  }

  lemma LowBits(exp: u32, wireId: nat)
    requires wireId < ID_SPACE
    ensures var full := exp - exp % ID_SPACE + wireId;
            full % ID_SPACE == (full + ID_SPACE) % ID_SPACE == (full - ID_SPACE) % ID_SPACE == wireId
  {
    var q := exp / ID_SPACE;
    assert exp - exp % ID_SPACE == q * ID_SPACE;
  }

  lemma ExpandInWindow(exp: u32, wireId: nat)
    requires wireId < ID_SPACE && WINDOW <= exp < TWO_32 - ID_SPACE
    ensures InWindow(exp, Expand(exp, wireId)) && Expand(exp, wireId) % ID_SPACE == wireId
  {
    var full := exp - exp % ID_SPACE + wireId;
    assert 0 <= full < exp + ID_SPACE < TWO_32 && exp < full + ID_SPACE;
    assert Expand(exp, wireId) ==
      if full + WINDOW < exp then full + ID_SPACE else if full >= exp + WINDOW then full - ID_SPACE else full;
    LowBits(exp, wireId);
  }

  /** Away from both ends the expansion is the one packet number in the window around `exp` that has
      the given low bits. */
  lemma ExpandUnique(exp: u32, wireId: nat)
    requires wireId < ID_SPACE && WINDOW <= exp < TWO_32 - ID_SPACE
    ensures forall t: int :: (InWindow(exp, t) && t % ID_SPACE == wireId) <==> t == Expand(exp, wireId)
  {
    var e := Expand(exp, wireId);
    ExpandInWindow(exp, wireId);
    forall t: int | InWindow(exp, t) && t % ID_SPACE == wireId
      ensures t == e
    {
      SameInWindow(exp, t, e);
    }
  }

  lemma Wrapped(x: nat)
    requires x < 2 * TWO_32
    ensures x % TWO_32 == if x < TWO_32 then x else x - TWO_32
  {
  }

  /** The number put together from both ids is the true one or next to it. */
  lemma FullCases(exp: u32, t: nat)
    requires InWindow(exp, t)
    ensures var full := exp - exp % ID_SPACE + t % ID_SPACE;
            && 0 <= full < TWO_32 && exp - ID_SPACE < full < exp + ID_SPACE
            && (full == t || full == t - ID_SPACE || full == t + ID_SPACE)
  {
    var a, b := exp / ID_SPACE, t / ID_SPACE;
    assert exp == ID_SPACE * a + exp % ID_SPACE && t == ID_SPACE * b + t % ID_SPACE;
    assert -1 <= a - b <= 1;
  }

  /** Exactly which chunks get through: a chunk whose true packet number `t` lies in the window around
      `exp` keeps that number if `exp <= t < LAST_PACKET`, and is otherwise taken for a chunk of an
      earlier packet, which `process_merge` drops. Low packet numbers need no exception. */
  lemma ExpandExact(exp: u32, t: nat)
    requires InWindow(exp, t)
    ensures exp <= t < LAST_PACKET ==> Expand(exp, t % ID_SPACE) == t
    ensures !(exp <= t < LAST_PACKET) ==> Expand(exp, t % ID_SPACE) < exp
  {
    var full := exp - exp % ID_SPACE + t % ID_SPACE;
    FullCases(exp, t);
    Wrapped(full + WINDOW);
    Wrapped(exp + WINDOW);
    Wrapped(full + ID_SPACE);
    if full == t + ID_SPACE {
      Wrapped(full - ID_SPACE);
    }
  }

  /** The 32-bit sequence does not wrap: once packet LAST_PACKET is expected, its own chunks are dropped. */
  lemma NoWrap()
    ensures Expand(LAST_PACKET, LAST_PACKET % ID_SPACE) < LAST_PACKET
  {
    ExpandExact(LAST_PACKET, LAST_PACKET);
  }
}
