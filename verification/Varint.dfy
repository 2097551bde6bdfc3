/** Unsigned LEB128 numbers (section 7.6 of DWARF 5), as written and read by core/protocol.cpp
    and, with a shorter limit, by the data-connection readers. */
module Varint {
  import opened Bytes

  const TWO_64: nat := 0x1_0000_0000_0000_0000

  /** The encoding of `v`: seven bits a byte, low bits first, top bit set on all but the last byte. */
  function Enc(v: nat): (s: Bytestring)
    ensures |s| >= 1
  {
    if v < 128 then [v] else [v % 128 + 128] + Enc(v / 128)
  }

  /** What a reader has seen: the value so far, the bytes looked at, and whether the last byte was met. */
  datatype Scanned = Scanned(value: nat, pos: nat, terminated: bool)

  /** Reads at most `limit` bytes of a varint from the front of `buf`. */
  function Scan(buf: Bytestring, limit: nat): (r: Scanned)
    ensures r.pos <= |buf| && r.pos <= limit
    ensures r.terminated ==> r.pos >= 1
    ensures !r.terminated ==> r.pos == if |buf| <= limit then |buf| else limit
  {
    if limit == 0 || buf == [] then Scanned(0, 0, false)
    else if buf[0] < 128 then Scanned(buf[0], 1, true)
    else
      var r := Scan(buf[1..], limit - 1);
      Scanned(buf[0] - 128 + 128 * r.value, 1 + r.pos, r.terminated)
  }

  function Pow128(n: nat): (p: nat)
    ensures p >= 1
  {
    if n == 0 then 1 else 128 * Pow128(n - 1)
  }

  lemma {:induction false} EncLength(v: nat, limit: nat)
    requires limit >= 1 && v < Pow128(limit)
    ensures |Enc(v)| <= limit
  {
    if v >= 128 {
      EncLength(v / 128, limit - 1);
    }
  }

  /** Round trip: whatever follows, reading gives back the value and its exact length. */
  lemma {:induction false} ScanEnc(v: nat, rest: Bytestring, limit: nat)
    requires limit >= 1 && v < Pow128(limit)
    ensures Scan(Enc(v) + rest, limit) == Scanned(v, |Enc(v)|, true)
  {
    var buf := Enc(v) + rest;
    if v >= 128 {
      assert buf[0] == v % 128 + 128;
      assert buf[1..] == Enc(v / 128) + rest;
      ScanEnc(v / 128, rest, limit - 1);
    }
  }

  /** A varint cut short is never mistaken for a complete one. */
  lemma {:induction false} ScanCut(v: nat, n: nat, limit: nat)
    requires limit >= 1 && v < Pow128(limit) && n < |Enc(v)|
    ensures Scan(Enc(v)[..n], limit) == Scanned(Scan(Enc(v)[..n], limit).value, n, false)
  {
    EncLength(v, limit);
    if n > 0 {
      var cut := Enc(v)[..n];
      assert cut[0] == v % 128 + 128;
      assert cut[1..] == Enc(v / 128)[..n - 1];
      ScanCut(v / 128, n - 1, limit - 1);
    }
  }

  /** The loop that appends a varint to an output buffer. */
  method WriteVarint(out: Bytestring, v: nat) returns (r: Bytestring)
    requires v < TWO_64
    ensures r == out + Enc(v)
  {
    r := out;
    var val := v;
    while val > 0x7F
      invariant r + Enc(val) == out + Enc(v)
    {
      assert Enc(val) == [val % 128 + 128] + Enc(val / 128);
      r := r + [val % 128 + 128];
      val := val / 128;
    }
    r := r + [val];
  }

  /** The loop that reads a varint, `limit` bytes at most: ten in core/protocol.cpp, eight in the
      data-connection readers. The seven-bit groups do not overlap, so the source's `|=` is a sum. */
  method ReadVarint(buf: Bytestring, limit: nat) returns (val: nat, pos: nat, terminated: bool)
    ensures Scanned(val, pos, terminated) == Scan(buf, limit)
  {
    hide Scan;
    val, pos, terminated := 0, 0, false;
    assert buf[pos..] == buf;
    var unit: nat := 1;
    while pos < |buf| && pos < limit
      invariant pos <= |buf| && pos <= limit
      invariant var s := Scan(buf[pos..], limit - pos);
        Scan(buf, limit) == Scanned(val + unit * s.value, pos + s.pos, s.terminated)
    {
      var b := buf[pos];
      ScanAt(buf, pos, limit);
      ghost var t := Scan(buf[pos + 1..], limit - pos - 1);
      pos := pos + 1;
      if b < 128 {
        val := val + unit * b;
        terminated := true;
        return;
      }
      Distribute(unit, b % 128, t.value);
      val := val + unit * (b % 128);
      unit := unit * 128;
    }
    ScanEnd(buf[pos..], limit - pos);
  }

  lemma ScanAt(buf: Bytestring, pos: nat, limit: nat)
    requires pos < |buf| && pos < limit
    ensures var b, s, t := buf[pos], Scan(buf[pos..], limit - pos), Scan(buf[pos + 1..], limit - pos - 1);
            s == if b < 128 then Scanned(b, 1, true) else Scanned(b % 128 + 128 * t.value, 1 + t.pos, t.terminated)
  {
    assert buf[pos..][1..] == buf[pos + 1..];
  }

  lemma ScanEnd(buf: Bytestring, limit: nat)
    requires buf == [] || limit == 0
    ensures Scan(buf, limit) == Scanned(0, 0, false)
  {
  }

  lemma Distribute(u: nat, a: nat, t: nat)
    ensures u * (a + 128 * t) == u * a + u * 128 * t
  {
  }
}
