/** The run-length codec on raw buffers: index-driven loops that write into a destination array. */
module RleBuffers {
  import opened Bytes
  import opened Rle
  import opened Wrappers

  /** `copyMem` of a byte string to offset `o`. */
  method CopyTo(dst: array<byte>, o: nat, bytes: Bytestring)
    requires o + |bytes| <= dst.Length
    modifies dst
    ensures dst[..o + |bytes|] == old(dst[..o]) + bytes
  {
    var k := 0;
    while k < |bytes|
      invariant 0 <= k <= |bytes|
      invariant dst[..o + k] == old(dst[..o]) + bytes[..k]
    {
      dst[o + k] := bytes[k];
      k := k + 1;
    }
    assert bytes[..k] == bytes;
  }

  /** The doubling fill: each round copies what is already filled. It equals plain replication. The first byte
      is stored whatever the count is; `over` says that this was past the end of the destination. */
  method FillRun(dst: array<byte>, o: nat, b: byte, n: nat) returns (over: bool)
    requires o + n <= dst.Length
    modifies dst
    ensures dst[..o + n] == old(dst[..o]) + Rep(b, n)
    ensures over <==> n == 0 && o == dst.Length
  {
    over := o >= dst.Length;
    if over {
      assert Rep(b, 0) == [];
      return;
    }
    dst[o] := b;
    if n == 0 {
      assert Rep(b, 0) == [];
      return;
    }
    var filled := 1;
    while filled < n
      invariant 1 <= filled <= n
      invariant forall k :: o <= k < o + filled ==> dst[k] == b
      invariant dst[..o] == old(dst[..o])
    {
      var chunk := if filled <= n - filled then filled else n - filled;
      ghost var before := dst[..o + filled];
      CopyWithin(dst, o, filled, chunk);
      assert forall k :: o <= k < o + filled ==> dst[k] == before[k] == b;
      filled := filled + chunk;
    }
    assert dst[o..o + n] == Rep(b, n);
    assert dst[..o + n] == dst[..o] + dst[o..o + n];
  }

  /** Copies `chunk` bytes from offset `o` to offset `o + filled`; the two ranges do not overlap. */
  method CopyWithin(dst: array<byte>, o: nat, filled: nat, chunk: nat)
    requires chunk <= filled && o + filled + chunk <= dst.Length
    modifies dst
    ensures forall k :: o + filled <= k < o + filled + chunk ==> dst[k] == old(dst[k - filled])
    ensures dst[..o + filled] == old(dst[..o + filled])
  {
    var k := 0;
    while k < chunk
      invariant 0 <= k <= chunk
      invariant forall j :: o + filled <= j < o + filled + k ==> dst[j] == old(dst[j - filled])
      invariant dst[..o + filled] == old(dst[..o + filled])
    {
      assert dst[o + k] == dst[..o + filled][o + k] == old(dst[..o + filled])[o + k];
      dst[o + filled + k] := dst[o + k];
      k := k + 1;
    }
  }

  /** Length of the run at `start`, as the inner loop counts it. */
  method CountRun(s: Bytestring, start: nat) returns (r: nat)
    requires start < |s|
    ensures r == RunLen(s, start)
  {
    r := 1;
    while start + r < |s| && s[start + r] == s[start] && r < 255
      invariant 1 <= r <= 255 && start + r <= |s| && forall k :: start <= k < start + r ==> s[k] == s[start]
      invariant RunFrom(s, start, r) == RunLen(s, start)
      decreases |s| - r
    {
      r := r + 1;
    }
  }

  /** Length of the literal that starts behind a short run. */
  method CountLiteral(s: Bytestring, start: nat) returns (l: nat)
    requires start <= |s|
    ensures l == LitScan(s, start, 0)
  {
    hide RunLen, RunFrom;
    l := 0;
    while start + l < |s| && l < 255
      invariant l <= 255 && start + l <= |s|
      invariant LitScan(s, start + l, l) == LitScan(s, start, 0)
      decreases |s| - l
    {
      var ahead := CountRun(s, start + l);
      if ahead >= 3 {
        break;
      }
      l := l + 1;
    }
  }

  /** The compression loop; stops with -1 when the destination is too small. */
  method WriteTokens(s: Bytestring, dst: array<byte>) returns (ret: int, o: nat)
    modifies dst
    ensures ret == 0 <==> |EncTokens(Tokens(s, 0))| <= dst.Length
    ensures ret == 0 || ret == -1
    ensures ret == 0 ==> o <= dst.Length && dst[..o] == EncTokens(Tokens(s, 0))
  {
    var i: nat := 0;
    o := 0;
    ghost var total, written := EncTokens(Tokens(s, 0)), [];
    hide EncTokens, Tokens, Step, EncToken;
    while i < |s|
      invariant i <= |s| && o <= dst.Length
      invariant dst[..o] == written && written + EncTokens(Tokens(s, i)) == total
      decreases |s| - i
    {
      TokensHead(s, i);
      var bytes, j := TokenAt(s, i);
      Assoc(written, bytes, EncTokens(Tokens(s, j)));
      written := written + bytes;
      if o + |bytes| > dst.Length {
        return -1, 0;
      }
      CopyTo(dst, o, bytes);
      o, i := o + |bytes|, j;
    }
    NoTokensLeft(s);
    return 0, o;
  }

  lemma NoTokensLeft(s: Bytestring)
    ensures EncTokens(Tokens(s, |s|)) == []
  {
  }

  /** `rleCompress`: 0 and the length written, or -1 when the destination is too small. With the room its
      caller gives it, twice the input and 64 bytes, it never fails. */
  method RleCompress(s: Bytestring, dst: array<byte>) returns (ret: int, len: nat)
    modifies dst
    ensures ret == 0 || ret == -1
    ensures ret == 0 ==> len <= dst.Length && dst[..len] == Compress(s)
    ensures dst.Length >= 2 * |s| + 64 ==> ret == 0
  {
    OutputBound(s, 0);
    hide EncTokens, Tokens;
    ret, len := WriteTokens(s, dst);
    if ret == 0 && len >= |s| {
      if |s| + 1 > dst.Length {
        return -1, 0;
      }
      dst[0] := 2;
      CopyTo(dst, 1, s);
      assert dst[..1 + |s|] == [2] + s;
      return 0, |s| + 1;
    }
  }

  /** The bytes one turn of the loop writes and the position it moves to. */
  method TokenAt(s: Bytestring, i: nat) returns (bytes: Bytestring, next: nat)
    requires i < |s|
    ensures bytes == EncToken(Step(s, i).0) && next == Step(s, i).1
  {
    hide RunLen, LitScan;
    var r := CountRun(s, i);
    if r >= 3 {
      return [0, s[i], r], i + r;
    }
    var l := CountLiteral(s, i + r);
    if l == 0 {
      return [1, 1] + s[i..i + 1], i + 1;
    }
    return [1, l] + s[i..i + l], i + r + l;
  }

  /** `rleDecompressSize`. */
  method RleDecompressSize(src: Bytestring) returns (size: nat)
    ensures size == Size(src, 0, 0)
  {
    size := 0;
    var i := 0;
    while i < |src|
      invariant i <= |src| && Size(src, i, size) == Size(src, 0, 0)
      decreases |src| - i
    {
      var bt := src[i];
      if bt == 0 {
        if i + 3 > |src| {
          return 0;
        }
        size, i := size + src[i + 2], i + 3;
      } else if bt == 1 {
        if i + 1 >= |src| || i + 2 + src[i + 1] > |src| {
          return 0;
        }
        size, i := size + src[i + 1], i + 2 + src[i + 1];
      } else if bt == 2 {
        return |src| - 1;
      } else {
        return 0;
      }
    }
  }

  /** `rleDecompress`: 0 and the length written, or -1 on malformed input or a destination too small. `over`
      says that a byte was written past the end of the destination on the way. */
  method RleDecompress(src: Bytestring, dst: array<byte>) returns (ret: int, len: nat, over: bool)
    modifies dst
    ensures over <==> Overruns(src, 0, 0, dst.Length)
    ensures ret == 0 || ret == -1
    ensures ret == 0 ==> len <= dst.Length && Decode(src, 0, []) == Some(dst[..len])
    ensures ret == 0 <==>
              Decode(src, 0, []).Some? && |Decode(src, 0, []).value| <= dst.Length && Peak(src, 0, 0) <= dst.Length
  {
    over := false;
    if |src| >= 1 && src[0] == 2 {
      ret, len := CopyStored(src, dst);
      return;
    }
    var i: nat, o: nat := 0, 0;
    while i < |src|
      invariant i <= |src| && o <= dst.Length
      invariant over || Overruns(src, i, o, dst.Length) <==> Overruns(src, 0, 0, dst.Length)
      invariant Decode(src, i, dst[..o]) == Decode(src, 0, [])
      invariant Peak(src, i, o) == Peak(src, 0, 0)
      decreases |src| - i
    {
      hide Rep;
      if src[i] == 2 {
        ret, len := CopyStored(src, dst);
        return;
      }
      var ok, j, o', past := TakeToken(src, i, dst, o);
      over := over || past;
      if !ok {
        return -1, 0, over;
      }
      i, o := j, o';
    }
    return 0, o, over;
  }

  /** The stored form: everything behind the marker. */
  method CopyStored(src: Bytestring, dst: array<byte>) returns (ret: int, len: nat)
    requires |src| >= 1
    modifies dst
    ensures ret == (if |src| - 1 <= dst.Length then 0 else -1)
    ensures ret == 0 ==> len <= dst.Length && dst[..len] == src[1..]
  {
    if |src| - 1 > dst.Length {
      return -1, 0;
    }
    CopyTo(dst, 0, src[1..]);
    return 0, |src| - 1;
  }

  /** A run or literal token at position `i`. */
  method TakeToken(src: Bytestring, i: nat, dst: array<byte>, o: nat) returns (ok: bool, j: nat, o': nat, over: bool)
    requires i < |src| && src[i] != 2 && o <= dst.Length
    modifies dst
    ensures !ok ==> Decode(src, i, old(dst[..o])) == None || Peak(src, i, o) > dst.Length
    ensures !ok ==> !over && !Overruns(src, i, o, dst.Length)
    ensures ok ==> i < j <= |src| && o' <= dst.Length
    ensures ok ==> Decode(src, i, old(dst[..o])) == Decode(src, j, dst[..o'])
    ensures ok ==> Peak(src, i, o) == Peak(src, j, o')
    ensures ok ==> (Overruns(src, i, o, dst.Length) <==> over || Overruns(src, j, o', dst.Length))
  {
    hide Rep;
    ok, j, o', over := false, 0, 0, false;
    if src[i] == 0 {
      if i + 3 <= |src| && o + src[i + 2] <= dst.Length {
        over := FillRun(dst, o, src[i + 1], src[i + 2]);
        return true, i + 3, o + src[i + 2], over;
      }
    } else if src[i] == 1 {
      if i + 1 < |src| && i + 2 + src[i + 1] <= |src| && o + src[i + 1] <= dst.Length {
        CopyTo(dst, o, src[i + 2..i + 2 + src[i + 1]]);
        return true, i + 2 + src[i + 1], o + src[i + 1], false;
      }
    }
  }
}
