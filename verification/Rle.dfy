/** The run-length codec of modules/compress/rle_impl.nim. */
module Rle {
  import opened Bytes
  import opened Wrappers

  // ----- Tokens -----

  datatype Token = Run(b: byte, n: byte) | Lit(bytes: Bytestring)

  /** A run may have any count that fits its byte, 0 included. */
  predicate ValidToken(t: Token)
  {
    t.Lit? ==> |t.bytes| <= 255
  }

  predicate ValidTokens(ts: seq<Token>)
  {
    forall i :: 0 <= i < |ts| ==> ValidToken(ts[i])
  }

  function Rep(b: byte, n: nat): (s: Bytestring)
    ensures |s| == n && forall i :: 0 <= i < n ==> s[i] == b
  {
    if n == 0 then [] else [b] + Rep(b, n - 1)
  }

  function TokenBytes(t: Token): Bytestring
  {
    match t
    case Run(b, n) => Rep(b, n)
    case Lit(bytes) => bytes
  }

  function Expand(ts: seq<Token>): Bytestring
  {
    if ts == [] then [] else TokenBytes(ts[0]) + Expand(ts[1..])
  }

  function EncToken(t: Token): Bytestring
    requires ValidToken(t)
  {
    match t
    case Run(b, n) => [0, b, n]
    case Lit(bytes) => [1, |bytes|] + bytes
  }

  function EncTokens(ts: seq<Token>): Bytestring
    requires ValidTokens(ts)
  {
    if ts == [] then [] else EncToken(ts[0]) + EncTokens(ts[1..])
  }

  // ----- Decompression -----

  /** `rleDecompress` from position `i` on, with `out` written so far; a marker 2 means that everything
      behind the first byte is stored as it is. */
  function Decode(src: Bytestring, i: nat, out: Bytestring): Option<Bytestring>
    requires i <= |src|
    decreases |src| - i
  {
    if i == |src| then Some(out)
    else if src[i] == 0 then
      if i + 3 > |src| then None else Decode(src, i + 3, out + Rep(src[i + 1], src[i + 2]))
    else if src[i] == 1 then
      if i + 1 >= |src| || i + 2 + src[i + 1] > |src| then None
      else Decode(src, i + 2 + src[i + 1], out + src[i + 2..i + 2 + src[i + 1]])
    else if src[i] == 2 then Some(src[1..])
    else None
  }

  /** `rleDecompressSize` from position `i` on; malformed input gives 0. */
  function Size(src: Bytestring, i: nat, size: nat): nat
    requires i <= |src|
    decreases |src| - i
  {
    if i == |src| then size
    else if src[i] == 0 then
      if i + 3 > |src| then 0 else Size(src, i + 3, size + src[i + 2])
    else if src[i] == 1 then
      if i + 1 >= |src| || i + 2 + src[i + 1] > |src| then 0
      else Size(src, i + 2 + src[i + 1], size + src[i + 1])
    else if src[i] == 2 then |src| - 1
    else 0
  }

  /** The most bytes the decoder has in the destination at any time, the stored form apart. */
  function Peak(src: Bytestring, i: nat, o: nat): (p: nat)
    requires i <= |src|
    ensures p >= o
    decreases |src| - i
  {
    if i == |src| then o
    else if src[i] == 0 && i + 3 <= |src| then Peak(src, i + 3, o + src[i + 2])
    else if src[i] == 1 && i + 2 <= |src| && i + 2 + src[i + 1] <= |src| then
      Peak(src, i + 2 + src[i + 1], o + src[i + 1])
    else o
  }

  /** A run with count 0 is met while the destination of `cap` bytes is full. The source then writes one byte
      past its end, since it stores the first byte of a run before it looks at the count. */
  predicate Overruns(src: Bytestring, i: nat, o: nat, cap: nat)
    requires i <= |src|
    decreases |src| - i
  {
    if i == |src| then false
    else if src[i] == 0 then
      && i + 3 <= |src| && o + src[i + 2] <= cap
      && ((src[i + 2] == 0 && o == cap) || Overruns(src, i + 3, o + src[i + 2], cap))
    else if src[i] == 1 then
      && i + 2 <= |src| && i + 2 + src[i + 1] <= |src| && o + src[i + 1] <= cap
      && Overruns(src, i + 2 + src[i + 1], o + src[i + 1], cap)
    else false
  }

  lemma {:induction false} DecodeTokens(pre: Bytestring, ts: seq<Token>, out: Bytestring)
    requires ValidTokens(ts)
    ensures Decode(pre + EncTokens(ts), |pre|, out) == Some(out + Expand(ts))
    ensures Size(pre + EncTokens(ts), |pre|, |out|) == |out| + |Expand(ts)| == Peak(pre + EncTokens(ts), |pre|, |out|)
    decreases |ts|
  {
    hide Decode, Size, Peak, EncToken, TokenBytes;
    if ts == [] {
      assert out + Expand(ts) == out && pre + EncTokens(ts) == pre;
      DecodeEnd(pre, out);
    } else {
      var e, piece, rest := EncToken(ts[0]), TokenBytes(ts[0]), EncTokens(ts[1..]);
      var src := (pre + e) + rest;
      assert pre + EncTokens(ts) == src;
      DecodeTokens(pre + e, ts[1..], out + piece);
      assert src[|pre|..|pre| + |e|] == e;
      DecodeHead(src, |pre|, ts[0], out);
      assert (out + piece) + Expand(ts[1..]) == out + Expand(ts);
      assert |pre + e| == |pre| + |e| && |out + piece| == |out| + |piece|;
    }
  }

  lemma DecodeEnd(src: Bytestring, out: Bytestring)
    ensures Decode(src, |src|, out) == Some(out)
    ensures Size(src, |src|, |out|) == |out| == Peak(src, |src|, |out|)
  {
  }

  /** The decoder takes exactly one token off the front. */
  lemma DecodeHead(src: Bytestring, i: nat, t: Token, out: Bytestring)
    requires ValidToken(t) && i + |EncToken(t)| <= |src| && src[i..i + |EncToken(t)|] == EncToken(t)
    ensures Decode(src, i, out) == Decode(src, i + |EncToken(t)|, out + TokenBytes(t))
    ensures Size(src, i, |out|) == Size(src, i + |EncToken(t)|, |out| + |TokenBytes(t)|)
    ensures Peak(src, i, |out|) == Peak(src, i + |EncToken(t)|, |out| + |TokenBytes(t)|)
  {
    hide Decode, Size, Peak, Rep;
    var e := EncToken(t);
    assert src[i] == e[0] && src[i + 1] == e[1];
    match t
    case Run(b, n) =>
      assert src[i + 2] == e[2];
      DecodeRun(src, i, out);
    case Lit(bytes) =>
      assert src[i + 2..i + 2 + |bytes|] == e[2..];
      DecodeLit(src, i, out);
  }

  lemma DecodeRun(src: Bytestring, i: nat, out: Bytestring)
    requires i + 3 <= |src| && src[i] == 0
    ensures Decode(src, i, out) == Decode(src, i + 3, out + Rep(src[i + 1], src[i + 2]))
    ensures Size(src, i, |out|) == Size(src, i + 3, |out| + src[i + 2])
    ensures Peak(src, i, |out|) == Peak(src, i + 3, |out| + src[i + 2])
  {
    hide Rep;
  }

  lemma DecodeLit(src: Bytestring, i: nat, out: Bytestring)
    requires i + 2 <= |src| && src[i] == 1 && i + 2 + src[i + 1] <= |src|
    ensures Decode(src, i, out) == Decode(src, i + 2 + src[i + 1], out + src[i + 2..i + 2 + src[i + 1]])
    ensures Size(src, i, |out|) == Size(src, i + 2 + src[i + 1], |out| + src[i + 1])
    ensures Peak(src, i, |out|) == Peak(src, i + 2 + src[i + 1], |out| + src[i + 1])
  {
    hide Rep;
  }

  /** For all token streams the size function is the exact expanded length and the decoder yields the
      expansion. */
  lemma DecodeExact(ts: seq<Token>)
    requires ValidTokens(ts)
    ensures Decode(EncTokens(ts), 0, []) == Some(Expand(ts))
    ensures Size(EncTokens(ts), 0, 0) == |Expand(ts)| == Peak(EncTokens(ts), 0, 0)
  {
    DecodeTokens([], ts, []);
    assert [] + EncTokens(ts) == EncTokens(ts) && [] + Expand(ts) == Expand(ts);
  }

  /** Token number `k` is a run with count 0 that is met with the destination full. */
  predicate ZeroWhenFull(ts: seq<Token>, o: nat, cap: nat, k: nat)
  {
    k < |ts| && ts[k].Run? && ts[k].n == 0 && o + |Expand(ts[..k])| == cap
  }

  ghost predicate SomeZeroWhenFull(ts: seq<Token>, o: nat, cap: nat)
  {
    exists k: nat :: ZeroWhenFull(ts, o, cap, k)
  }

  lemma {:induction false} OverrunTokens(pre: Bytestring, ts: seq<Token>, o: nat, cap: nat)
    requires ValidTokens(ts) && o <= cap
    ensures Overruns(pre + EncTokens(ts), |pre|, o, cap) <==> SomeZeroWhenFull(ts, o, cap)
    decreases |ts|
  {
    hide Overruns, EncToken, TokenBytes, Expand;
    if ts == [] {
      assert pre + EncTokens(ts) == pre;
      OverrunEnd(pre, o, cap);
    } else {
      var e, rest := EncToken(ts[0]), EncTokens(ts[1..]);
      var src := (pre + e) + rest;
      assert pre + EncTokens(ts) == src;
      assert src[|pre|..|pre| + |e|] == e && |pre + e| == |pre| + |e|;
      OverrunHead(src, |pre|, ts[0], o, cap);
      var o' := o + |TokenBytes(ts[0])|;
      if o' <= cap {
        OverrunTokens(pre + e, ts[1..], o', cap);
      }
      ZeroHead(ts, o, cap);
    }
  }

  lemma OverrunEnd(src: Bytestring, o: nat, cap: nat)
    ensures !Overruns(src, |src|, o, cap)
  {
  }

  lemma OverrunHead(src: Bytestring, i: nat, t: Token, o: nat, cap: nat)
    requires ValidToken(t) && i + |EncToken(t)| <= |src| && src[i..i + |EncToken(t)|] == EncToken(t)
    ensures Overruns(src, i, o, cap) <==>
            && o + |TokenBytes(t)| <= cap
            && ((t.Run? && t.n == 0 && o == cap) || Overruns(src, i + |EncToken(t)|, o + |TokenBytes(t)|, cap))
  {
    hide Rep;
    var e := EncToken(t);
    assert src[i] == e[0] && src[i + 1] == e[1];
    if t.Run? {
      assert src[i + 2] == e[2];
    }
  }

  /** Either the first token or a later one, met that much later. */
  lemma ZeroHead(ts: seq<Token>, o: nat, cap: nat)
    requires ts != [] && o <= cap
    ensures SomeZeroWhenFull(ts, o, cap) <==>
            && o + |TokenBytes(ts[0])| <= cap
            && ((ts[0].Run? && ts[0].n == 0 && o == cap) || SomeZeroWhenFull(ts[1..], o + |TokenBytes(ts[0])|, cap))
  {
    var o' := o + |TokenBytes(ts[0])|;
    forall k: nat
      ensures ZeroWhenFull(ts, o, cap, k + 1) <==> ZeroWhenFull(ts[1..], o', cap, k)
    {
      if k + 1 <= |ts| {
        assert ts[..k + 1][1..] == ts[1..][..k];
        assert Expand(ts[..k + 1]) == TokenBytes(ts[0]) + Expand(ts[1..][..k]);
      }
    }
    assert ts[..0] == [] && |Expand([])| == 0;
    assert ts[0].Run? && ts[0].n == 0 ==> o' == o;
    assert ZeroWhenFull(ts, o, cap, 0) <==> ts[0].Run? && ts[0].n == 0 && o == cap;
    hide Expand, TokenBytes;
    if SomeZeroWhenFull(ts, o, cap) {
      var k: nat :| ZeroWhenFull(ts, o, cap, k);
      if k > 0 {
        assert ZeroWhenFull(ts, o, cap, (k - 1) + 1);
        assert ZeroWhenFull(ts[1..], o', cap, k - 1);
      }
    }
    if SomeZeroWhenFull(ts[1..], o', cap) {
      var k: nat :| ZeroWhenFull(ts[1..], o', cap, k);
      assert ZeroWhenFull(ts, o, cap, k + 1);
    }
  }

  /** For all token streams: the decoder writes past its destination if and only if some run with count 0 comes
      exactly where the tokens before it have filled the destination. */
  lemma OverrunIff(ts: seq<Token>, cap: nat)
    requires ValidTokens(ts)
    ensures Overruns(EncTokens(ts), 0, 0, cap) <==> SomeZeroWhenFull(ts, 0, cap)
  {
    OverrunTokens([], ts, 0, cap);
    assert [] + EncTokens(ts) == EncTokens(ts);
  }

  /** What the compressor writes has no run with count 0. */
  lemma {:induction false} CompressedRuns(s: Bytestring, i: nat)
    requires i <= |s|
    ensures forall k :: 0 <= k < |Tokens(s, i)| ==> !(Tokens(s, i)[k].Run? && Tokens(s, i)[k].n == 0)
    decreases |s| - i
  {
    if i < |s| {
      CompressedRuns(s, Step(s, i).1);
      hide RunLen, LitScan;
    }
  }

  lemma DecodeStored(x: Bytestring)
    ensures Decode([2] + x, 0, []) == Some(x) && Size([2] + x, 0, 0) == |x|
    ensures Peak([2] + x, 0, 0) == 0
  {
    assert ([2] + x)[1..] == x;
  }

  // ----- Compression -----

  /** How many bytes from `i` on equal the one at `i`, 255 at most. */
  function RunLen(s: Bytestring, i: nat): (r: nat)
    requires i < |s|
    ensures 1 <= r <= 255 && i + r <= |s|
  {
    RunFrom(s, i, 1)
  }

  lemma RunIsRep(s: Bytestring, i: nat)
    requires i < |s|
    ensures s[i..i + RunLen(s, i)] == Rep(s[i], RunLen(s, i))
  {
  }

  function RunFrom(s: Bytestring, i: nat, r: nat): (r': nat)
    requires i < |s| && 1 <= r <= 255 && i + r <= |s| && forall k :: i <= k < i + r ==> s[k] == s[i]
    ensures r <= r' <= 255 && i + r' <= |s| && forall k :: i <= k < i + r' ==> s[k] == s[i]
    ensures r' < 255 && i + r' < |s| ==> s[i + r'] != s[i]
    decreases 255 - r
  {
    if i + r < |s| && s[i + r] == s[i] && r < 255 then RunFrom(s, i, r + 1) else r
  }

  /** The literal scan: how far it gets before the end, a run of three or 255 bytes. */
  function LitScan(s: Bytestring, i: nat, l: nat): (l': nat)
    requires i <= |s| && l <= 255
    ensures l <= l' <= 255 && i + (l' - l) <= |s|
    decreases |s| - i
  {
    if i == |s| || l == 255 || RunLen(s, i) >= 3 then l else LitScan(s, i + 1, l + 1)
  }

  /** One turn of the compression loop: the token written and the position it moves to. The literal
      branch copies `litLen` bytes but moves on by the length of the short run as well. */
  function Step(s: Bytestring, i: nat): (r: (Token, nat))
    requires i < |s|
    ensures ValidToken(r.0) && i < r.1 <= |s|
  {
    var r := RunLen(s, i);
    if r >= 3 then (Run(s[i], r), i + r)
    else
      var l := LitScan(s, i + r, 0);
      if l == 0 then (Lit(s[i..i + 1]), i + 1) else (Lit(s[i..i + l]), i + r + l)
  }

  function Tokens(s: Bytestring, i: nat): (ts: seq<Token>)
    requires i <= |s|
    ensures ValidTokens(ts)
    decreases |s| - i
  {
    if i == |s| then [] else [Step(s, i).0] + Tokens(s, Step(s, i).1)
  }

  function Compress(s: Bytestring): Bytestring
  {
    var e := EncTokens(Tokens(s, 0));
    if |e| >= |s| then [2] + s else e
  }

  // ----- The output bound -----

  lemma ShortRun(s: Bytestring, i: nat)
    requires i < |s| && RunLen(s, i) == 2
    ensures RunLen(s, i + 1) == 1
  {
    assert i + 2 < |s| ==> s[i + 2] != s[i];
    assert s[i + 1] == s[i];
  }

  /** The output from `i` on takes at most two bytes per input byte, plus two; one byte less than twice
      the input at the start of a run. */
  lemma {:induction false} OutputBound(s: Bytestring, i: nat)
    requires i <= |s|
    ensures |EncTokens(Tokens(s, i))| <= 2 * (|s| - i) + 2
    ensures i < |s| && RunLen(s, i) >= 3 ==> |EncTokens(Tokens(s, i))| <= 2 * (|s| - i) - 1
    ensures i < |s| && RunLen(s, i) == 1 && LitScan(s, i + 1, 0) == 0 ==> |EncTokens(Tokens(s, i))| <= 2 * (|s| - i) + 1
    decreases |s| - i
  {
    if i < |s| {
      var (t, next) := Step(s, i);
      OutputBound(s, next);
      TokensHead(s, i);
      var r := RunLen(s, i);
      hide EncTokens, Tokens;
      if r == 2 && LitScan(s, i + 2, 0) == 0 {
        ShortRun(s, i);
      }
    }
  }

  lemma TokensHead(s: Bytestring, i: nat)
    requires i < |s|
    ensures EncTokens(Tokens(s, i)) == EncToken(Step(s, i).0) + EncTokens(Tokens(s, Step(s, i).1))
    ensures Expand(Tokens(s, i)) == TokenBytes(Step(s, i).0) + Expand(Tokens(s, Step(s, i).1))
  {
    hide Step;
    assert Tokens(s, i)[1..] == Tokens(s, Step(s, i).1);
  }

  // ----- When decompression undoes compression -----

  /** Every run shorter than three is followed by the end of the input or by a run of at least three, so
      the literal branch never skips a byte. */
  predicate NoLoss(s: Bytestring, i: nat)
    requires i <= |s|
    decreases |s| - i
  {
    if i == |s| then true
    else
      var r := RunLen(s, i);
      if r >= 3 then NoLoss(s, i + r)
      else (i + r == |s| || RunLen(s, i + r) >= 3) && NoLoss(s, i + 1)
  }

  lemma {:induction false} ExpandTokens(s: Bytestring, i: nat)
    requires i <= |s|
    ensures NoLoss(s, i) ==> Expand(Tokens(s, i)) == s[i..]
    ensures !NoLoss(s, i) ==> |Expand(Tokens(s, i))| < |s| - i
    decreases |s| - i
  {
    if i < |s| {
      hide Tokens, Expand, Step, NoLoss, RunLen, TokenBytes;
      var next := Step(s, i).1;
      ExpandTokens(s, next);
      TokensHead(s, i);
      StepBytes(s, i);
      StepNoLoss(s, i);
      SliceSplit(s, i, next);
    }
  }

  lemma SliceSplit(s: Bytestring, i: nat, j: nat)
    requires i <= j <= |s|
    ensures s[i..j] + s[j..] == s[i..]
  {
  }

  /** The turn at `i` skips no byte. */
  predicate Safe(s: Bytestring, i: nat)
    requires i < |s|
  {
    var r := RunLen(s, i);
    r >= 3 || i + r == |s| || RunLen(s, i + r) >= 3
  }

  /** What one turn writes: exactly the bytes it moves past, or fewer. */
  lemma StepBytes(s: Bytestring, i: nat)
    requires i < |s|
    ensures Safe(s, i) ==> TokenBytes(Step(s, i).0) == s[i..Step(s, i).1]
    ensures !Safe(s, i) ==> |TokenBytes(Step(s, i).0)| < Step(s, i).1 - i
  {
    hide NoLoss, RunLen, Rep, LitScan;
    RunIsRep(s, i);
    LitScanZero(s, i + RunLen(s, i));
  }

  lemma StepNoLoss(s: Bytestring, i: nat)
    requires i < |s|
    ensures NoLoss(s, i) <==> Safe(s, i) && NoLoss(s, Step(s, i).1)
  {
    hide RunLen, LitScan, Step, NoLoss;
    LitScanZero(s, i + RunLen(s, i));
    StepNext(s, i);
    NoLossDef(s, i);
  }

  lemma NoLossDef(s: Bytestring, i: nat)
    requires i < |s|
    ensures NoLoss(s, i) <==> if RunLen(s, i) >= 3 then NoLoss(s, i + RunLen(s, i)) else Safe(s, i) && NoLoss(s, i + 1)
  {
    hide RunLen;
  }

  /** Where a turn moves to. */
  lemma StepNext(s: Bytestring, i: nat)
    requires i < |s|
    ensures RunLen(s, i) >= 3 ==> Step(s, i).1 == i + RunLen(s, i)
    ensures RunLen(s, i) < 3 && LitScan(s, i + RunLen(s, i), 0) == 0 ==> Step(s, i).1 == i + 1
  {
    hide RunLen, LitScan;
  }

  lemma LitScanZero(s: Bytestring, i: nat)
    requires i <= |s|
    ensures LitScan(s, i, 0) == 0 <==> i == |s| || RunLen(s, i) >= 3
  {
    hide RunLen;
  }

  /** The round trip: `rleDecompress` gives back what `rleCompress` was given if and only if the input was
      stored or no short run is followed by another short run. Otherwise the result is shorter. */
  lemma RoundTripIff(s: Bytestring)
    ensures Decode(Compress(s), 0, []) == Some(s) <==>
            |EncTokens(Tokens(s, 0))| >= |s| || NoLoss(s, 0)
  {
    var ts := Tokens(s, 0);
    ExpandTokens(s, 0);
    DecodeExact(ts);
    DecodeStored(s);
    assert s[0..] == s;
  }

  /** The smallest kind of loss: in "ab" followed by a run, the second byte is skipped. */
  lemma LossExample(a: byte, b: byte, c: byte)
    requires a != b && b != c
    ensures var s := [a, b, c, c, c, c, c]; Decode(Compress(s), 0, []) != Some(s)
  {
    var s := [a, b, c, c, c, c, c];
    hide Rep, Expand, Decode, EncToken;
    assert RunLen(s, 2) == 5 by {
      assert RunFrom(s, 2, 5) == 5;
      assert RunFrom(s, 2, 3) == 5 && RunFrom(s, 2, 2) == 5;
    }
    assert RunLen(s, 0) == 1 && RunLen(s, 1) == 1;
    assert LitScan(s, 2, 1) == 1;
    assert LitScan(s, 1, 0) == 1;
    assert Step(s, 0) == (Lit(s[0..1]), 2);
    assert Step(s, 2) == (Run(c, 5), 7);
    TokensHead(s, 0);
    TokensHead(s, 2);
    EncLengths(s[0..1], c, 5);
    RoundTripIff(s);
  }

  lemma EncLengths(bytes: Bytestring, b: byte, n: byte)
    requires ValidToken(Lit(bytes)) && ValidToken(Run(b, n))
    ensures |EncToken(Lit(bytes))| == 2 + |bytes| && |EncToken(Run(b, n))| == 3
  {
  }
}
