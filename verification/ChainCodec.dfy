/** The MSG_CHAIN_CREATE payload: printed by the client, parsed by the session. */
module ChainCodec {
  import opened Bytes

  datatype ModuleSpec = ModuleSpec(name: Bytestring, params: Bytestring)

  // ----- Printing (client/client.cpp) -----

  /** Lengths are cut to one and two bytes; the strings are not. */
  function PrintOne(m: ModuleSpec): Bytestring
  {
    [|m.name| % 256] + m.name + [|m.params| % 256, |m.params| / 256 % 256] + m.params
  }

  function PrintAll(ms: seq<ModuleSpec>): Bytestring
  {
    if ms == [] then [] else PrintOne(ms[0]) + PrintAll(ms[1..])
  }

  function Print(ms: seq<ModuleSpec>): Bytestring
  {
    [|ms| % 256] + PrintAll(ms)
  }

  // ----- Parsing (server/session.cpp) -----

  datatype Parsed = Stop | More(spec: ModuleSpec, pos: nat)

  /** One turn of the parse loop; a short payload ends the loop. */
  function ParseOne(p: Bytestring, pos: nat): (r: Parsed)
    requires pos <= |p|
    ensures r.More? ==> pos < r.pos <= |p| && |r.spec.name| < 256 && |r.spec.params| < 65536
  {
    if pos + 1 > |p| then Stop
    else
      var nameLen: int := p[pos];
      var a := pos + 1;
      if a + nameLen > |p| then Stop
      else
        var b := a + nameLen;
        if b + 2 > |p| then Stop
        else
          var plen: int := p[b] as int + 256 * (p[b + 1] as int);
          if b + 2 + plen > |p| then Stop
          else More(ModuleSpec(p[a..b], p[b + 2..b + 2 + plen]), b + 2 + plen)
  }

  function ParseFrom(p: Bytestring, pos: nat, count: nat): (ms: seq<ModuleSpec>)
    requires pos <= |p|
    ensures |ms| <= count
    decreases count
  {
    if count == 0 then []
    else match ParseOne(p, pos)
      case Stop => []
      case More(spec, next) => [spec] + ParseFrom(p, next, count - 1)
  }

  function Parse(p: Bytestring): seq<ModuleSpec>
    requires |p| >= 1
  {
    ParseFrom(p, 1, p[0])
  }

  /** The parse loop of `handle_chain_create`. */
  method ParseChainCreate(p: Bytestring) returns (mods: seq<ModuleSpec>)
    requires |p| >= 1
    ensures mods == Parse(p)
  {
    hide ParseOne;
    mods := [];
    var pos: nat, i, count := 1, 0, p[0];
    while i < count
      invariant pos <= |p| && 0 <= i <= count
      invariant Parse(p) == mods + ParseFrom(p, pos, count - i)
      decreases count - i
    {
      var r := ParseOne(p, pos);
      if r.Stop? {
        break;
      }
      Assoc(mods, [r.spec], ParseFrom(p, r.pos, count - i - 1));
      mods, pos, i := mods + [r.spec], r.pos, i + 1;
    }
    assert i < count ==> ParseFrom(p, pos, count - i) == [];
    NoneRight(mods);
  }

  // ----- Inverse, exactly within the length fields -----

  predicate FitsOne(m: ModuleSpec)
  {
    |m.name| < 256 && |m.params| < 65536
  }

  predicate Fits(ms: seq<ModuleSpec>)
  {
    |ms| < 256 && forall i :: 0 <= i < |ms| ==> FitsOne(ms[i])
  }

  lemma ParseOnePrinted(pre: Bytestring, m: ModuleSpec, rest: Bytestring)
    requires FitsOne(m)
    ensures var p := (pre + PrintOne(m)) + rest;
            ParseOne(p, |pre|) == More(m, |pre| + |PrintOne(m)|)
  {
    var p, a := (pre + PrintOne(m)) + rest, |pre| + 1;
    var b := a + |m.name|;
    assert p[|pre|] == |m.name|;
    assert p[a..b] == m.name;
    assert p[b] == |m.params| % 256 && p[b + 1] == |m.params| / 256;
    assert p[b] as int + 256 * (p[b + 1] as int) == |m.params|;
    assert p[b + 2..b + 2 + |m.params|] == m.params;
  }

  lemma ParseStep(p: Bytestring, pos: nat, count: nat)
    requires pos <= |p| && count > 0 && ParseOne(p, pos).More?
    ensures ParseFrom(p, pos, count) == [ParseOne(p, pos).spec] + ParseFrom(p, ParseOne(p, pos).pos, count - 1)
  {
    hide ParseOne;
  }

  lemma HeadTail<T>(s: seq<T>)
    requires s != []
    ensures s == [s[0]] + s[1..]
  {
  }

  lemma NonePrinted(pre: Bytestring, ms: seq<ModuleSpec>)
    requires ms == []
    ensures ParseFrom(pre + PrintAll(ms), |pre|, |ms|) == ms
  {
  }

  lemma {:induction false} ParsePrinted(pre: Bytestring, ms: seq<ModuleSpec>)
    requires forall i :: 0 <= i < |ms| ==> FitsOne(ms[i])
    ensures ParseFrom(pre + PrintAll(ms), |pre|, |ms|) == ms
    decreases |ms|
  {
    hide *;
    if ms == [] {
      NonePrinted(pre, ms);
    } else {
      var e, rest := PrintOne(ms[0]), PrintAll(ms[1..]);
      CutHead(ms, 0);
      var p := (pre + e) + rest;
      Assoc(pre, e, rest);
      assert |pre + e| == |pre| + |e|;
      ParseOnePrinted(pre, ms[0], rest);
      ParseStep(p, |pre|, |ms|);
      ParsePrinted(pre + e, ms[1..]);
      HeadTail(ms);
    }
  }

  lemma {:induction false} ParsedFits(p: Bytestring, pos: nat, count: nat)
    requires pos <= |p|
    ensures forall i :: 0 <= i < |ParseFrom(p, pos, count)| ==> FitsOne(ParseFrom(p, pos, count)[i])
    decreases count
  {
    if count > 0 {
      match ParseOne(p, pos)
      case Stop =>
      case More(spec, next) =>
        ParsedFits(p, next, count - 1);
    }
  }

  /** The server parses back exactly the client's list if and only if every length fits its field. */
  lemma ParsePrintIff(ms: seq<ModuleSpec>)
    ensures Parse(Print(ms)) == ms <==> Fits(ms)
  {
    hide ParseFrom, ParseOne, PrintAll;
    ParsedFits(Print(ms), 1, Print(ms)[0]);
    if Fits(ms) {
      ParsePrinted([|ms|], ms);
      assert Print(ms) == [|ms|] + PrintAll(ms);
    }
  }

  // ----- A list that is cut short -----

  /** How many modules of the list are whole in the first `n` bytes behind the count. */
  function WholeIn(ms: seq<ModuleSpec>, n: nat): (k: nat)
    ensures k <= |ms|
  {
    if ms == [] || n < |PrintOne(ms[0])| then 0 else 1 + WholeIn(ms[1..], n - |PrintOne(ms[0])|)
  }

  lemma ParseOneCut(pre: Bytestring, m: ModuleSpec, n: nat)
    requires FitsOne(m) && n < |PrintOne(m)|
    ensures ParseOne(pre + PrintOne(m)[..n], |pre|) == Stop
  {
    var e := PrintOne(m);
    var p, a := pre + e[..n], |pre| + 1;
    var b := a + |m.name|;
    if n >= 1 {
      assert p[|pre|] == e[0] == |m.name|;
      if |m.name| + 3 <= n {
        assert p[b] == e[1 + |m.name|] == |m.params| % 256 && p[b + 1] == e[2 + |m.name|] == |m.params| / 256;
      }
    }
  }

  lemma {:induction false} CutFrom(pre: Bytestring, ms: seq<ModuleSpec>, n: nat)
    requires (forall i :: 0 <= i < |ms| ==> FitsOne(ms[i])) && n <= |PrintAll(ms)|
    ensures ParseFrom(pre + PrintAll(ms)[..n], |pre|, |ms|) == ms[..WholeIn(ms, n)]
    decreases |ms|
  {
    hide *;
    if ms == [] {
      CutNone(pre, ms, n);
    } else {
      var e, rest, k := PrintOne(ms[0]), PrintAll(ms[1..]), WholeIn(ms, n);
      CutHead(ms, n);
      CutConcat(e, rest, n);
      if n < |e| {
        ParseOneCut(pre, ms[0], n);
        ParseStops(pre + e[..n], |pre|, |ms|);
      } else {
        var cut := rest[..n - |e|];
        Assoc(pre, e, cut);
        ParseOnePrinted(pre, ms[0], cut);
        ParseStep((pre + e) + cut, |pre|, |ms|);
        CutFrom(pre + e, ms[1..], n - |e|);
        TakeMore(ms, k);
      }
    }
  }

  lemma CutNone(pre: Bytestring, ms: seq<ModuleSpec>, n: nat)
    requires ms == [] && n <= |PrintAll(ms)|
    ensures ParseFrom(pre + PrintAll(ms)[..n], |pre|, |ms|) == ms[..WholeIn(ms, n)]
  {
  }

  lemma CutHead(ms: seq<ModuleSpec>, n: nat)
    requires ms != []
    ensures PrintAll(ms) == PrintOne(ms[0]) + PrintAll(ms[1..])
    ensures WholeIn(ms, n) ==
            if n < |PrintOne(ms[0])| then 0 else 1 + WholeIn(ms[1..], n - |PrintOne(ms[0])|)
  {
    hide PrintOne;
  }

  lemma CutConcat(a: Bytestring, b: Bytestring, n: nat)
    requires n <= |a + b|
    ensures (a + b)[..n] == if n < |a| then a[..n] else a + b[..n - |a|]
  {
  }

  lemma TakeMore(ms: seq<ModuleSpec>, k: nat)
    requires 1 <= k <= |ms|
    ensures [ms[0]] + ms[1..][..k - 1] == ms[..k]
  {
  }

  lemma ParseStops(p: Bytestring, pos: nat, count: nat)
    requires pos <= |p| && ParseOne(p, pos) == Stop
    ensures ParseFrom(p, pos, count) == []
  {
    hide ParseOne;
  }

  /** A list that is cut short is read as the modules that are whole in it. */
  lemma CutParses(ms: seq<ModuleSpec>, n: nat)
    requires Fits(ms) && 1 <= n <= |Print(ms)|
    ensures Parse(Print(ms)[..n]) == ms[..WholeIn(ms, n - 1)]
  {
    hide ParseFrom, PrintAll, PrintOne, FitsOne, WholeIn;
    assert Print(ms)[..n] == [|ms|] + PrintAll(ms)[..n - 1];
    CutFrom([|ms|], ms, n - 1);
  }
}
