/** The split module of modules/split/split.cpp as it runs: one context, updated in place. */
module SplitContext {
  import opened Bytes
  import opened Arithmetic
  import opened SplitHeader
  import opened Merge
  import SplitMerge

  const MIN_CHUNK: int := 64
  const MAX_CHUNK: int := 65536
  const MAX_CHUNKS_PER_PASS: int := 65536
  const INT_MAX: int := 0x7FFF_FFFF

  /** A packet handed to `write_packet`. */
  datatype Write = Write(dst: nat, data: Bytestring)

  /** The output in turn. */
  function OutFor(rr: u32, outputs: nat): (dst: nat)
    requires 1 <= outputs
    ensures 1 <= dst <= outputs
  {
    1 + rr % outputs
  }

  /** A 32-bit counter `n` steps later. */
  function Plus(i: u32, n: nat): u32
  {
    (i + n) % TWO_32
  }

  /** The 16 bits of a chunk number that go into the header. */
  function ChunkId(n: nat): u16
  {
    n % 65536
  }

  /** `writes` is what `process_split` writes for `chunks`: every chunk once, in order, with its header, numbered
      from `first` on, on the outputs in turn starting after `rr`. `open` says that more chunks of the packet
      follow. */
  predicate SplitWrites(pkt: u32, rr: u32, outputs: nat, first: nat, chunks: seq<Bytestring>, open: bool,
                        writes: seq<Write>)
    requires 1 <= outputs
  {
    && |writes| == |chunks|
    && forall k :: 0 <= k < |chunks| ==>
         writes[k] == Write(OutFor(Plus(rr, k), outputs),
                            ChunkBytes(pkt, k + 1 < |chunks| || open, ChunkId(first + k), chunks[k]))
  }

  // ----- The outputs in turn -----

  /** The outputs that were written to, without those of the merging direction. */
  function Outs(ws: seq<Write>): seq<nat>
  {
    if ws == [] then []
    else
      var k := |ws| - 1;
      Outs(ws[..k]) + if ws[k].dst >= 1 then [ws[k].dst] else []
  }

  /** The first write goes to output 1, and every other to the output after that of the write before it, the last
      being followed by output 1. Only when the 32-bit counter wraps does the turn start afresh. */
  predicate InTurn(outs: seq<nat>, n: nat)
  {
    forall k :: 0 <= k < |outs| ==> TurnOk(outs, n, k)
  }

  predicate TurnOk(outs: seq<nat>, n: nat, k: nat)
    requires k < |outs|
  {
    outs[k] == if k % TWO_32 == 0 || outs[k - 1] == n then 1 else outs[k - 1] + 1
  }

  predicate AtTurns(outs: seq<nat>, n: nat)
    requires 1 <= n
  {
    forall k :: 0 <= k < |outs| ==> outs[k] == OutFor(k % TWO_32, n)
  }

  lemma OutNext(k: nat, n: nat)
    requires 1 <= n && k >= 1
    ensures OutFor(k % TWO_32, n) ==
            if k % TWO_32 == 0 || OutFor((k - 1) % TWO_32, n) == n then 1 else OutFor((k - 1) % TWO_32, n) + 1
  {
    hide OutFor;
    var x := (k - 1) % TWO_32;
    ModNext(k - 1, TWO_32);
    FirstOut(n);
    if k % TWO_32 != 0 {
      NextOut(x, n);
    }
  }

  lemma NextOut(x: nat, n: nat)
    requires 1 <= n && x + 1 < TWO_32
    ensures OutFor(x + 1, n) == if OutFor(x, n) == n then 1 else OutFor(x, n) + 1
  {
    ModNext(x, n);
  }

  lemma TurnsFrom(outs: seq<nat>, n: nat)
    requires 1 <= n && AtTurns(outs, n)
    ensures InTurn(outs, n)
  {
    hide OutFor;
    FirstOut(n);
    forall k | 0 <= k < |outs|
      ensures TurnOk(outs, n, k)
    {
      if k >= 1 {
        OutNext(k, n);
      }
    }
  }

  lemma FirstOut(n: nat)
    requires 1 <= n
    ensures OutFor(0, n) == 1
  {
  }

  lemma {:induction false} TurnsAt(outs: seq<nat>, n: nat, k: nat)
    requires 1 <= n && InTurn(outs, n) && k < |outs|
    ensures outs[k] == OutFor(k % TWO_32, n)
  {
    hide OutFor;
    assert TurnOk(outs, n, k);
    if k == 0 {
      FirstOut(n);
    } else {
      TurnsAt(outs, n, k - 1);
      OutNext(k, n);
    }
  }

  lemma {:induction false} OutsConcat(a: seq<Write>, b: seq<Write>)
    ensures Outs(a + b) == Outs(a) + Outs(b)
  {
    if b == [] {
      NoneRight(a);
      NoneRight(Outs(a));
    } else {
      var k := |b| - 1;
      OutsConcat(a, b[..k]);
      assert (a + b)[..|a| + k] == a + b[..k];
      Assoc(Outs(a), Outs(b[..k]), if b[k].dst >= 1 then [b[k].dst] else []);
    }
  }

  lemma {:induction false} OutsAll(ws: seq<Write>)
    requires forall k :: 0 <= k < |ws| ==> ws[k].dst >= 1
    ensures |Outs(ws)| == |ws| && forall k :: 0 <= k < |ws| ==> Outs(ws)[k] == ws[k].dst
  {
    if ws != [] {
      OutsAll(ws[..|ws| - 1]);
    }
  }

  lemma {:induction false} OutsNone(ws: seq<Write>)
    requires forall k :: 0 <= k < |ws| ==> ws[k].dst == 0
    ensures Outs(ws) == []
  {
    if ws != [] {
      OutsNone(ws[..|ws| - 1]);
    }
  }

  /** The writes of one packet carry the turn on. */
  lemma TurnsGoOn(pkt: u32, rr: u32, n: nat, first: nat, chunks: seq<Bytestring>, open: bool, writes: seq<Write>,
                  before: seq<Write>)
    requires 1 <= n && SplitWrites(pkt, rr, n, first, chunks, open, writes)
    requires InTurn(Outs(before), n) && rr == |Outs(before)| % TWO_32
    ensures InTurn(Outs(before + writes), n) && Plus(rr, |chunks|) == |Outs(before + writes)| % TWO_32
  {
    hide OutFor, Outs, InTurn, ChunkBytes, ChunkId, AtTurns;
    OutsAll(writes);
    OutsConcat(before, writes);
    TurnsJoin(Outs(before), Outs(writes), n, rr);
    TurnsFrom(Outs(before) + Outs(writes), n);
    ModAdd(|Outs(before)|, |chunks|);
  }

  lemma TurnsJoin(a: seq<nat>, b: seq<nat>, n: nat, rr: u32)
    requires 1 <= n && InTurn(a, n) && rr == |a| % TWO_32
    requires forall k :: 0 <= k < |b| ==> b[k] == OutFor(Plus(rr, k), n)
    ensures AtTurns(a + b, n)
  {
    hide OutFor, InTurn;
    forall k | 0 <= k < |a + b|
      ensures (a + b)[k] == OutFor(k % TWO_32, n)
    {
      if k < |a| {
        TurnsAt(a, n, k);
      } else {
        ModAdd(|a|, k - |a|);
      }
    }
  }

  /** Where the turn is `d` writes after write `k`. */
  lemma {:induction false} TurnAfter(outs: seq<nat>, n: nat, k: nat, d: nat)
    requires 1 <= n && InTurn(outs, n) && k + d < |outs| && d < n && 1 <= outs[k] <= n
    requires forall i :: k < i <= k + d ==> i % TWO_32 != 0
    ensures outs[k + d] == if outs[k] + d <= n then outs[k] + d else outs[k] + d - n
  {
    if d > 0 {
      TurnAfter(outs, n, k, d - 1);
      assert (k + d) % TWO_32 != 0 && TurnOk(outs, n, k + d);
    }
  }

  /** One of the `n` writes from write `k` on goes to output `d`. */
  predicate Used(outs: seq<nat>, k: nat, n: nat, d: nat)
  {
    exists i :: 0 <= i < |outs| && k <= i < k + n && outs[i] == d
  }

  /** Any `n` consecutive writes go to all `n` outputs, once each, unless the counter wraps among them. */
  lemma EveryOutputOnce(outs: seq<nat>, n: nat, k: nat)
    requires 1 <= n && InTurn(outs, n) && k + n <= |outs|
    requires forall i :: k < i < k + n ==> i % TWO_32 != 0
    ensures forall d :: 1 <= d <= n ==> Used(outs, k, n, d)
    ensures forall i, j :: k <= i < j < k + n ==> outs[i] != outs[j]
  {
    TurnsAt(outs, n, k);
    var a := outs[k];
    assert 1 <= a <= n;
    hide OutFor, InTurn;
    forall d | 1 <= d <= n
      ensures Used(outs, k, n, d)
    {
      var e := if d >= a then d - a else d - a + n;
      TurnAfter(outs, n, k, e);
      assert outs[k + e] == d;
    }
    forall i, j | k <= i < j < k + n
      ensures outs[i] != outs[j]
    {
      TurnAfter(outs, n, k, i - k);
      TurnAfter(outs, n, k, j - k);
    }
  }

  // ----- The sizes of the chunks -----

  /** A size that the configuration allows. */
  predicate InRange(lo: int, hi: int, n: int)
  {
    if lo >= hi then n == lo else lo <= n <= hi
  }

  /** Every chunk has a size from the configured range, except that the last chunk of a packet may be shorter,
      and that chunk number 65536 of a pass takes all that is left. */
  predicate Sized(lo: int, hi: int, chunks: seq<Bytestring>, open: bool)
  {
    forall k :: 0 <= k < |chunks| ==>
      && (k + 1 < |chunks| || open ==> InRange(lo, hi, |chunks[k]|))
      && (k < 65535 ==> |chunks[k]| <= if lo >= hi then lo else hi)
  }

  lemma SizedMore(lo: int, hi: int, chunks: seq<Bytestring>, x: Bytestring, open: bool)
    requires Sized(lo, hi, chunks, true)
    requires open ==> InRange(lo, hi, |x|)
    requires |chunks| < 65535 ==> |x| <= if lo >= hi then lo else hi
    ensures Sized(lo, hi, chunks + [x], open)
  {
  }

  lemma Appended(a: seq<Write>, b: seq<Write>)
    ensures a <= a + b && (a + b)[|a|..] == b
  {
  }

  lemma NothingWritten(pkt: u32, rr: u32, outputs: int, first: nat, data: Bytestring)
    requires 1 <= outputs
    ensures SplitWrites(pkt, rr, outputs, first, [], true, []) && SplitWrites(pkt, rr, outputs, first, [], false, [])
    ensures CutAt(data, 0, []) && Flatten<byte>([]) == []
  {
  }

  lemma OneMoreWrite(pkt: u32, rr: u32, outputs: nat, first: nat, chunks: seq<Bytestring>, writes: seq<Write>,
                     payload: Bytestring, more: bool)
    requires 1 <= outputs && SplitWrites(pkt, rr, outputs, first, chunks, true, writes)
    ensures var w := Write(OutFor(Plus(rr, |chunks|), outputs),
                           ChunkBytes(pkt, more, ChunkId(first + |chunks|), payload));
            SplitWrites(pkt, rr, outputs, first, chunks + [payload], more, writes + [w])
  {
    hide ChunkBytes, ChunkId;
  }

  /** The first `offset` bytes have been cut into `chunks`. */
  predicate CutAt(data: Bytestring, offset: nat, chunks: seq<Bytestring>)
  {
    && offset <= |data|
    && Flatten(chunks) == data[..offset]
    && (forall k :: 0 <= k < |chunks| ==> chunks[k] != [])
  }

  lemma CutNext(data: Bytestring, offset: nat, chunks: seq<Bytestring>, n: nat)
    requires CutAt(data, offset, chunks) && 1 <= n <= |data| - offset
    ensures CutAt(data, offset + n, chunks + [data[offset..offset + n]])
  {
    FlattenSnoc(chunks, data[offset..offset + n]);
    assert data[..offset] + data[offset..offset + n] == data[..offset + n];
  }

  lemma CutPart(data: Bytestring, offset: nat, chunks: seq<Bytestring>)
    requires CutAt(data, offset, chunks) && offset < |data|
    ensures Flatten(chunks) < data && (forall k :: 0 <= k < |chunks| ==> chunks[k] != [])
  {
  }

  lemma CutDone(data: Bytestring, chunks: seq<Bytestring>)
    requires CutAt(data, |data|, chunks)
    ensures Flatten(chunks) == data && (forall k :: 0 <= k < |chunks| ==> chunks[k] != [])
    ensures data != [] ==> chunks != []
  {
    assert data[..|data|] == data;
  }

  /** The table without the entries from `lo` up to, but not including, `ki`. */
  function Skip(pending: Table, lo: Id, ki: Id): Table
  {
    map k | k in pending && !(Le(lo, k) && !Le(ki, k) && k.1 < 65536) :: pending[k]
  }

  lemma SkipStart(pending: Table, lo: Id)
    ensures Skip(pending, lo, lo) == pending
  {
  }

  lemma SkipStep(pending: Table, lo: Id, ki: Id, hi: Id, packet: Bytestring)
    requires ki.1 < 65536 && Le(lo, ki) && Le(ki, hi)
    ensures ki in Skip(pending, lo, ki) <==> ki in pending
    ensures ki in pending ==> Skip(pending, lo, ki)[ki] == pending[ki]
    ensures Skip(pending, lo, Next(ki)) == Skip(pending, lo, ki) - {ki}
    ensures ki !in pending ==> Skip(pending, lo, Next(ki)) == Skip(pending, lo, ki)
    ensures packet + RangeConcat(pending, ki, hi) ==
            (packet + (if ki in pending then pending[ki].data else [])) + RangeConcat(pending, Next(ki), hi)
    ensures ki !in pending ==> packet + RangeConcat(pending, ki, hi) == packet + RangeConcat(pending, Next(ki), hi)
  {
    assert forall k: Id :: k.1 < 65536 && !Le(Next(ki), k) <==> k.1 < 65536 && (!Le(ki, k) || k == ki);
    assert RangeConcat(pending, ki, hi) ==
           (if ki in pending then pending[ki].data else []) + RangeConcat(pending, Next(ki), hi);
    hide RangeConcat;
  }

  lemma SkipEnd(pending: Table, lo: Id, ki: Id, hi: Id, packet: Bytestring)
    requires ki.1 < 65536 && hi.1 < 65536 && Le(ki, Next(hi)) && !Le(ki, hi)
    ensures Skip(pending, lo, ki) == DropRange(pending, lo, hi)
    ensures packet + RangeConcat(pending, ki, hi) == packet
  {
    assert forall k: Id :: k.1 < 65536 ==> (!Le(ki, k) <==> Le(k, hi));
  }

  class Context {
    const numOutputs: int
    const chunkMin: int
    const chunkMax: int
    var rrIdx: u32
    var pktSeq: u32
    var chunkIdx: u32
    var pending: Table
    var expPkt: u32
    var expChunk: u32
    var written: seq<Write>

    predicate Configured()
    {
      1 <= numOutputs < TWO_32 && MIN_CHUNK <= chunkMin <= MAX_CHUNK && MIN_CHUNK <= chunkMax <= MAX_CHUNK
    }

    function MergeState(): State
      reads this
    {
      State(pending, expPkt, expChunk)
    }

    /** All writes so far took the outputs in turn. */
    ghost predicate Turns()
      reads this
    {
      1 <= numOutputs && rrIdx == |Outs(written)| % TWO_32 && InTurn(Outs(written), numOutputs)
    }

    constructor (outputs: int, chunkMin: int, chunkMax: int)
      requires outputs < TWO_32
      requires MIN_CHUNK <= chunkMin <= MAX_CHUNK && MIN_CHUNK <= chunkMax <= MAX_CHUNK
      ensures Configured() && MergeState() == INIT && pktSeq == 0 && chunkIdx == 0 && rrIdx == 0 && written == []
      ensures Turns() && numOutputs == (if outputs < 1 then 1 else outputs)
      ensures this.chunkMin == chunkMin && this.chunkMax == chunkMax
    {
      numOutputs := if outputs < 1 then 1 else outputs;
      this.chunkMin, this.chunkMax := chunkMin, chunkMax;
      rrIdx, pktSeq, chunkIdx, pending, expPkt, expChunk, written := 0, 0, 0, map[], 0, 0, [];
    }

    /** A chunk size from the configured range; the random choice is left open. */
    method NextChunkSize() returns (n: int)
      requires Configured()
      ensures InRange(chunkMin, chunkMax, n)
    {
      if chunkMin >= chunkMax {
        return chunkMin;
      }
      var r: nat := *;
      n := chunkMin + r % (chunkMax - chunkMin + 1);
    }

    /** The length of the next chunk, when the pass has made `made` chunks; the last one a pass may make takes
        all that remains. */
    method ChunkLength(made: nat, remain: int) returns (n: int)
      requires Configured() && remain > 0
      ensures 1 <= n <= remain
      ensures made >= 65535 ==> n == remain
      ensures n < remain ==> InRange(chunkMin, chunkMax, n)
      ensures made < 65535 ==> n <= if chunkMin >= chunkMax then chunkMin else chunkMax
    {
      if made >= MAX_CHUNKS_PER_PASS - 1 {
        return remain;
      }
      n := NextChunkSize();
      if n > remain {
        n := remain;
      }
    }

    /** `process_split`; `allocOk` are the answers of `malloc`. Whatever sizes are chosen, the chunks
        concatenate to the packet, there are between 1 and 65536 of them, and none is empty. If an allocation
        fails, those written so far stay written, and neither counter is reset. */
    method ProcessSplit(data: Bytestring, allocOk: nat -> bool) returns (ghost chunks: seq<Bytestring>, done: bool)
      requires Configured() && |data| <= INT_MAX
      modifies this`rrIdx, this`pktSeq, this`chunkIdx, this`written
      ensures data == [] ==> done && chunks == [] && pktSeq == old(pktSeq) && chunkIdx == old(chunkIdx)
      ensures done ==> Flatten(chunks) == data
      ensures !done ==> Flatten(chunks) < data && exists i: nat :: !allocOk(i)
      ensures forall k :: 0 <= k < |chunks| ==> chunks[k] != []
      ensures data != [] && done ==> 1 <= |chunks| <= 65536
      ensures old(written) <= written
      ensures SplitWrites(old(pktSeq), old(rrIdx), numOutputs, old(chunkIdx), chunks, !done, written[|old(written)|..])
      ensures rrIdx == Plus(old(rrIdx), |chunks|)
      ensures data != [] && done ==> pktSeq == (old(pktSeq) + 1) % TWO_32 && chunkIdx == 0
      ensures !done ==> pktSeq == old(pktSeq) && chunkIdx == Plus(old(chunkIdx), |chunks|)
      ensures Sized(chunkMin, chunkMax, chunks, !done)
      ensures old(Turns()) ==> Turns()
    {
      hide SplitWrites, Flatten, CutAt, InTurn, Outs;
      chunks, done := [], true;
      if |data| == 0 {
        NothingWritten(pktSeq, rrIdx, numOutputs, chunkIdx, data);
        NextIndex(rrIdx, 0);
        Appended(written, []);
        NoneRight(written);
        return;
      }
      ghost var writes;
      chunks, writes, done := CutAndEmit(data, allocOk);
      Appended(old(written), writes);
      if old(Turns()) {
        TurnsGoOn(pktSeq, old(rrIdx), numOutputs, old(chunkIdx), chunks, !done, writes, old(written));
      }
      if done {
        pktSeq := (pktSeq + 1) % TWO_32;
        chunkIdx := 0;
      }
    }

    /** The loop of `process_split`. */
    method CutAndEmit(data: Bytestring, allocOk: nat -> bool)
      returns (ghost chunks: seq<Bytestring>, ghost writes: seq<Write>, done: bool)
      requires Configured() && 1 <= |data| <= INT_MAX
      modifies this`rrIdx, this`chunkIdx, this`written
      ensures done ==> Flatten(chunks) == data && 1 <= |chunks| <= 65536
      ensures !done ==> Flatten(chunks) < data && exists i: nat :: !allocOk(i)
      ensures forall k :: 0 <= k < |chunks| ==> chunks[k] != []
      ensures 1 <= numOutputs && written == old(written) + writes
      ensures SplitWrites(pktSeq, old(rrIdx), numOutputs, old(chunkIdx), chunks, !done, writes)
      ensures rrIdx == Plus(old(rrIdx), |chunks|) && chunkIdx == Plus(old(chunkIdx), |chunks|)
      ensures Sized(chunkMin, chunkMax, chunks, !done)
    {
      hide SplitWrites, CutAt, Flatten, Plus;
      chunks, writes, done := [], [], false;
      NothingWritten(pktSeq, rrIdx, numOutputs, chunkIdx, data);
      NextIndex(rrIdx, 0);
      NextIndex(chunkIdx, 0);
      NoneRight(written);
      var offset, made := 0, 0;
      while offset < |data|
        invariant Cutting(data, offset, chunks, writes, old(rrIdx), old(chunkIdx), old(written))
        invariant offset <= |data| && |chunks| == made <= 65536 && (offset < |data| ==> made < 65536)
        decreases |data| - offset
      {
        if !allocOk(made) {
          CutPart(data, offset, chunks);
          return;
        }
        var n;
        n, chunks, writes := CutOne(data, offset, made, chunks, writes, old(rrIdx), old(chunkIdx), old(written));
        offset, made := offset + n, made + 1;
      }
      CutDone(data, chunks);
      done := true;
    }

    /** The first `offset` bytes have been cut into `chunks` and sent as `writes`, starting with these counters
        and behind these earlier writes. */
    ghost predicate Cutting(data: Bytestring, offset: nat, chunks: seq<Bytestring>, writes: seq<Write>,
                            rr: u32, first: u32, earlier: seq<Write>)
      reads this
    {
      && 1 <= numOutputs && CutAt(data, offset, chunks)
      && rrIdx == Plus(rr, |chunks|) && chunkIdx == Plus(first, |chunks|)
      && written == earlier + writes
      && SplitWrites(pktSeq, rr, numOutputs, first, chunks, offset < |data|, writes)
      && Sized(chunkMin, chunkMax, chunks, offset < |data|)
    }

    /** One turn of the loop. */
    method CutOne(data: Bytestring, offset: nat, made: nat, ghost chunks: seq<Bytestring>, ghost writes: seq<Write>,
                  ghost rr: u32, ghost first: u32, ghost earlier: seq<Write>)
      returns (n: nat, ghost chunks': seq<Bytestring>, ghost writes': seq<Write>)
      requires Configured() && offset < |data| && |chunks| == made < 65536
      requires Cutting(data, offset, chunks, writes, rr, first, earlier)
      modifies this`rrIdx, this`chunkIdx, this`written
      ensures 1 <= n <= |data| - offset && |chunks'| == made + 1
      ensures offset + n < |data| ==> made + 1 < 65536
      ensures Cutting(data, offset + n, chunks', writes', rr, first, earlier)
    {
      hide SplitWrites, CutAt, Flatten, Plus, ChunkBytes, OutFor, ChunkId, Sized, InRange;
      n := ChunkLength(made, |data| - offset);
      CutNext(data, offset, chunks, n);
      var payload, more := data[offset..offset + n], offset + n < |data|;
      SizedMore(chunkMin, chunkMax, chunks, payload, more);
      LowChunkBits(first, |chunks|);
      OneMoreWrite(pktSeq, rr, numOutputs, first, chunks, writes, payload, more);
      NextIndex(rr, |chunks|);
      NextIndex(first, |chunks|);
      var w := EmitChunk(payload, more);
      Assoc(earlier, writes, [w]);
      chunks', writes' := chunks + [payload], writes + [w];
    }

    /** Writes one chunk to the next output in turn. */
    method EmitChunk(payload: Bytestring, more: bool) returns (w: Write)
      requires Configured()
      modifies this`rrIdx, this`chunkIdx, this`written
      ensures w == Write(OutFor(old(rrIdx), numOutputs), ChunkBytes(pktSeq, more, ChunkId(old(chunkIdx)), payload))
      ensures written == old(written) + [w]
      ensures rrIdx == Plus(old(rrIdx), 1) && chunkIdx == Plus(old(chunkIdx), 1)
      ensures 1 <= numOutputs
    {
      w := Write(OutFor(rrIdx, numOutputs), ChunkBytes(pktSeq, more, ChunkId(chunkIdx), payload));
      written := written + [w];
      rrIdx := Plus(rrIdx, 1);
      chunkIdx := Plus(chunkIdx, 1);
    }

    /** The ordered walk over the entries of the expected packet: collects and erases them. */
    method TakeRange(lo: Id, hi: Id) returns (packet: Bytestring)
      requires lo.1 < 65536 && hi.1 < 65536 && Le(lo, hi)
      modifies this`pending
      ensures packet == RangeConcat(old(pending), lo, hi)
      ensures pending == DropRange(old(pending), lo, hi)
    {
      hide DropRange, RangeConcat, Skip;
      packet := [];
      var ki: Id := lo;
      SkipStart(pending, lo);
      while Le(ki, hi)
        invariant ki.1 < 65536 && Le(lo, ki) && Le(ki, Next(hi))
        invariant packet + RangeConcat(old(pending), ki, hi) == RangeConcat(old(pending), lo, hi)
        invariant pending == Skip(old(pending), lo, ki)
        decreases if ki.0 <= hi.0 then hi.0 + 1 - ki.0 else 0, 65536 - ki.1
      {
        SkipStep(old(pending), lo, ki, hi, packet);
        if ki in pending {
          packet := packet + pending[ki].data;
          pending := pending - {ki};
        }
        ki := Next(ki);
      }
      SkipEnd(old(pending), lo, ki, hi, packet);
    }

    /** The flush loop. */
    method FlushReady() returns (flushed: seq<Bytestring>)
      requires Ends(MergeState())
      modifies this`pending, this`expPkt, this`expChunk
      ensures MergeState() == Drain(old(MergeState())).0
      ensures flushed == Drain(old(MergeState())).1
    {
      hide Drain, Ends, Gap, RangeConcat, DropRange, Or;
      flushed := [];
      while true
        invariant Ends(MergeState())
        invariant Drain(old(MergeState())).0 == Drain(MergeState()).0
        invariant Drain(old(MergeState())).1 == flushed + Drain(MergeState()).1
        decreases |pending|, Gap(pending, expPkt, expChunk, TWO_32)
      {
        ghost var s := MergeState();
        TurnShrinks(s);
        DrainStep(s);
        var expKey := Key(expPkt, expChunk);
        if expKey !in pending {
          break;
        }
        if !pending[expKey].more {
          KeyAfterStart(expPkt, expChunk);
          var packet := TakeRange((expPkt, 0), expKey);
          flushed := flushed + [packet];
          expPkt, expChunk := (expPkt + 1) % TWO_32, 0;
          assert TakeTurn(s) == Flush(MergeState(), packet);
          continue;
        }
        expChunk := (expChunk + 1) % TWO_32;
        assert TakeTurn(s) == Bump(MergeState());
      }
    }

    /** `process_merge`: files the chunk, then writes every packet that has become complete to output 0. */
    method ProcessMerge(data: Bytestring)
      requires SplitMerge.Accepted(MergeState(), data) ==> Ends(SplitMerge.File(MergeState(), data))
      modifies this`pending, this`expPkt, this`expChunk, this`written
      ensures MergeState() == SplitMerge.Receive(old(MergeState()), data).0
      ensures written == old(written) + ToOutput0(SplitMerge.Receive(old(MergeState()), data).1)
      ensures old(written) <= written && forall k :: |old(written)| <= k < |written| ==> written[k].dst == 0
      ensures old(Turns()) ==> Turns()
    {
      hide Outs, InTurn;
      NoneRight(written);
      if |data| < 4 {
        return;
      }
      var h := DecodeHdr(ReadHdr(data));
      var pktFull := Expand(expPkt, h.wireId);
      if pktFull < expPkt {
        return;
      }
      ghost var filed := SplitMerge.File(MergeState(), data);
      pending := pending[(pktFull, h.chunk) := Slot(data[4..], h.more)];
      assert MergeState() == filed;
      var flushed := FlushReady();
      OutsConcat(written, ToOutput0(flushed));
      OutsNone(ToOutput0(flushed));
      NoneRight(Outs(written));
      written := written + ToOutput0(flushed);
    }
  }

  lemma KeyAfterStart(pkt: nat, chunk: nat)
    ensures Le((pkt, 0), Key(pkt, chunk)) && Key(pkt, chunk).1 < 65536
  {
    OrGe(pkt, chunk / 65536);
  }

  function ToOutput0(packets: seq<Bytestring>): (r: seq<Write>)
    ensures |r| == |packets|
    ensures forall i :: 0 <= i < |r| ==> r[i].dst == 0 && r[i].data == packets[i]
  {
    seq(|packets|, i requires 0 <= i < |packets| => Write(0, packets[i]))
  }

  lemma LowChunkBits(i: u32, n: nat)
    ensures ChunkId(Plus(i, n)) == ChunkId(i + n)
  {
    var q := (i + n) / TWO_32;
    assert i + n == 65536 * (65536 * q) + Plus(i, n);
  }

  lemma NextIndex(i: u32, n: nat)
    ensures Plus(Plus(i, n), 1) == Plus(i, n + 1) && Plus(i, 0) == i
  {
    ModAdd(i + n, 1);
  }

  lemma ModAdd(x: nat, d: nat)
    ensures (x % TWO_32 + d) % TWO_32 == (x + d) % TWO_32
  {
    var q := x / TWO_32;
    assert x + d == TWO_32 * q + (x % TWO_32 + d);
  }

  lemma SameHeader(p: nat, q: nat, more: bool, chunk: u16, payload: Bytestring)
    requires p % ID_SPACE == q % ID_SPACE
    ensures ChunkBytes(p, more, chunk, payload) == ChunkBytes(q, more, chunk, payload)
  {
  }

  lemma LowBitsStay(i: nat)
    ensures (i % TWO_32) % ID_SPACE == i % ID_SPACE
  {
    var q := i / TWO_32;
    assert i == ID_SPACE * (131072 * q) + i % TWO_32;
  }

  /** What one side writes is what the other side understands: the writes of `process_split` for packet
      number `i` are the messages that `SplitMerge` proves are reassembled. */
  lemma WritesAreMessages(c: SplitMerge.Traffic, i: nat, rr: u32, outputs: nat, writes: seq<Write>, k: nat)
    requires SplitMerge.ValidTraffic(c) && SplitMerge.IsChunk(c, i, k) && 1 <= outputs
    requires SplitWrites(i % TWO_32, rr, outputs, 0, c[i], false, writes)
    ensures writes[k].data == SplitMerge.Msg(c, i, k)
  {
    hide ChunkBytes, OutFor, Plus;
    LowBitsStay(i);
    SameHeader(i % TWO_32, i, k + 1 < |c[i]|, k, c[i][k]);
  }

  /** After a failed allocation the next packet is glued to the part of the failed one that was sent: what goes
      out is, message for message, what a single packet made of both would have sent, so that is what the other
      side puts together. */
  lemma FailedPacketGlued(pkt: u32, rr: u32, outputs: nat, part: seq<Bytestring>, sent: seq<Write>,
                          next: seq<Bytestring>, writes: seq<Write>)
    requires 1 <= outputs && next != []
    requires SplitWrites(pkt, rr, outputs, 0, part, true, sent)
    requires SplitWrites(pkt, Plus(rr, |part|), outputs, |part|, next, false, writes)
    ensures SplitWrites(pkt, rr, outputs, 0, part + next, false, sent + writes)
    ensures Flatten(part + next) == Flatten(part) + Flatten(next)
  {
    FlattenConcat(part, next);
    hide ChunkBytes, OutFor, ChunkId, Flatten, Plus;
    var all, out := part + next, sent + writes;
    forall k | 0 <= k < |all|
      ensures out[k] == Write(OutFor(Plus(rr, k), outputs),
                              ChunkBytes(pkt, k + 1 < |all|, ChunkId(0 + k), all[k]))
    {
      if k < |part| {
        assert out[k] == sent[k];
      } else {
        SumIndex(rr, |part|, k - |part|);
        assert out[k] == writes[k - |part|];
      }
    }
  }

  lemma SumIndex(i: u32, m: nat, n: nat)
    ensures Plus(Plus(i, m), n) == Plus(i, m + n)
  {
    ModAdd(i + m, n);
  }
}
