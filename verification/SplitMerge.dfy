/** Reassembly is the inverse of splitting, whatever order the chunks arrive in. */
module SplitMerge {
  import opened Bytes
  import opened SplitHeader
  import opened Merge

  /** All packets ever split, each as its list of chunks. */
  type Traffic = seq<seq<Bytestring>>

  predicate ValidTraffic(c: Traffic)
  {
    forall i :: 0 <= i < |c| ==> 1 <= |c[i]| <= 65536
  }

  /** Number `k` of packet number `i` is a chunk that was sent. */
  predicate IsChunk(c: Traffic, i: int, k: int)
  {
    0 <= i < |c| && 0 <= k < |c[i]|
  }

  function Packets(c: Traffic): seq<Bytestring>
  {
    seq(|c|, i requires 0 <= i < |c| => Flatten(c[i]))
  }

  function SlotOf(c: Traffic, i: nat, k: nat): Slot
    requires IsChunk(c, i, k)
  {
    Slot(c[i][k], k + 1 < |c[i]|)
  }

  /** What `process_split` writes for one chunk. */
  function Msg(c: Traffic, i: nat, k: nat): Bytestring
    requires ValidTraffic(c) && IsChunk(c, i, k)
  {
    ChunkBytes(i, k + 1 < |c[i]|, k, c[i][k])
  }

  // ----- One call of process_merge -----

  /** The packet number a chunk is filed under. */
  function FullId(s: State, data: Bytestring): u32
    requires |data| >= 4
  {
    Expand(s.expPkt, DecodeHdr(ReadHdr(data)).wireId)
  }

  predicate Accepted(s: State, data: Bytestring)
  {
    |data| >= 4 && FullId(s, data) >= s.expPkt
  }

  /** The table after the chunk has been filed, replacing an earlier copy. */
  function File(s: State, data: Bytestring): State
    requires Accepted(s, data)
  {
    var h := DecodeHdr(ReadHdr(data));
    s.(pending := s.pending[(FullId(s, data), h.chunk) := Slot(data[4..], h.more)])
  }

  /** `process_merge`: the new state and the packets written. A call that would hang is left where it is;
      `MergeExact` shows that none does on split traffic. */
  ghost function Receive(s: State, data: Bytestring): (State, seq<Bytestring>)
  {
    if Accepted(s, data) && Ends(File(s, data)) then Drain(File(s, data)) else (s, [])
  }

  // ----- Runs -----

  /** A delivery order: chunk ids, with repetitions and gaps as the network pleases. */
  type Deliveries = seq<Id>

  ghost function Run(c: Traffic, ds: Deliveries): (State, seq<Bytestring>)
    requires ValidTraffic(c) && forall d :: d in ds ==> IsChunk(c, d.0, d.1)
    decreases |ds|
  {
    if ds == [] then (INIT, [])
    else
      var n := |ds| - 1;
      var (s, out) := Run(c, ds[..n]);
      var (t, more) := Receive(s, Msg(c, ds[n].0, ds[n].1));
      (t, out + more)
  }

  /** Every chunk is one that was sent and arrives within the window around the expected packet. */
  ghost predicate Windowed(c: Traffic, ds: Deliveries)
    requires ValidTraffic(c)
    decreases |ds|
  {
    ds == [] ||
    var n := |ds| - 1;
    && Windowed(c, ds[..n])
    && IsChunk(c, ds[n].0, ds[n].1)
    && (forall d :: d in ds[..n] ==> IsChunk(c, d.0, d.1))
    && InWindow(Run(c, ds[..n]).0.expPkt, ds[n].0)
  }

  // ----- The invariant -----

  function Ids(ds: Deliveries): set<Id>
  {
    set d | d in ds
  }

  predicate ValidIds(c: Traffic, got: set<Id>)
  {
    forall d :: d in got ==> IsChunk(c, d.0, d.1)
  }

  /** Every entry of the table is a chunk that arrived and belongs to a packet not yet written. */
  predicate Sound(c: Traffic, got: set<Id>, s: State)
  {
    forall d :: d in s.pending ==>
      && IsChunk(c, d.0, d.1)
      && d in got
      && s.expPkt <= d.0 < LAST_PACKET
      && s.pending[d] == SlotOf(c, d.0, d.1)
  }

  /** Nothing that arrived for a packet not yet written is missing from the table. */
  predicate Kept(got: set<Id>, s: State)
  {
    forall d :: d in got && s.expPkt <= d.0 < LAST_PACKET ==> d in s.pending
  }

  /** Packets already written had arrived completely. */
  ghost predicate WrittenWhole(c: Traffic, got: set<Id>, m: int)
    requires m <= |c|
  {
    forall i, k :: 0 <= i < m && IsChunk(c, i, k) ==> (i, k) in got
  }

  /** Chunks 0..expChunk-1 of the expected packet stay in the table until that packet is written. */
  predicate Scanned(c: Traffic, s: State)
  {
    && s.expChunk < 65536
    && (s.expChunk > 0 ==> IsChunk(c, s.expPkt, s.expChunk))
    && forall k :: 0 <= k < s.expChunk ==> (s.expPkt, k) in s.pending
  }

  ghost predicate Inv(c: Traffic, got: set<Id>, s: State)
  {
    && s.expPkt <= |c| && s.expPkt <= LAST_PACKET
    && WrittenWhole(c, got, s.expPkt)
    && Sound(c, got, s)
    && Kept(got, s)
    && Scanned(c, s)
  }

  /** Split traffic never makes the flush loop hang. */
  lemma InvLive(c: Traffic, got: set<Id>, s: State)
    requires ValidTraffic(c) && Sound(c, got, s)
    ensures Live(s.pending) && Ends(s)
  {
    forall p: u32
      ensures !Stuck(s.pending, p)
    {
      var last := if p < |c| then |c[p]| - 1 else 0;
      assert !HasMore(s.pending, p, last);
    }
    LiveEnds(s);
  }

  /** The chunks of packet `m` from number `j` on, read off the table in key order. */
  lemma {:induction false} ReadOff(c: Traffic, got: set<Id>, s: State, m: nat, j: nat, last: nat)
    requires ValidTraffic(c) && Sound(c, got, s) && IsChunk(c, m, last) && j <= last
    requires forall k :: 0 <= k <= last ==> (m, k) in s.pending
    ensures RangeConcat(s.pending, (m, j), (m, last)) == Flatten(c[m][j..last + 1])
    decreases last - j
  {
    var chunks := c[m][j..last + 1];
    assert (m, j) in s.pending && s.pending[(m, j)].data == chunks[0];
    if j < last {
      ReadOff(c, got, s, m, j + 1, last);
      assert chunks[1..] == c[m][j + 1..last + 1];
    } else {
      assert chunks[1..] == [];
    }
  }

  lemma BumpKeeps(c: Traffic, got: set<Id>, s: State)
    requires ValidTraffic(c) && Inv(c, got, s) && TakeTurn(s).Bump?
    ensures Inv(c, got, TakeTurn(s).next)
  {
  }

  lemma FlushLast(c: Traffic, got: set<Id>, s: State)
    requires ValidTraffic(c) && Inv(c, got, s) && TakeTurn(s).Flush?
    ensures IsChunk(c, s.expPkt, s.expChunk) && s.expPkt < LAST_PACKET
    ensures s.expChunk + 1 == |c[s.expPkt]|
    ensures forall k :: 0 <= k <= s.expChunk ==> (s.expPkt, k) in s.pending
    ensures TakeTurn(s).packet == RangeConcat(s.pending, (s.expPkt, 0), (s.expPkt, s.expChunk))
  {
    assert Key(s.expPkt, s.expChunk) == (s.expPkt, s.expChunk);
  }

  /** A flush writes exactly the expected packet. */
  lemma FlushWrites(c: Traffic, got: set<Id>, s: State)
    requires ValidTraffic(c) && Inv(c, got, s) && TakeTurn(s).Flush?
    ensures IsChunk(c, s.expPkt, s.expChunk) && s.expPkt < LAST_PACKET
    ensures s.expChunk + 1 == |c[s.expPkt]|
    ensures TakeTurn(s).packet == Packets(c)[s.expPkt]
  {
    FlushLast(c, got, s);
    hide RangeConcat, TakeTurn, Scanned, Kept, WrittenWhole;
    ReadOff(c, got, s, s.expPkt, 0, s.expChunk);
    assert c[s.expPkt][0..s.expChunk + 1] == c[s.expPkt];
  }

  lemma FlushWhole(c: Traffic, got: set<Id>, s: State)
    requires ValidTraffic(c) && Inv(c, got, s) && TakeTurn(s).Flush?
    ensures s.expPkt < |c| && WrittenWhole(c, got, s.expPkt + 1)
  {
    hide TakeTurn, RangeConcat, Kept, Scanned, ValidTraffic, SlotOf;
    FlushLast(c, got, s);
    forall i, k | 0 <= i < s.expPkt + 1 && IsChunk(c, i, k)
      ensures (i, k) in got
    {
      if i == s.expPkt {
        assert (s.expPkt, k) in s.pending;
      }
    }
  }

  lemma FlushTable(c: Traffic, got: set<Id>, s: State)
    requires ValidTraffic(c) && ValidIds(c, got) && Inv(c, got, s) && TakeTurn(s).Flush?
    ensures Sound(c, got, TakeTurn(s).next) && Kept(got, TakeTurn(s).next)
  {
    FlushWrites(c, got, s);
    var next := TakeTurn(s).next;
    assert next.expPkt == s.expPkt + 1;
  }

  lemma FlushKeeps(c: Traffic, got: set<Id>, s: State)
    requires ValidTraffic(c) && ValidIds(c, got) && Inv(c, got, s) && TakeTurn(s).Flush?
    ensures Inv(c, got, TakeTurn(s).next) && TakeTurn(s).next.expPkt == s.expPkt + 1 <= |c|
    ensures TakeTurn(s).packet == Packets(c)[s.expPkt]
  {
    FlushWrites(c, got, s);
    FlushWhole(c, got, s);
    FlushTable(c, got, s);
  }

  lemma SliceJoin(p: seq<Bytestring>, i: nat, j: nat, k: nat)
    requires i <= j <= k <= |p|
    ensures p[i..j] + p[j..k] == p[i..k]
    ensures j == i + 1 ==> [p[i]] + p[j..k] == p[i..k]
  {
    if j == i + 1 {
      assert p[i..j] == [p[i]];
    }
  }

  /** The flush loop keeps the invariant and writes exactly the packets it moves past. */
  lemma {:induction false} DrainKeeps(c: Traffic, got: set<Id>, s: State)
    requires ValidTraffic(c) && ValidIds(c, got) && Inv(c, got, s)
    ensures Ends(s)
    ensures var (t, out) := Drain(s);
            && Inv(c, got, t) && TakeTurn(t).Done? && s.expPkt <= t.expPkt
            && out == Packets(c)[s.expPkt..t.expPkt]
    decreases |s.pending|, Gap(s.pending, s.expPkt, s.expChunk, TWO_32)
  {
    InvLive(c, got, s);
    TurnShrinks(s);
    match TakeTurn(s)
    case Done =>
    case Bump(next) =>
      BumpKeeps(c, got, s);
      DrainKeeps(c, got, next);
    case Flush(next, packet) =>
      FlushKeeps(c, got, s);
      DrainKeeps(c, got, next);
      var t := Drain(next).0;
      SliceJoin(Packets(c), s.expPkt, next.expPkt, t.expPkt);
  }

  // ----- One delivery -----

  /** Filing a chunk that arrives in the window, or dropping it, keeps the invariant. */
  lemma AcceptedIff(c: Traffic, s: State, i: nat, k: nat)
    requires ValidTraffic(c) && IsChunk(c, i, k) && InWindow(s.expPkt, i)
    ensures Accepted(s, Msg(c, i, k)) <==> s.expPkt <= i < LAST_PACKET
    ensures s.expPkt <= i < LAST_PACKET ==>
              File(s, Msg(c, i, k)) == s.(pending := s.pending[(i, k) := SlotOf(c, i, k)])
  {
    ChunkBytesRead(i, k + 1 < |c[i]|, k, c[i][k]);
    ExpandExact(s.expPkt, i);
  }

  lemma FileKeeps(c: Traffic, got: set<Id>, s: State, i: nat, k: nat)
    requires ValidTraffic(c) && Inv(c, got, s) && IsChunk(c, i, k) && s.expPkt <= i < LAST_PACKET
    ensures Inv(c, got + {(i, k)}, s.(pending := s.pending[(i, k) := SlotOf(c, i, k)]))
  {
  }

  lemma DropKeeps(c: Traffic, got: set<Id>, s: State, i: nat, k: nat)
    requires ValidTraffic(c) && Inv(c, got, s) && IsChunk(c, i, k) && !(s.expPkt <= i < LAST_PACKET)
    ensures Inv(c, got + {(i, k)}, s)
  {
  }

  lemma ReceiveKeeps(c: Traffic, got: set<Id>, s: State, i: nat, k: nat)
    requires ValidTraffic(c) && ValidIds(c, got) && Inv(c, got, s) && TakeTurn(s).Done?
    requires IsChunk(c, i, k) && InWindow(s.expPkt, i)
    ensures var (t, out) := Receive(s, Msg(c, i, k));
            && Inv(c, got + {(i, k)}, t) && TakeTurn(t).Done? && s.expPkt <= t.expPkt
            && out == Packets(c)[s.expPkt..t.expPkt]
    ensures Accepted(s, Msg(c, i, k)) ==> Ends(File(s, Msg(c, i, k)))
  {
    AcceptedIff(c, s, i, k);
    if s.expPkt <= i < LAST_PACKET {
      FileKeeps(c, got, s, i, k);
      DrainKeeps(c, got + {(i, k)}, File(s, Msg(c, i, k)));
    } else {
      DropKeeps(c, got, s, i, k);
    }
  }

  // ----- The main theorem -----

  /** Packets 0..m-1 arrived completely, and `m` is where that stops (or where packet numbers end). */
  ghost predicate Leading(c: Traffic, got: set<Id>, m: nat)
  {
    && m <= |c| && m <= LAST_PACKET
    && WrittenWhole(c, got, m)
    && (m < |c| && m < LAST_PACKET ==> exists k :: IsChunk(c, m, k) && (m, k) !in got)
  }

  lemma InvLeading(c: Traffic, got: set<Id>, s: State)
    requires ValidTraffic(c) && Inv(c, got, s) && TakeTurn(s).Done?
    ensures Leading(c, got, s.expPkt)
  {
    if s.expPkt < |c| && s.expPkt < LAST_PACKET {
      assert IsChunk(c, s.expPkt, s.expChunk);
      assert (s.expPkt, s.expChunk) !in got;
    }
  }

  lemma IdsLast(ds: Deliveries)
    requires ds != []
    ensures Ids(ds) == Ids(ds[..|ds| - 1]) + {ds[|ds| - 1]}
    ensures forall d :: d in ds <==> d in ds[..|ds| - 1] || d == ds[|ds| - 1]
  {
    assert ds == ds[..|ds| - 1] + [ds[|ds| - 1]];
  }

  lemma {:induction false} RunInv(c: Traffic, ds: Deliveries)
    requires ValidTraffic(c) && Windowed(c, ds)
    ensures forall d :: d in ds ==> IsChunk(c, d.0, d.1)
    ensures var (s, out) := Run(c, ds);
            Inv(c, Ids(ds), s) && TakeTurn(s).Done? && out == Packets(c)[..s.expPkt]
    decreases |ds|
  {
    if ds != [] {
      var n := |ds| - 1;
      RunInv(c, ds[..n]);
      var (i, k) := ds[n];
      var s := Run(c, ds[..n]).0;
      IdsLast(ds);
      ReceiveKeeps(c, Ids(ds[..n]), s, i, k);
      var (t, more) := Receive(s, Msg(c, i, k));
      SliceJoin(Packets(c), 0, s.expPkt, t.expPkt);
    }
  }

  /** On split traffic every call of `process_merge` ends. */
  lemma MergeEnds(c: Traffic, ds: Deliveries, i: nat, k: nat)
    requires ValidTraffic(c) && Windowed(c, ds) && IsChunk(c, i, k)
    requires forall d :: d in ds ==> IsChunk(c, d.0, d.1)
    requires InWindow(Run(c, ds).0.expPkt, i)
    ensures var s := Run(c, ds).0;
            Accepted(s, Msg(c, i, k)) ==> exists n: nat :: Turns(File(s, Msg(c, i, k)), n).Stopped?
  {
    RunInv(c, ds);
    var s := Run(c, ds).0;
    ReceiveKeeps(c, Ids(ds), s, i, k);
    if Accepted(s, Msg(c, i, k)) {
      var n := DrainHalts(File(s, Msg(c, i, k)));
    }
  }

  /** For all packets, all ways of cutting them into chunks and all delivery orders within the window,
      duplicates and losses included: the output is exactly the longest prefix of the packets all of
      whose chunks have arrived, up to packet number LAST_PACKET. */
  lemma MergeExact(c: Traffic, ds: Deliveries)
    requires ValidTraffic(c) && Windowed(c, ds)
    ensures forall d :: d in ds ==> IsChunk(c, d.0, d.1)
    ensures exists m: nat :: Leading(c, Ids(ds), m) && Run(c, ds).1 == Packets(c)[..m]
  {
    RunInv(c, ds);
    InvLeading(c, Ids(ds), Run(c, ds).0);
  }

  /** Completeness: once all chunks of the first `n` packets have arrived, those packets are written. */
  lemma MergeComplete(c: Traffic, ds: Deliveries, n: nat)
    requires ValidTraffic(c) && Windowed(c, ds) && n <= |c| && n <= LAST_PACKET
    requires forall i, k :: 0 <= i < n && IsChunk(c, i, k) ==> (i, k) in ds
    ensures forall d :: d in ds ==> IsChunk(c, d.0, d.1)
    ensures Packets(c)[..n] <= Run(c, ds).1
  {
    RunInv(c, ds);
    var s := Run(c, ds).0;
    InvLeading(c, Ids(ds), s);
  }
}
