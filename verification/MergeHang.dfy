/** When `process_merge` of modules/split/split.cpp does not return: the condition read off the table, and a
    sequence of chunks that gets there. */
module MergeHang {
  import opened Bytes
  import opened SplitHeader
  import opened Merge
  import opened SplitMerge

  // ----- The condition read off one table -----

  /** Packet `q` is complete when searched from chunk `from`: chunks that announce a successor, then one that
      does not. */
  ghost predicate Whole(pending: Table, q: u32, from: nat)
  {
    exists c: nat :: WholeTo(pending, q, from, c)
  }

  ghost predicate WholeTo(pending: Table, q: u32, from: nat, c: nat)
  {
    && from <= c < 65536
    && (forall j: nat :: from <= j < c ==> HasMore(pending, q, j))
    && (q, c) in pending && !pending[(q, c)].more
  }

  /** Some 16-bit chunk number from `from` on has no chunk with a successor. */
  ghost predicate Open(pending: Table, q: u32, from: nat)
  {
    exists c: nat :: from <= c < 65536 && !HasMore(pending, q, c)
  }

  /** Every packet is stuck or open: none of them runs over into the keys of another packet. */
  ghost predicate Plain(s: State)
  {
    && s.expChunk < 65536
    && forall q: u32 :: Stuck(s.pending, q) || Open(s.pending, q, if q == s.expPkt then s.expChunk else 0)
  }

  function Nth(s: State, j: nat): u32
  {
    (s.expPkt + j) % TWO_32
  }

  /** The `k` packets from the expected one on are complete in the table, and the next one is stuck. */
  ghost predicate StuckAfter(s: State, k: nat)
  {
    && (forall j: nat :: j < k ==> Whole(s.pending, Nth(s, j), if j == 0 then s.expChunk else 0))
    && Stuck(s.pending, Nth(s, k))
  }

  lemma WholeNotStuck(pending: Table, q: u32, from: nat)
    requires Whole(pending, q, from)
    ensures !Stuck(pending, q) && Open(pending, q, from)
  {
    var c: nat :| WholeTo(pending, q, from, c);
    var c32: u32 := c;
    assert !HasMore(pending, q, c32);
  }

  /** The search stops at the first chunk number without a successor. */
  lemma {:induction false} EndAt(s: State, c: nat)
    requires s.expChunk <= c < 65536 && !Stuck(s.pending, s.expPkt)
    requires !HasMore(s.pending, s.expPkt, c)
    requires forall j: nat :: s.expChunk <= j < c ==> HasMore(s.pending, s.expPkt, j)
    ensures AtEnd(s) == s.(expChunk := c)
    decreases c - s.expChunk
  {
    if s.expChunk < c {
      assert HasMore(s.pending, s.expPkt, s.expChunk);
      assert TakeTurn(s) == Bump(s.(expChunk := s.expChunk + 1));
      EndAt(s.(expChunk := s.expChunk + 1), c);
    }
  }

  lemma {:induction false} FirstOpen(pending: Table, q: u32, from: nat, c: nat) returns (d: nat)
    requires from <= c < 65536 && !HasMore(pending, q, c)
    ensures from <= d <= c && !HasMore(pending, q, d) && forall j: nat :: from <= j < d ==> HasMore(pending, q, j)
    decreases c - from
  {
    if !HasMore(pending, q, from) {
      d := from;
    } else {
      d := FirstOpen(pending, q, from + 1, c);
    }
  }

  /** A packet that is not stuck is flushed if and only if it is complete. */
  lemma FlushIffWhole(s: State)
    requires Plain(s)
    ensures Whole(s.pending, s.expPkt, s.expChunk) <==> !Stuck(s.pending, s.expPkt) && TakeTurn(AtEnd(s)).Flush?
  {
    if Whole(s.pending, s.expPkt, s.expChunk) {
      WholeNotStuck(s.pending, s.expPkt, s.expChunk);
      var c: nat :| WholeTo(s.pending, s.expPkt, s.expChunk, c);
      EndAt(s, c);
    } else if !Stuck(s.pending, s.expPkt) {
      assert Open(s.pending, s.expPkt, s.expChunk);
      var c: nat :| s.expChunk <= c < 65536 && !HasMore(s.pending, s.expPkt, c);
      var d := FirstOpen(s.pending, s.expPkt, s.expChunk, c);
      EndAt(s, d);
      assert !WholeTo(s.pending, s.expPkt, s.expChunk, d);
    }
  }

  // ----- One packet flushed -----

  lemma FlushedTable(s: State, c: nat)
    requires WholeTo(s.pending, s.expPkt, s.expChunk, c) && !Stuck(s.pending, s.expPkt)
    ensures TakeTurn(AtEnd(s)).Flush?
    ensures TakeTurn(AtEnd(s)).next ==
            State(DropRange(s.pending, (s.expPkt, 0), (s.expPkt, c)), (s.expPkt + 1) % TWO_32, 0)
  {
    EndAt(s, c);
    hide DropRange, RangeConcat;
  }

  lemma RunsIntoEnd(pending: Table, p: u32, c: nat, q: u32, d: u32)
    requires c < 65536 && (p, c) in pending && !pending[(p, c)].more && Key(q, d).0 == p
    ensures !Stuck(pending, q)
  {
    var e: u32 := d / 65536 * 65536 + c;
    assert e / 65536 == d / 65536 && e % 65536 == c;
    assert Key(q, e) == (p, c);
    assert !HasMore(pending, q, e);
  }

  /** Other packets do not notice that a complete one is taken out of the table. */
  lemma OtherStuck(pending: Table, p: u32, c: nat, q: u32)
    requires c < 65536 && (p, c) in pending && !pending[(p, c)].more && q != p
    ensures Stuck(DropRange(pending, (p, 0), (p, c)), q) <==> Stuck(pending, q)
  {
    var rest := DropRange(pending, (p, 0), (p, c));
    if Stuck(pending, q) {
      forall d: u32
        ensures HasMore(rest, q, d)
      {
        assert HasMore(pending, q, d);
        if Key(q, d).0 == p {
          RunsIntoEnd(pending, p, c, q, d);
          assert false;
        }
      }
    }
    if Stuck(rest, q) {
      forall d: u32
        ensures HasMore(pending, q, d)
      {
        assert HasMore(rest, q, d);
      }
    }
  }

  lemma OtherSame(pending: Table, p: u32, c: nat, q: u32, d: nat)
    requires d < 65536 && q != p
    ensures HasMore(DropRange(pending, (p, 0), (p, c)), q, d) == HasMore(pending, q, d)
    ensures (q, d) in DropRange(pending, (p, 0), (p, c)) <==> (q, d) in pending
    ensures (q, d) in pending ==> DropRange(pending, (p, 0), (p, c))[(q, d)] == pending[(q, d)]
  {
  }

  lemma OtherWhole(pending: Table, p: u32, c: nat, q: u32)
    requires q != p
    ensures Whole(DropRange(pending, (p, 0), (p, c)), q, 0) <==> Whole(pending, q, 0)
    ensures Open(DropRange(pending, (p, 0), (p, c)), q, 0) <==> Open(pending, q, 0)
  {
    var rest := DropRange(pending, (p, 0), (p, c));
    forall d: nat | d < 65536
      ensures HasMore(rest, q, d) == HasMore(pending, q, d)
      ensures (q, d) in rest <==> (q, d) in pending
      ensures (q, d) in pending ==> rest[(q, d)] == pending[(q, d)]
    {
      OtherSame(pending, p, c, q, d);
    }
    hide DropRange, HasMore;
    forall d: nat
      ensures WholeTo(rest, q, 0, d) <==> WholeTo(pending, q, 0, d)
    {
    }
  }

  lemma OwnGone(pending: Table, p: u32, c: nat)
    ensures !Stuck(DropRange(pending, (p, 0), (p, c)), p) && Open(DropRange(pending, (p, 0), (p, c)), p, 0)
    ensures !Whole(DropRange(pending, (p, 0), (p, c)), p, 0)
  {
    var rest := DropRange(pending, (p, 0), (p, c));
    assert (p, 0) !in rest;
    var zero: u32 := 0;
    assert !HasMore(rest, p, zero);
  }

  lemma PlainNext(s: State, c: nat)
    requires Plain(s) && WholeTo(s.pending, s.expPkt, s.expChunk, c)
    ensures Plain(State(DropRange(s.pending, (s.expPkt, 0), (s.expPkt, c)), (s.expPkt + 1) % TWO_32, 0))
  {
    var rest := DropRange(s.pending, (s.expPkt, 0), (s.expPkt, c));
    forall q: u32
      ensures Stuck(rest, q) || Open(rest, q, 0)
    {
      if q == s.expPkt {
        OwnGone(s.pending, q, c);
      } else {
        OtherStuck(s.pending, s.expPkt, c, q);
        OtherWhole(s.pending, s.expPkt, c, q);
      }
    }
  }

  /** Complete packets and a stuck one fit into one round of the packet numbers. */
  lemma StuckWithin(s: State, k: nat)
    requires StuckAfter(s, k)
    ensures k < TWO_32
  {
    if k >= TWO_32 {
      var j: nat := k % TWO_32;
      assert (s.expPkt + k) % TWO_32 == (s.expPkt + j) % TWO_32;
      assert Whole(s.pending, Nth(s, j), if j == 0 then s.expChunk else 0);
      WholeNotStuck(s.pending, Nth(s, j), if j == 0 then s.expChunk else 0);
      assert false;
    }
  }

  lemma NthNext(s: State, t: State, j: nat)
    requires t.expPkt == (s.expPkt + 1) % TWO_32
    ensures Nth(t, j) == Nth(s, j + 1)
    ensures j < TWO_32 - 1 ==> Nth(t, j) != s.expPkt
  {
  }

  /** One complete packet less in front of the stuck one. */
  lemma StuckAfterNext(s: State, c: nat, k: nat)
    requires WholeTo(s.pending, s.expPkt, s.expChunk, c)
    ensures var t := State(DropRange(s.pending, (s.expPkt, 0), (s.expPkt, c)), (s.expPkt + 1) % TWO_32, 0);
            StuckAfter(t, k) <==> StuckAfter(s, k + 1)
  {
    var t := State(DropRange(s.pending, (s.expPkt, 0), (s.expPkt, c)), (s.expPkt + 1) % TWO_32, 0);
    hide Stuck, DropRange, WholeTo, Nth;
    if StuckAfter(t, k) {
      StuckFromNext(s, t, c, k);
    }
    if StuckAfter(s, k + 1) {
      StuckToNext(s, t, c, k);
    }
  }

  lemma StuckFromNext(s: State, t: State, c: nat, k: nat)
    requires WholeTo(s.pending, s.expPkt, s.expChunk, c)
    requires t == State(DropRange(s.pending, (s.expPkt, 0), (s.expPkt, c)), (s.expPkt + 1) % TWO_32, 0)
    requires StuckAfter(t, k)
    ensures StuckAfter(s, k + 1)
  {
    StuckWithin(t, k);
    assert Nth(s, 0) == s.expPkt;
    assert (s.expPkt, c) in s.pending && !s.pending[(s.expPkt, c)].more && c < 65536;
    assert Whole(s.pending, s.expPkt, s.expChunk);
    hide Stuck, DropRange, WholeTo, Whole, Nth;
    forall j: nat | j < k + 1
      ensures Whole(s.pending, Nth(s, j), if j == 0 then s.expChunk else 0)
    {
      if j > 0 {
        NthNext(s, t, j - 1);
        OtherWhole(s.pending, s.expPkt, c, Nth(s, j));
      }
    }
    NthNext(s, t, k);
    if Nth(s, k + 1) == s.expPkt {
      OwnGone(s.pending, s.expPkt, c);
    } else {
      OtherStuck(s.pending, s.expPkt, c, Nth(s, k + 1));
    }
  }

  lemma StuckToNext(s: State, t: State, c: nat, k: nat)
    requires WholeTo(s.pending, s.expPkt, s.expChunk, c)
    requires t == State(DropRange(s.pending, (s.expPkt, 0), (s.expPkt, c)), (s.expPkt + 1) % TWO_32, 0)
    requires StuckAfter(s, k + 1)
    ensures StuckAfter(t, k)
  {
    StuckWithin(s, k + 1);
    assert (s.expPkt, c) in s.pending && !s.pending[(s.expPkt, c)].more && c < 65536;
    hide Stuck, DropRange, WholeTo, Whole, Nth;
    forall j: nat | j < k
      ensures Whole(t.pending, Nth(t, j), 0)
    {
      NthNext(s, t, j);
      assert Whole(s.pending, Nth(s, j + 1), 0);
      OtherWhole(s.pending, s.expPkt, c, Nth(s, j + 1));
    }
    NthNext(s, t, k);
    OtherStuck(s.pending, s.expPkt, c, Nth(s, k + 1));
  }

  lemma {:induction false} HangsIffStuckAfter(s: State, k: nat)
    requires Plain(s)
    ensures Hangs(s, k) <==> StuckAfter(s, k)
    decreases k
  {
    FlushIffWhole(s);
    assert Nth(s, 0) == s.expPkt;
    if k > 0 {
      if Whole(s.pending, s.expPkt, s.expChunk) {
        var c: nat :| WholeTo(s.pending, s.expPkt, s.expChunk, c);
        hide Stuck, DropRange, WholeTo, Nth, Plain, TakeTurn;
        FlushedTable(s, c);
        PlainNext(s, c);
        var t := TakeTurn(AtEnd(s)).next;
        StuckAfterNext(s, c, k - 1);
        HangsIffStuckAfter(t, k - 1);
      }
    }
  }

  /** Read off the table as it is: `process_merge` returns if and only if there is no packet, the expected one
      or a later one, that is stuck while all packets from the expected one up to it are complete. */
  lemma ReturnsIff(s: State)
    requires Plain(s)
    ensures (exists n: nat :: Turns(s, n).Stopped?) <==> !(exists k: nat :: StuckAfter(s, k))
  {
    LoopEndsIff(s);
    hide StuckAfter, Hangs, Turns, Plain;
    forall k: nat
      ensures Hangs(s, k) <==> StuckAfter(s, k)
    {
      HangsIffStuckAfter(s, k);
    }
  }

  // ----- A sequence of chunks that gets there -----

  /** The state after the chunks `ds`, if every call up to there returned. */
  ghost function ReceiveAll(s: State, ds: seq<Bytestring>): State
    decreases |ds|
  {
    if ds == [] then s
    else
      var n := |ds| - 1;
      Receive(ReceiveAll(s, ds[..n]), ds[n]).0
  }

  /** All these calls return. */
  ghost predicate AllReturn(s: State, ds: seq<Bytestring>)
    decreases |ds|
  {
    ds == [] ||
    var n := |ds| - 1;
    var t := ReceiveAll(s, ds[..n]);
    AllReturn(s, ds[..n]) && (Accepted(t, ds[n]) ==> Ends(File(t, ds[n])))
  }

  /** A packet of one chunk, and a chunk that announces a successor. */
  function Small(pkt: nat): Bytestring
  {
    ChunkBytes(pkt, false, 0, [0])
  }

  function More(pkt: nat, chunk: u16): Bytestring
  {
    ChunkBytes(pkt, true, chunk, [0])
  }

  /** Chunks 0..n-1 of packet `pkt`, all announcing a successor. */
  function Chunks(pkt: nat, n: nat): Table
  {
    map k: nat | k < n :: (pkt, k) := Slot([0], true)
  }

  lemma FileChunk(s: State, more: bool, chunk: u16)
    requires s.expPkt < LAST_PACKET
    ensures var d := ChunkBytes(s.expPkt, more, chunk, [0]);
            Accepted(s, d) && File(s, d) == s.(pending := s.pending[(s.expPkt, chunk) := Slot([0], more)])
  {
    ChunkBytesRead(s.expPkt, more, chunk, [0]);
    ExpandExact(s.expPkt, s.expPkt);
    hide ChunkBytes, Expand;
  }

  /** The chunk is accepted, and the call returns with the state `t`. */
  ghost predicate Goes(s: State, d: Bytestring, t: State)
  {
    Accepted(s, d) && Ends(File(s, d)) && Receive(s, d).0 == t
  }

  lemma SmallStep(m: nat)
    requires m < 65535
    ensures Goes(State(map[], m, 0), Small(m), State(map[], m + 1, 0))
  {
    hide ChunkBytes, Expand, Ends, TakeTurn, Drain, Live, Accepted, File;
    var s := State(map[], m, 0);
    FileChunk(s, false, 0);
    var f := State(map[(m, 0) := Slot([0], false)], m, 0);
    SmallLive(m);
    LiveEnds(f);
    SmallTurn(m);
    DrainStep(f);
    DrainStep(State(map[], m + 1, 0));
  }

  lemma SmallLive(m: nat)
    ensures Live(map[(m, 0) := Slot([0], false)])
  {
    forall p: u32
      ensures !Stuck(map[(m, 0) := Slot([0], false)], p)
    {
      var zero: u32 := 0;
      assert !HasMore(map[(m, 0) := Slot([0], false)], p, zero);
    }
  }

  lemma SmallTurn(m: nat)
    requires m < 65535
    ensures var t := TakeTurn(State(map[(m, 0) := Slot([0], false)], m, 0));
            t.Flush? && t.next == State(map[], m + 1, 0)
    ensures TakeTurn(State(map[], m + 1, 0)).Done?
  {
    assert DropRange(map[(m, 0) := Slot([0], false)], (m, 0), (m, 0)) == map[];
  }

  lemma MoreStep(p: u32, k: nat)
    requires k < 65535 && p < LAST_PACKET
    ensures Goes(State(Chunks(p, k), p, k), More(p, k), State(Chunks(p, k + 1), p, k + 1))
  {
    hide ChunkBytes, Expand, Chunks, Ends, TakeTurn, Drain, Live, Accepted, File;
    var s := State(Chunks(p, k), p, k);
    FileChunk(s, true, k);
    ChunksMore(p, k);
    var f := State(Chunks(p, k + 1), p, k);
    ChunksLive(p, k + 1);
    LiveEnds(f);
    ChunksTurn(p, k);
    DrainStep(f);
    DrainStep(State(Chunks(p, k + 1), p, k + 1));
  }

  lemma ChunksMore(p: u32, k: nat)
    ensures Chunks(p, k)[(p, k) := Slot([0], true)] == Chunks(p, k + 1)
  {
  }

  lemma ChunksLive(p: u32, n: nat)
    requires n <= 65535
    ensures Live(Chunks(p, n))
  {
    forall q: u32
      ensures !Stuck(Chunks(p, n), q)
    {
      var last: u32 := 65535;
      assert !HasMore(Chunks(p, n), q, last);
    }
  }

  lemma ChunksTurn(p: u32, k: nat)
    requires k < 65535
    ensures TakeTurn(State(Chunks(p, k + 1), p, k)) == Bump(State(Chunks(p, k + 1), p, k + 1))
    ensures TakeTurn(State(Chunks(p, k + 1), p, k + 1)).Done?
  {
  }

  lemma OneMore(s: State, ds: seq<Bytestring>, d: Bytestring)
    requires AllReturn(s, ds) && (Accepted(ReceiveAll(s, ds), d) ==> Ends(File(ReceiveAll(s, ds), d)))
    ensures AllReturn(s, ds + [d]) && ReceiveAll(s, ds + [d]) == Receive(ReceiveAll(s, ds), d).0
  {
    assert (ds + [d])[..|ds|] == ds;
    hide Accepted, File, Ends, Receive;
  }

  lemma {:induction false} SmallRun(m: nat) returns (ds: seq<Bytestring>)
    requires m <= 65535
    ensures AllReturn(INIT, ds) && ReceiveAll(INIT, ds) == State(map[], m, 0)
  {
    if m == 0 {
      ds := [];
    } else {
      hide AllReturn, ReceiveAll, Accepted, File, Ends, Receive, Small;
      ds := SmallRun(m - 1);
      SmallStep(m - 1);
      OneMore(INIT, ds, Small(m - 1));
      ds := ds + [Small(m - 1)];
    }
  }

  lemma {:induction false} MoreRun(k: nat) returns (ds: seq<Bytestring>)
    requires k <= 65535
    ensures AllReturn(INIT, ds) && ReceiveAll(INIT, ds) == State(Chunks(65535, k), 65535, k)
  {
    if k == 0 {
      ds := SmallRun(65535);
      assert Chunks(65535, 0) == map[];
    } else {
      hide AllReturn, ReceiveAll, Accepted, File, Ends, Receive, More, Chunks;
      ds := MoreRun(k - 1);
      MoreStep(65535, k - 1);
      OneMore(INIT, ds, More(65535, k - 1));
      ds := ds + [More(65535, k - 1)];
    }
  }

  /** Chunks that make `process_merge` hang: 65535 packets of one chunk, then 65536 chunks of the next packet
      that all announce a successor. Every call but the last one returns, and the last one never does. */
  lemma HangReached() returns (ds: seq<Bytestring>, d: Bytestring)
    ensures AllReturn(INIT, ds) && Accepted(ReceiveAll(INIT, ds), d)
    ensures forall n: nat :: Turns(File(ReceiveAll(INIT, ds), d), n).At?
  {
    ds := MoreRun(65535);
    d := More(65535, 65535);
    var s := State(Chunks(65535, 65535), 65535, 65535);
    FileChunk(s, true, 65535);
    LastChunk(s, File(s, d));
  }

  lemma LastChunk(s: State, f: State)
    requires s == State(Chunks(65535, 65535), 65535, 65535)
    requires f == s.(pending := s.pending[(65535, 65535) := Slot([0], true)])
    ensures forall n: nat :: Turns(f, n).At?
  {
    forall c: nat | c < 65536
      ensures HasMore(f.pending, 65535, c)
    {
    }
    FullPacketStuck(f.pending, 65535);
    hide Chunks, HasMore, Stuck, Turns;
    forall n: nat
      ensures Turns(f, n).At?
    {
      HangsRunsOn(f, 0, n);
    }
  }
}
