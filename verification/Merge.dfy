/** `process_merge` of modules/split/split.cpp: the reorder table and the flush loop. */
module Merge {
  import opened Bytes
  import opened SplitHeader

  datatype Slot = Slot(data: Bytestring, more: bool)

  /** A key of the `pending` table, the number `(pkt << 16) | chunk`, as its high part and its low 16 bits. */
  type Id = (nat, nat)

  type Table = map<Id, Slot>

  /** The merge half of `SplitContext`. */
  datatype State = State(pending: Table, expPkt: u32, expChunk: u32)

  const INIT := State(map[], 0, 0)

  /** Bitwise or. */
  function Or(a: nat, b: nat): nat
  {
    if b == 0 then a
    else 2 * Or(a / 2, b / 2) + (if a % 2 == 1 || b % 2 == 1 then 1 else 0)
  }

  /** `(pkt << 16) | chunk`; a chunk number of more than 16 bits runs into the packet number. */
  function Key(pkt: nat, chunk: nat): (id: Id)
    ensures chunk < 65536 ==> id == (pkt, chunk)
  {
    (Or(pkt, chunk / 65536), chunk % 65536)
  }

  /** Numeric order of keys. */
  predicate Le(a: Id, b: Id)
  {
    a.0 < b.0 || (a.0 == b.0 && a.1 <= b.1)
  }

  function Next(a: Id): Id
  {
    if a.1 >= 65535 then (a.0 + 1, 0) else (a.0, a.1 + 1)
  }

  predicate HasMore(pending: Table, pkt: nat, chunk: nat)
  {
    Key(pkt, chunk) in pending && pending[Key(pkt, chunk)].more
  }

  /** The entries with keys lo..hi in key order, concatenated. */
  function RangeConcat(pending: Table, lo: Id, hi: Id): Bytestring
    requires lo.1 < 65536
    decreases if lo.0 <= hi.0 then hi.0 + 1 - lo.0 else 0, 65536 - lo.1
  {
    if !Le(lo, hi) then []
    else (if lo in pending then pending[lo].data else []) + RangeConcat(pending, Next(lo), hi)
  }

  /** `k` is one of the keys lo..hi. */
  predicate Within(lo: Id, k: Id, hi: Id)
  {
    Le(lo, k) && Le(k, hi) && k.1 < 65536
  }

  function DropRange(pending: Table, lo: Id, hi: Id): Table
  {
    map k | k in pending && !Within(lo, k, hi) :: pending[k]
  }

  /** One turn of the flush loop. */
  datatype Turn = Done | Bump(next: State) | Flush(next: State, packet: Bytestring)

  function TakeTurn(s: State): Turn
  {
    var key := Key(s.expPkt, s.expChunk);
    if key !in s.pending then Done
    else if s.pending[key].more then Bump(s.(expChunk := (s.expChunk + 1) % TWO_32))
    else
      var start := (s.expPkt, 0);
      Flush(State(DropRange(s.pending, start, key), (s.expPkt + 1) % TWO_32, 0), RangeConcat(s.pending, start, key))
  }

  // ----- Termination of the flush loop -----

  /** Every chunk number the loop can try for `pkt` is present and announces a successor. */
  ghost predicate Stuck(pending: Table, pkt: nat)
  {
    forall c: u32 :: HasMore(pending, pkt, c)
  }

  ghost predicate Live(pending: Table)
  {
    forall p: u32 :: !Stuck(pending, p)
  }

  /** How many chunk numbers from `c` on, `n` at most, announce a successor. */
  function Gap(pending: Table, pkt: nat, c: u32, n: nat): nat
    decreases n
  {
    if n == 0 || !HasMore(pending, pkt, c) then 0
    else 1 + Gap(pending, pkt, (c + 1) % TWO_32, n - 1)
  }

  lemma {:induction false} GapStable(pending: Table, pkt: nat, c: u32, n: nat, d: nat)
    requires d < n && !HasMore(pending, pkt, (c + d) % TWO_32)
    ensures Gap(pending, pkt, c, n) == Gap(pending, pkt, c, n + 1)
    decreases n
  {
    if HasMore(pending, pkt, c) {
      assert c % TWO_32 == c;
      assert ((c + 1) % TWO_32 + (d - 1)) % TWO_32 == (c + d) % TWO_32;
      GapStable(pending, pkt, (c + 1) % TWO_32, n - 1, d - 1);
    }
  }

  lemma GapDrops(pending: Table, pkt: nat, c: u32)
    requires HasMore(pending, pkt, c) && !Stuck(pending, pkt)
    ensures Gap(pending, pkt, (c + 1) % TWO_32, TWO_32) < Gap(pending, pkt, c, TWO_32)
  {
    var c0: u32 :| !HasMore(pending, pkt, c0);
    var next: u32 := (c + 1) % TWO_32;
    var d := if c0 > c then c0 - c - 1 else c0 + TWO_32 - c - 1;
    assert (next + d) % TWO_32 == c0 && 0 <= d < TWO_32 - 1 by {
      assert c0 != c;
      assert next == if c + 1 == TWO_32 then 0 else c + 1;
      assert next + d == c0 || next + d == c0 + TWO_32;
    }
    GapStable(pending, pkt, next, TWO_32 - 1, d);
  }

  lemma DropRangeSmaller(pending: Table, lo: Id, hi: Id, k: Id)
    requires Within(lo, k, hi) && k in pending
    ensures |DropRange(pending, lo, hi)| < |pending|
  {
    var rest := DropRange(pending, lo, hi);
    assert rest.Keys <= pending.Keys - {k};
    SubsetSize(rest.Keys, pending.Keys - {k});
  }

  lemma {:induction false} SubsetSize(a: set<Id>, b: set<Id>)
    requires a <= b
    ensures |a| <= |b|
  {
    if x :| x in a {
      SubsetSize(a - {x}, b - {x});
    }
  }

  lemma {:induction false} OrGe(a: nat, b: nat)
    ensures Or(a, b) >= a
  {
    if b != 0 {
      OrGe(a / 2, b / 2);
    }
  }

  lemma FlushShrinks(s: State)
    requires TakeTurn(s).Flush?
    ensures |TakeTurn(s).next.pending| < |s.pending|
  {
    var key := Key(s.expPkt, s.expChunk);
    OrGe(s.expPkt, s.expChunk / 65536);
    DropRangeSmaller(s.pending, (s.expPkt, 0), key, key);
  }

  lemma DropRangeLive(pending: Table, lo: Id, hi: Id)
    requires Live(pending)
    ensures Live(DropRange(pending, lo, hi))
  {
    forall p: u32
      ensures !Stuck(DropRange(pending, lo, hi), p)
    {
      assert !Stuck(pending, p);
      var c: u32 :| !HasMore(pending, p, c);
      assert !HasMore(DropRange(pending, lo, hi), p, c);
    }
  }

  // ----- When the flush loop ends -----

  /** The loop state when the search for the end of the expected packet is over. */
  ghost function AtEnd(s: State): (t: State)
    requires !Stuck(s.pending, s.expPkt)
    ensures t == s.(expChunk := t.expChunk) && !TakeTurn(t).Bump?
    decreases Gap(s.pending, s.expPkt, s.expChunk, TWO_32)
  {
    if TakeTurn(s).Bump? then
      GapDrops(s.pending, s.expPkt, s.expChunk);
      AtEnd(TakeTurn(s).next)
    else s
  }

  /** The next `k` packets are complete, each in the table as the packets before it leave it, and the one
      after them is stuck. */
  ghost predicate Hangs(s: State, k: nat)
    decreases k
  {
    if k == 0 then Stuck(s.pending, s.expPkt)
    else !Stuck(s.pending, s.expPkt) && TakeTurn(AtEnd(s)).Flush? && Hangs(TakeTurn(AtEnd(s)).next, k - 1)
  }

  ghost predicate Ends(s: State)
  {
    forall k: nat :: !Hangs(s, k)
  }

  lemma BumpHangs(s: State, k: nat)
    requires TakeTurn(s).Bump?
    ensures Hangs(TakeTurn(s).next, k) <==> Hangs(s, k)
  {
    var next := TakeTurn(s).next;
    assert next.pending == s.pending && next.expPkt == s.expPkt;
    if !Stuck(s.pending, s.expPkt) {
      assert AtEnd(s) == AtEnd(next);
    }
    hide TakeTurn, Stuck;
  }

  lemma FlushHangs(s: State, k: nat)
    requires TakeTurn(s).Flush?
    ensures Hangs(TakeTurn(s).next, k) <==> Hangs(s, k + 1)
  {
    assert !HasMore(s.pending, s.expPkt, s.expChunk);
    assert !Stuck(s.pending, s.expPkt);
    assert AtEnd(s) == s;
    hide TakeTurn, Stuck;
  }

  /** A turn of a loop that ends leads to a loop that ends. */
  lemma TurnEnds(s: State)
    requires Ends(s)
    ensures !Stuck(s.pending, s.expPkt)
    ensures !TakeTurn(s).Done? ==> Ends(TakeTurn(s).next)
  {
    assert !Hangs(s, 0);
    hide Stuck, TakeTurn;
    if !TakeTurn(s).Done? {
      forall k: nat
        ensures !Hangs(TakeTurn(s).next, k)
      {
        if TakeTurn(s).Bump? {
          BumpHangs(s, k);
        } else {
          FlushHangs(s, k);
        }
      }
    }
  }

  lemma TurnShrinks(s: State)
    requires Ends(s)
    ensures TakeTurn(s).Bump? ==> TakeTurn(s).next.(expChunk := s.expChunk) == s
    ensures TakeTurn(s).Bump? ==>
              Gap(s.pending, s.expPkt, TakeTurn(s).next.expChunk, TWO_32) < Gap(s.pending, s.expPkt, s.expChunk, TWO_32)
    ensures TakeTurn(s).Flush? ==> |TakeTurn(s).next.pending| < |s.pending|
    ensures !TakeTurn(s).Done? ==> Ends(TakeTurn(s).next)
  {
    TurnEnds(s);
    hide Ends;
    if TakeTurn(s).Bump? {
      GapDrops(s.pending, s.expPkt, s.expChunk);
    } else if TakeTurn(s).Flush? {
      FlushShrinks(s);
    }
  }

  /** The whole flush loop: the state it ends in and the packets it writes. */
  ghost function Drain(s: State): (r: (State, seq<Bytestring>))
    requires Ends(s)
    decreases |s.pending|, Gap(s.pending, s.expPkt, s.expChunk, TWO_32)
  {
    TurnShrinks(s);
    match TakeTurn(s)
    case Done => (s, [])
    case Bump(next) => Drain(next)
    case Flush(next, packet) =>
      var (t, out) := Drain(next);
      (t, [packet] + out)
  }

  lemma DrainStep(s: State)
    requires Ends(s)
    ensures !TakeTurn(s).Done? ==> Ends(TakeTurn(s).next)
    ensures TakeTurn(s).Done? ==> Drain(s) == (s, [])
    ensures TakeTurn(s).Bump? ==> Drain(s) == Drain(TakeTurn(s).next)
    ensures TakeTurn(s).Flush? ==>
              && Drain(s).0 == Drain(TakeTurn(s).next).0
              && Drain(s).1 == [TakeTurn(s).packet] + Drain(TakeTurn(s).next).1
  {
    TurnShrinks(s);
    hide TakeTurn, Ends, Gap;
  }

  /** The loop state after `n` turns, if it ran that long. */
  datatype Ran = Stopped | At(state: State)

  function Turns(s: State, n: nat): Ran
    decreases n
  {
    if n == 0 then At(s)
    else match TakeTurn(s)
      case Done => Stopped
      case Bump(next) => Turns(next, n - 1)
      case Flush(next, _) => Turns(next, n - 1)
  }

  lemma {:induction false} DrainHalts(s: State) returns (n: nat)
    requires Ends(s)
    ensures Turns(s, n).Stopped?
    decreases |s.pending|, Gap(s.pending, s.expPkt, s.expChunk, TWO_32)
  {
    hide Gap, Ends, TakeTurn;
    TurnShrinks(s);
    match TakeTurn(s)
    case Done =>
      n := 1;
    case Bump(next) =>
      var m := DrainHalts(next);
      n := m + 1;
    case Flush(next, _) =>
      var m := DrainHalts(next);
      n := m + 1;
  }

  lemma HangsTurn(s: State, k: nat) returns (k': nat)
    requires Hangs(s, k)
    ensures !TakeTurn(s).Done? && Hangs(TakeTurn(s).next, k')
  {
    if k == 0 {
      assert HasMore(s.pending, s.expPkt, s.expChunk);
    }
    hide Stuck;
    if TakeTurn(s).Bump? {
      BumpHangs(s, k);
      k' := k;
    } else {
      assert AtEnd(s) == s;
      FlushHangs(s, k - 1);
      k' := k - 1;
    }
  }

  lemma {:induction false} HangsRunsOn(s: State, k: nat, n: nat)
    requires Hangs(s, k)
    ensures Turns(s, n).At?
    decreases n
  {
    if n > 0 {
      hide Hangs, TakeTurn;
      var k' := HangsTurn(s, k);
      HangsRunsOn(TakeTurn(s).next, k', n - 1);
    }
  }

  /** For every table and every position, the flush loop ends if and only if there is no number of complete
      packets in a row after which the next packet is stuck. */
  lemma LoopEndsIff(s: State)
    ensures (exists n: nat :: Turns(s, n).Stopped?) <==> Ends(s)
  {
    hide Hangs, Turns;
    if Ends(s) {
      var n := DrainHalts(s);
    } else {
      var k: nat :| Hangs(s, k);
      forall n: nat
        ensures Turns(s, n).At?
      {
        HangsRunsOn(s, k, n);
      }
    }
  }

  /** A table in which no packet at all is stuck. */
  lemma {:induction false} LiveNeverHangs(s: State, k: nat)
    requires Live(s.pending)
    ensures !Hangs(s, k)
    decreases k
  {
    assert !Stuck(s.pending, s.expPkt);
    if k > 0 && TakeTurn(AtEnd(s)).Flush? {
      var e := AtEnd(s);
      DropRangeLive(s.pending, (e.expPkt, 0), Key(e.expPkt, e.expChunk));
      assert TakeTurn(e).next.pending == DropRange(s.pending, (e.expPkt, 0), Key(e.expPkt, e.expChunk));
      hide TakeTurn, Live, Stuck, DropRange;
      LiveNeverHangs(TakeTurn(e).next, k - 1);
    }
  }

  lemma LiveEnds(s: State)
    requires Live(s.pending)
    ensures Ends(s)
  {
    hide Hangs, Live;
    forall k: nat
      ensures !Hangs(s, k)
    {
      LiveNeverHangs(s, k);
    }
  }

  function TwoTo(n: nat): (p: nat)
    ensures p >= 1
  {
    if n == 0 then 1 else 2 * TwoTo(n - 1)
  }

  lemma {:induction false} OrOnes(a: nat, q: nat, b: nat, n: nat)
    requires a == q * TwoTo(n) + (TwoTo(n) - 1) && b < TwoTo(n)
    ensures Or(a, b) == a
  {
    if b != 0 {
      var h := TwoTo(n - 1);
      assert q * TwoTo(n) == 2 * (q * h);
      OrOnes(a / 2, q, b / 2, n - 1);
    }
  }

  /** The 65536 chunks of one packet, all with the more bit set, make it stuck when the low 16 bits of its
      number are ones: chunk numbers beyond 16 bits then fall on the same keys again. */
  lemma FullPacketStuck(pending: Table, pkt: u32)
    requires pkt % 65536 == 65535
    requires forall c: nat :: c < 65536 ==> HasMore(pending, pkt, c)
    ensures Stuck(pending, pkt)
  {
    assert TwoTo(16) == 65536 by { assert TwoTo(8) == 256; }
    forall c: u32
      ensures HasMore(pending, pkt, c)
    {
      OrOnes(pkt, pkt / 65536, c / 65536, 16);
      assert Key(pkt, c) == Key(pkt, c % 65536);
      assert HasMore(pending, pkt, c % 65536);
    }
  }
}
