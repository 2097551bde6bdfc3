/** Exactly when the burst of modules/limit/limit.zig is a cap. */
module LimiterCap {
  import opened Limiter

  /** What can happen to one direction: a packet, a drain, a refill by a heartbeat; each with its readings of
      the clock. */
  datatype Use = UsePacket(p: Packet, now: int) | UseDrain(clock: seq<int>) | UseRefill(now: int)

  function UseOnce(d: Dir, u: Use): Dir
  {
    match u
    case UsePacket(p, now) => Arrive(d, p, now).1
    case UseDrain(clock) => DrainDir(d, clock)
    case UseRefill(now) => d.(bucket := Refill(d.bucket, now))
  }

  function UseAll(d: Dir, us: seq<Use>): Dir
    decreases |us|
  {
    if us == [] then d else UseAll(UseOnce(d, us[0]), us[1..])
  }

  /** No reading of the clock is later than `t`. */
  predicate Until(u: Use, t: int)
  {
    match u
    case UsePacket(_, now) => now <= t
    case UseDrain(clock) => forall i :: 0 <= i < |clock| ==> clock[i] <= t
    case UseRefill(now) => now <= t
  }

  predicate AllUntil(us: seq<Use>, t: int)
  {
    forall i :: 0 <= i < |us| ==> Until(us[i], t)
  }

  /** Whatever happens from the last reading on until `t`, at most the burst plus the rate times the length of
      the window is forwarded. */
  ghost predicate Capped(d: Dir)
  {
    forall us, t :: d.bucket.last <= t && AllUntil(us, t) ==>
      (Total(UseAll(d, us).forwarded) - Total(d.forwarded)) as real
      <= d.bucket.burst + PerNano(d.bucket.rate) * (t - d.bucket.last) as real
  }

  // ----- At most the tokens plus what the clock adds -----

  /** Parameters and books of a direction after some time. */
  predicate Later(d: Dir, e: Dir, t: int)
  {
    && Conserved(e) && e.start == d.start && e.bucket.rate == d.bucket.rate && e.bucket.burst == d.bucket.burst
    && d.bucket.last <= e.bucket.last <= (if d.bucket.last <= t then t else d.bucket.last)
  }

  lemma ConsumeLater(d: Dir, p: Packet, now: int, t: int)
    requires Conserved(d) && now <= t
    ensures var (ok, b) := TryConsume(d.bucket, p.len, now);
            Later(d, if ok then d.(bucket := b, forwarded := d.forwarded + [p]) else d.(bucket := b), t)
  {
    ConsumeKeeps(d, p, now);
    hide Conserved, PerNano;
  }

  lemma {:induction false} DrainLater(d: Dir, clock: seq<int>, t: int)
    requires Conserved(d) && forall i :: 0 <= i < |clock| ==> clock[i] <= t
    ensures Later(d, DrainDir(d, clock), t)
    decreases |d.pending|
  {
    if d.pending != [] && clock != [] {
      hide Conserved, TryConsume;
      var p := d.pending[0];
      ConsumeLater(d, p, clock[0], t);
      var (ok, b) := TryConsume(d.bucket, p.len, clock[0]);
      if ok {
        var e := d.(bucket := b, pending := d.pending[1..], forwarded := d.forwarded + [p]);
        SameBooks(d.(bucket := b, forwarded := d.forwarded + [p]), e);
        DrainLater(e, clock[1..], t);
      }
    }
  }

  lemma SameBooks(d: Dir, e: Dir)
    requires Conserved(d) && e.bucket == d.bucket && e.forwarded == d.forwarded && e.start == d.start
    ensures Conserved(e)
  {
    hide PerNano, Total;
  }

  lemma UseLater(d: Dir, u: Use, t: int)
    requires Conserved(d) && Until(u, t)
    ensures Later(d, UseOnce(d, u), t)
  {
    match u
    case UsePacket(p, now) =>
      ArriveConserved(d, p, now);
      hide Conserved, PerNano;
    case UseDrain(clock) => DrainLater(d, clock, t);
    case UseRefill(now) =>
      RefillKeeps(d, now);
      hide Conserved, PerNano;
  }

  lemma {:induction false} AllLater(d: Dir, us: seq<Use>, t: int)
    requires Conserved(d) && AllUntil(us, t)
    ensures Later(d, UseAll(d, us), t)
    decreases |us|
  {
    hide Conserved, Until;
    if us != [] {
      UseLater(d, us[0], t);
      AllLater(UseOnce(d, us[0]), us[1..], t);
    }
  }

  /** What passes is what the tokens were, plus what the clock added, less what is left. */
  lemma Passed(d: Dir, e: Dir, t: int)
    requires Conserved(d) && Later(d, e, t) && d.bucket.last <= t
    ensures (Total(e.forwarded) - Total(d.forwarded)) as real
            <= d.bucket.tokens + PerNano(d.bucket.rate) * (t - d.bucket.last) as real
  {
    var r := PerNano(d.bucket.rate);
    hide PerNano, Total;
    var x, y := (d.bucket.last - d.start) as real, (e.bucket.last - d.bucket.last) as real;
    MulSum(r, x, y);
    MulMono2(r, y, (t - d.bucket.last) as real);
    assert (e.bucket.last - e.start) as real == x + y;
    assert (Total(e.forwarded) - Total(d.forwarded)) as real == Total(e.forwarded) as real - Total(d.forwarded) as real;
  }

  lemma MulMono2(r: real, a: real, b: real)
    requires r >= 0.0 && a <= b
    ensures r * a <= r * b
  {
  }

  lemma FewTokensCap(d: Dir)
    requires Conserved(d) && d.bucket.tokens <= d.bucket.burst
    ensures Capped(d)
  {
    forall us, t | d.bucket.last <= t && AllUntil(us, t)
      ensures (Total(UseAll(d, us).forwarded) - Total(d.forwarded)) as real
              <= d.bucket.burst + PerNano(d.bucket.rate) * (t - d.bucket.last) as real
    {
      hide Conserved, PerNano, Later;
      AllLater(d, us, t);
      Passed(d, UseAll(d, us), t);
    }
  }

  // ----- More tokens than the burst -----

  const PER_BYTE: nat := 8000000000

  lemma {:induction false} CastMul(a: nat, b: nat)
    ensures (a * b) as real == a as real * b as real
  {
    if b > 0 {
      CastMul(a, b - 1);
      assert a * b == a * (b - 1) + a;
      assert (a * b) as real == (a * (b - 1)) as real + a as real;
      assert b as real == (b - 1) as real + 1.0;
      MulSum(a as real, (b - 1) as real, 1.0);
    }
  }

  /** The rate over a whole number of nanoseconds, in whole parts of a byte. */
  lemma WholeParts(rate: nat, x: nat)
    ensures PerNano(rate) * x as real * PER_BYTE as real == (rate * x) as real
  {
    CastMul(rate, x);
    var r := rate as real;
    assert PerNano(rate) * 8000000000.0 == r;
    Commute(PerNano(rate), x as real, 8000000000.0);
  }

  lemma Commute(a: real, b: real, c: real)
    ensures a * b * c == (a * c) * b
  {
  }

  lemma ScaleLess(a: real, b: real)
    requires a * PER_BYTE as real < b * PER_BYTE as real
    ensures a < b
  {
  }

  lemma ScaleLeq(a: real, b: real)
    requires a * PER_BYTE as real <= b * PER_BYTE as real
    ensures a <= b
  {
  }

  /** The surplus over the burst, in whole parts of a byte. */
  lemma Surplus(d: Dir) returns (e: nat, total: nat)
    requires Conserved(d) && d.bucket.tokens > d.bucket.burst
    ensures e == d.bucket.last - d.start && total == Total(d.forwarded)
    ensures (d.bucket.tokens - d.bucket.burst) * PER_BYTE as real == (d.bucket.rate * e - PER_BYTE * total) as real
    ensures d.bucket.rate * e - PER_BYTE * total > 0
  {
    e, total := d.bucket.last - d.start, Total(d.forwarded);
    WholeParts(d.bucket.rate, e);
    hide PerNano, Total;
    assert d.bucket.tokens - d.bucket.burst == PerNano(d.bucket.rate) * e as real - total as real;
    Scale(PerNano(d.bucket.rate) * e as real, total as real);
    CastMul(PER_BYTE, total);
    Positive(d.bucket.tokens - d.bucket.burst);
  }

  lemma Scale(a: real, b: real)
    ensures (a - b) * PER_BYTE as real == a * PER_BYTE as real - PER_BYTE as real * b
  {
  }

  lemma Positive(a: real)
    requires a > 0.0
    ensures a * PER_BYTE as real > 0.0
  {
  }

  /** A window and a packet that show it: after a whole number of bytes' worth of time the surplus is a byte
      or more. */
  lemma Witness(rate: nat, e: nat, total: nat) returns (wait: nat, m: nat)
    requires rate * e - PER_BYTE * total > 0
    ensures PER_BYTE * m == rate * wait + (rate * e - PER_BYTE * total)
  {
    var k := e + 1;
    wait := PER_BYTE * k - e;
    assert wait >= 0;
    var n := rate * k - total;
    assert rate * wait == PER_BYTE * (rate * k) - rate * e by {
      assert rate * (PER_BYTE * k - e) == rate * (PER_BYTE * k) - rate * e;
      assert rate * (PER_BYTE * k) == PER_BYTE * (rate * k);
    }
    assert PER_BYTE * n == rate * wait + (rate * e - PER_BYTE * total);
    assert n >= 0;
    m := n;
  }

  lemma ManyTokensPass(d: Dir, burst: nat)
    requires Conserved(d) && d.bucket.burst == burst as real && d.bucket.tokens > d.bucket.burst
    ensures !Capped(d)
  {
    var e, total := Surplus(d);
    var wait, m := Witness(d.bucket.rate, e, total);
    var p := Packet(0, burst + m, 0);
    var t := d.bucket.last + wait;
    WitnessPasses(d, burst, e, total, wait, m);
    TotalSnoc(d.forwarded, p);
    hide Conserved, PerNano;
    PassesAtOnce(d, p, t);
    var us := [UsePacket(p, t)];
    assert us[1..] == [];
    assert UseAll(d, us) == UseOnce(d, us[0]);
    assert AllUntil(us, t);
  }

  lemma PassesAtOnce(d: Dir, p: Packet, t: int)
    requires p.len > 0 && Refill(d.bucket, t).tokens >= p.len as real
    ensures Arrive(d, p, t).1.forwarded == d.forwarded + [p]
  {
    hide PerNano;
  }

  lemma WitnessPasses(d: Dir, burst: nat, e: nat, total: nat, wait: nat, m: nat)
    requires d.bucket.burst == burst as real
    requires (d.bucket.tokens - d.bucket.burst) * PER_BYTE as real == (d.bucket.rate * e - PER_BYTE * total) as real
    requires d.bucket.rate * e - PER_BYTE * total > 0
    requires PER_BYTE * m == d.bucket.rate * wait + (d.bucket.rate * e - PER_BYTE * total)
    ensures m > 0 && Refill(d.bucket, d.bucket.last + wait).tokens >= (burst + m) as real
    ensures (burst + m) as real > d.bucket.burst + PerNano(d.bucket.rate) * wait as real
  {
    var x := PerNano(d.bucket.rate) * wait as real;
    WholeParts(d.bucket.rate, wait);
    CastMul(PER_BYTE, m);
    hide PerNano;
    var gain := (d.bucket.rate * e - PER_BYTE * total) as real;
    assert (PER_BYTE * m) as real == (d.bucket.rate * wait) as real + gain;
    assert m as real * PER_BYTE as real == x * PER_BYTE as real + gain;
    ScaleLess(x, m as real);
    Scale2(x, d.bucket.tokens - d.bucket.burst);
    ScaleLeq(m as real, x + (d.bucket.tokens - d.bucket.burst));
    assert (burst + m) as real == burst as real + m as real;
    NoWait(d.bucket, wait, x);
  }

  lemma Scale2(a: real, b: real)
    ensures (a + b) * PER_BYTE as real == a * PER_BYTE as real + b * PER_BYTE as real
  {
  }

  lemma NoWait(b: Bucket, wait: nat, x: real)
    requires x == PerNano(b.rate) * wait as real
    ensures Refill(b, b.last + wait).tokens == b.tokens + x
  {
  }

  /** The burst caps every window from now on, for all traffic, if and only if the bucket does not hold more
      tokens than the burst now. */
  lemma BurstCapsIff(d: Dir, burst: nat)
    requires Conserved(d) && d.bucket.burst == burst as real
    ensures Capped(d) <==> d.bucket.tokens <= d.bucket.burst
  {
    if d.bucket.tokens <= d.bucket.burst {
      FewTokensCap(d);
    } else {
      ManyTokensPass(d, burst);
    }
  }
}
