/** What the limiter does with a packet and on a tick, said in terms of the configured rate and burst, the
    packets and the clock alone. */
module LimiterRuns {
  import opened Limiter

  /** Bytes `n` more than what has been forwarded are within the budget. */
  predicate Fits(rate: nat, burst: nat, t0: int, t: int, d: Dir, n: nat)
  {
    (Total(d.forwarded) + n) as real <= Budget(rate, burst, t0, t)
  }

  lemma CastSum(a: nat, b: nat)
    ensures (a + b) as real == a as real + b as real
  {
  }

  /** The tokens after a refill are the budget less what has been forwarded. */
  lemma TokensAt(d: Dir, rate: nat, burst: nat, t0: int, t: int)
    requires Conserved(d) && d.bucket.rate == rate && d.bucket.burst == burst as real && d.start == t0
    requires d.bucket.last <= t
    ensures var b := Refill(d.bucket, t);
            b.last == t && b.tokens + Total(d.forwarded) as real == Budget(rate, burst, t0, t)
  {
    RefillKeeps(d, t);
    PerNanoIs(rate);
    hide PerNano, Total;
    var b := Refill(d.bucket, t);
    assert b.last == t && b.rate == rate && b.burst == burst as real;
  }

  lemma ConsumeExact(d: Dir, rate: nat, burst: nat, t0: int, t: int, n: nat)
    requires Conserved(d) && d.bucket.rate == rate && d.bucket.burst == burst as real && d.start == t0
    requires d.bucket.last <= t
    ensures var (ok, b) := TryConsume(d.bucket, n, t);
            && (ok <==> Fits(rate, burst, t0, t, d, n)) && b.last == t
            && (!ok ==> b.tokens + Total(d.forwarded) as real == Budget(rate, burst, t0, t))
  {
    TokensAt(d, rate, burst, t0, t);
    hide Refill, Total, Budget, PerNano;
    CastSum(Total(d.forwarded), n);
  }

  lemma Reached(rate: nat, burst: nat, now: seq<int>, enabled: seq<bool>, es: seq<Event>, m: Module, dir: nat, at: int)
    requires |now| == 2 && |enabled| == 2 && dir < 2 && Limiter.Reaches(Init(rate, burst, now, enabled), es, m)
    requires now[dir] <= at && AllBefore(es, at)
    ensures Shaped(m) && m.enabled == enabled
    ensures var d := m.dirs[dir];
            && Conserved(d) && d.bucket.rate == rate && d.bucket.burst == burst as real && d.start == now[dir]
            && d.bucket.last <= at
  {
    hide PerNano, Total, Limiter.Reaches, Init, Conserved, AllBefore;
    LimiterExact(rate, burst, now, enabled, es, m, dir, at);
    InitSetting(rate, burst, now, enabled, dir);
    RunSetting(Init(rate, burst, now, enabled), es, m, dir, at);
  }

  /** After any run, a packet in a limited direction at a time not before any earlier reading of the clock: it is
      forwarded at once if and only if it and all that was forwarded before are within the burst plus the rate
      times the time since `init`. Otherwise it goes to the end of the queue if fewer than 100 packets are there,
      and is dropped if not. The other direction is left alone. */
  lemma PacketExact(rate: nat, burst: nat, now: seq<int>, enabled: seq<bool>, es: seq<Event>, m: Module, dir: nat,
                    p: Packet, at: int)
    requires |now| == 2 && |enabled| == 2 && dir < 2 && Limiter.Reaches(Init(rate, burst, now, enabled), es, m)
    requires now[dir] <= at && AllBefore(es, at) && enabled[dir] && p.len > 0
    ensures Shaped(m) && Shaped(Process(m, dir, p, at))
    ensures var d := m.dirs[dir]; var d' := Process(m, dir, p, at).dirs[dir];
            && d'.arrived == d.arrived + [p]
            && if Fits(rate, burst, now[dir], at, d, p.len) then
                 d'.forwarded == d.forwarded + [p] && d'.pending == d.pending && d'.dropped == d.dropped
               else if |d.pending| < 100 then
                 d'.forwarded == d.forwarded && d'.pending == d.pending + [p] && d'.dropped == d.dropped
               else
                 d'.forwarded == d.forwarded && d'.pending == d.pending && d'.dropped == d.dropped + [p]
    ensures Process(m, dir, p, at).dirs[1 - dir] == m.dirs[1 - dir]
  {
    Reached(rate, burst, now, enabled, es, m, dir, at);
    hide Limiter.Reaches, Init, AllBefore, Fits, Conserved, TryConsume;
    ConsumeExact(m.dirs[dir], rate, burst, now[dir], at, p.len);
  }

  /** The first packet of all passes at once if and only if it is at most the burst plus what the rate has added
      since `init`. */
  lemma FirstPacket(rate: nat, burst: nat, now: seq<int>, enabled: seq<bool>, dir: nat, p: Packet, at: int)
    requires |now| == 2 && |enabled| == 2 && dir < 2 && now[dir] <= at && enabled[dir] && p.len > 0
    ensures var m := Init(rate, burst, now, enabled);
            && Shaped(m) && Shaped(Process(m, dir, p, at))
            && (Process(m, dir, p, at).dirs[dir].forwarded == [p] <==>
                p.len as real <= burst as real + rate as real / 8000000000.0 * (at - now[dir]) as real)
  {
    var m := Init(rate, burst, now, enabled);
    assert m.dirs[dir].forwarded == [] && Total([]) == 0;
    PacketExact(rate, burst, now, enabled, [], m, dir, p, at);
    hide Process;
  }

  // ----- A tick -----

  /** All readings of the clock during the tick are `at`, and there are enough of them. */
  predicate TickAt(m: Module, e: Event, at: int)
    requires Shaped(m)
  {
    && e.OneTick? && e.now == [at, at] && |e.clock| == 2
    && (forall i, j :: 0 <= i < 2 && 0 <= j < |e.clock[i]| ==> e.clock[i][j] == at)
    && |e.clock[0]| > |m.dirs[0].pending| && |e.clock[1]| > |m.dirs[1].pending|
  }

  /** Draining moves packets from the front of the queue to the end of those forwarded. */
  lemma {:induction false} DrainOrder(d: Dir, clock: seq<int>)
    ensures var d' := DrainDir(d, clock);
            && d.forwarded <= d'.forwarded && d'.forwarded + d'.pending == d.forwarded + d.pending
            && d'.dropped == d.dropped && d'.arrived == d.arrived
    decreases |d.pending|
  {
    if d.pending != [] && clock != [] {
      hide TryConsume;
      var (ok, b) := TryConsume(d.bucket, d.pending[0].len, clock[0]);
      if ok {
        var x := d.pending[0];
        DrainOrder(d.(bucket := b, pending := d.pending[1..], forwarded := d.forwarded + [x]), clock[1..]);
        assert (d.forwarded + [x]) + d.pending[1..] == d.forwarded + d.pending;
      }
    }
  }

  lemma {:induction false} DrainExact(d: Dir, rate: nat, burst: nat, t0: int, t: int, clock: seq<int>)
    requires Conserved(d) && d.bucket.rate == rate && d.bucket.burst == burst as real && d.start == t0
    requires d.bucket.last <= t && |clock| > |d.pending| && forall j :: 0 <= j < |clock| ==> clock[j] == t
    ensures var d' := DrainDir(d, clock);
            d'.pending != [] ==> !Fits(rate, burst, t0, t, d', d'.pending[0].len)
    decreases |d.pending|
  {
    if d.pending != [] {
      var x := d.pending[0];
      ConsumeKeeps(d, x, t);
      ConsumeExact(d, rate, burst, t0, t, x.len);
      ConsumeSetting(d.bucket, x.len, t, t);
      hide TryConsume, Conserved, Fits;
      var (ok, b) := TryConsume(d.bucket, x.len, clock[0]);
      if ok {
        DrainExact(d.(bucket := b, pending := d.pending[1..], forwarded := d.forwarded + [x]), rate, burst, t0, t,
                   clock[1..]);
      } else {
        SameFits(rate, burst, t0, t, d, d.(bucket := b), x.len);
      }
    }
  }

  lemma SameFits(rate: nat, burst: nat, t0: int, t: int, d: Dir, d': Dir, n: nat)
    requires d'.forwarded == d.forwarded
    ensures Fits(rate, burst, t0, t, d', n) <==> Fits(rate, burst, t0, t, d, n)
  {
  }

  /** A tick forwards, in a limited direction, as many packets from the front of the queue as the budget allows,
      in order, and no more: the one that is then first does not fit. */
  lemma TickExact(rate: nat, burst: nat, now: seq<int>, enabled: seq<bool>, es: seq<Event>, m: Module, dir: nat,
                  e: Event, at: int)
    requires |now| == 2 && |enabled| == 2 && dir < 2 && Limiter.Reaches(Init(rate, burst, now, enabled), es, m)
    requires now[dir] <= at && AllBefore(es, at) && enabled[dir] && Shaped(m) && TickAt(m, e, at)
    ensures Shaped(Apply(m, e))
    ensures var d := m.dirs[dir]; var d' := Apply(m, e).dirs[dir];
            && d.forwarded <= d'.forwarded && d'.forwarded + d'.pending == d.forwarded + d.pending
            && d'.dropped == d.dropped && d'.arrived == d.arrived
            && Fits(rate, burst, now[dir], at, d', 0)
            && (d'.pending != [] ==> !Fits(rate, burst, now[dir], at, d', d'.pending[0].len))
  {
    Reached(rate, burst, now, enabled, es, m, dir, at);
    var d := m.dirs[dir];
    var d1 := d.(bucket := Refill(d.bucket, at));
    RefillKeeps(d, at);
    TokensAt(d, rate, burst, now[dir], at);
    assert d1.bucket.rate == rate && d1.bucket.burst == burst as real;
    hide Limiter.Reaches, Init, AllBefore, Fits, Conserved, Refill, DrainDir;
    DrainOrder(d1, e.clock[dir]);
    DrainExact(d1, rate, burst, now[dir], at, e.clock[dir]);
    assert Apply(m, e).dirs[dir] == DrainDir(d1, e.clock[dir]);
    WithinBudget(d1, rate, burst, now[dir], at, e.clock[dir]);
  }

  lemma WithinBudget(d: Dir, rate: nat, burst: nat, t0: int, t: int, clock: seq<int>)
    requires Conserved(d) && d.bucket.rate == rate && d.bucket.burst == burst as real && d.start == t0
    requires d.bucket.last <= t && Before(clock, t)
    ensures Fits(rate, burst, t0, t, DrainDir(d, clock), 0)
  {
    hide DrainDir, Conserved, Total, PerNano;
    DrainSetting(d, clock, t);
    DrainConserved(d, clock);
    RateBound(DrainDir(d, clock), t);
    PerNanoIs(rate);
  }

  lemma {:induction false} DrainConserved(d: Dir, clock: seq<int>)
    requires Conserved(d)
    ensures Conserved(DrainDir(d, clock))
    decreases |d.pending|
  {
    hide Conserved, TryConsume;
    if d.pending != [] && clock != [] {
      var x := d.pending[0];
      ConsumeKeeps(d, x, clock[0]);
      var (ok, b) := TryConsume(d.bucket, x.len, clock[0]);
      if ok {
        SameConserved(d.(bucket := b, forwarded := d.forwarded + [x]), d.pending[1..]);
        DrainConserved(d.(bucket := b, pending := d.pending[1..], forwarded := d.forwarded + [x]), clock[1..]);
      }
    }
  }

  lemma SameConserved(d: Dir, pending: seq<Packet>)
    requires Conserved(d)
    ensures Conserved(d.(pending := pending))
  {
  }
}
