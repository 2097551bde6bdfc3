/** The rate limiter of modules/limit/limit.zig: a token bucket and a queue per direction, drained by
    heartbeats. Token counts are reals; the clock is an argument. */
module Limiter {

  const MAX_PENDING: nat := 100
  const NANOS: real := 1000000000.0

  datatype Packet = Packet(id: nat, len: nat, src: int)

  datatype Bucket = Bucket(rate: nat, burst: real, tokens: real, last: int)

  /** Bytes per nanosecond. */
  function PerNano(rate: nat): (r: real)
    ensures r >= 0.0
  {
    rate as real / 8.0 / NANOS
  }

  function Refill(b: Bucket, now: int): Bucket
  {
    if now - b.last <= 0 then b
    else b.(tokens := b.tokens + PerNano(b.rate) * (now - b.last) as real, last := now)
  }

  function TryConsume(b: Bucket, bytes: nat, now: int): (bool, Bucket)
  {
    var r := Refill(b, now);
    if r.tokens >= bytes as real then (true, r.(tokens := r.tokens - bytes as real)) else (false, r)
  }

  /** One direction. `forwarded`, `dropped` and `arrived` are history, `start` the time of `init`. */
  datatype Dir = Dir(bucket: Bucket, pending: seq<Packet>, forwarded: seq<Packet>, dropped: seq<Packet>,
                     arrived: seq<Packet>, start: int)

  function InitDir(rate: nat, burst: nat, now: int): Dir
  {
    Dir(Bucket(rate, burst as real, burst as real, now), [], [], [], [], now)
  }

  /** `drain_dir`: forwards queued packets as long as the tokens last. Every attempt reads the clock anew;
      `clock` holds the readings. */
  function DrainDir(d: Dir, clock: seq<int>): Dir
    decreases |d.pending|
  {
    if d.pending == [] || clock == [] then d
    else
      var (ok, b) := TryConsume(d.bucket, d.pending[0].len, clock[0]);
      if !ok then d.(bucket := b)
      else DrainDir(d.(bucket := b, pending := d.pending[1..], forwarded := d.forwarded + [d.pending[0]]), clock[1..])
  }

  datatype Outcome = Rejected | Forwarded | Queued | Dropped

  /** `process` for a packet in an enabled direction. */
  function Arrive(d: Dir, p: Packet, now: int): (Outcome, Dir)
  {
    if p.len == 0 then (Rejected, d)
    else
      var d0 := d.(arrived := d.arrived + [p]);
      var (ok, b) := TryConsume(d.bucket, p.len, now);
      var d1 := d0.(bucket := b);
      if ok then (Forwarded, d1.(forwarded := d1.forwarded + [p]))
      else if |d1.pending| >= MAX_PENDING then (Dropped, d1.(dropped := d1.dropped + [p]))
      else (Queued, d1.(pending := d1.pending + [p]))
  }

  // ----- The invariant of one direction -----

  function Total(ps: seq<Packet>): nat
  {
    if ps == [] then 0 else ps[0].len + Total(ps[1..])
  }

  lemma {:induction false} TotalSnoc(ps: seq<Packet>, p: Packet)
    ensures Total(ps + [p]) == Total(ps) + p.len
  {
    if ps == [] {
      assert ([] + [p])[1..] == [];
    } else {
      assert (ps + [p])[1..] == ps[1..] + [p];
      TotalSnoc(ps[1..], p);
    }
  }

  /** Tokens are never created or destroyed except by the clock and by forwarding. */
  predicate Conserved(d: Dir)
  {
    && d.start <= d.bucket.last
    && d.bucket.tokens >= 0.0
    && d.bucket.tokens + Total(d.forwarded) as real
       == d.bucket.burst + PerNano(d.bucket.rate) * (d.bucket.last - d.start) as real
  }

  /** Every packet that arrived was forwarded, is queued or was dropped, and exactly one of these. */
  predicate Partitioned(d: Dir)
  {
    && multiset(d.arrived) == multiset(d.forwarded) + multiset(d.pending) + multiset(d.dropped)
    && |d.pending| <= MAX_PENDING
  }

  predicate Inv(d: Dir)
  {
    Conserved(d) && Partitioned(d)
  }

  lemma RefillKeeps(d: Dir, now: int)
    requires Conserved(d)
    ensures Conserved(d.(bucket := Refill(d.bucket, now)))
  {
    var b := d.bucket;
    if now - b.last > 0 {
      var r := PerNano(b.rate);
      MulNonNegative(r, (now - b.last) as real);
      MulSum(r, (b.last - d.start) as real, (now - b.last) as real);
    }
  }

  lemma MulNonNegative(a: real, b: real)
    requires a >= 0.0 && b >= 0.0
    ensures a * b >= 0.0
  {
  }

  lemma MulSum(r: real, a: real, b: real)
    ensures r * (a + b) == r * a + r * b
  {
  }

  /** Forwarding a packet that the bucket admits. */
  lemma ConsumeKeeps(d: Dir, p: Packet, now: int)
    requires Conserved(d)
    ensures var (ok, b) := TryConsume(d.bucket, p.len, now);
            Conserved(if ok then d.(bucket := b, forwarded := d.forwarded + [p]) else d.(bucket := b))
  {
    hide PerNano, Refill, Total;
    RefillKeeps(d, now);
    TotalSnoc(d.forwarded, p);
    assert (Total(d.forwarded) + p.len) as real == Total(d.forwarded) as real + p.len as real;
  }

  lemma ArriveKeeps(d: Dir, p: Packet, now: int)
    requires Inv(d)
    ensures Inv(Arrive(d, p, now).1)
  {
    ArriveConserved(d, p, now);
    ArrivePartitioned(d, p, now);
  }

  lemma ArriveConserved(d: Dir, p: Packet, now: int)
    requires Conserved(d)
    ensures Conserved(Arrive(d, p, now).1)
  {
    ConsumeKeeps(d, p, now);
    hide TryConsume, Total, PerNano;
  }

  lemma ArrivePartitioned(d: Dir, p: Packet, now: int)
    requires Partitioned(d)
    ensures Partitioned(Arrive(d, p, now).1)
  {
    hide TryConsume;
  }

  lemma MovePacket(arrived: seq<Packet>, forwarded: seq<Packet>, pending: seq<Packet>, dropped: seq<Packet>)
    requires pending != []
    requires multiset(arrived) == multiset(forwarded) + multiset(pending) + multiset(dropped)
    ensures multiset(arrived) == multiset(forwarded + [pending[0]]) + multiset(pending[1..]) + multiset(dropped)
  {
    assert pending == [pending[0]] + pending[1..];
  }

  lemma {:induction false} DrainKeeps(d: Dir, clock: seq<int>)
    requires Inv(d)
    ensures Inv(DrainDir(d, clock))
    decreases |d.pending|
  {
    if d.pending != [] && clock != [] {
      hide Conserved, TryConsume;
      var p := d.pending[0];
      ConsumeKeeps(d, p, clock[0]);
      var (ok, b) := TryConsume(d.bucket, p.len, clock[0]);
      if ok {
        MovePacket(d.arrived, d.forwarded, d.pending, d.dropped);
        DrainKeeps(d.(bucket := b, pending := d.pending[1..], forwarded := d.forwarded + [p]), clock[1..]);
      }
    }
  }

  /** The rate limit: what has been forwarded by any time `t` not before the last reading of the clock is
      at most the burst plus the rate times the time since `init`. */
  lemma RateBound(d: Dir, t: int)
    requires Conserved(d) && d.bucket.last <= t
    ensures Total(d.forwarded) as real <= d.bucket.burst + PerNano(d.bucket.rate) * (t - d.start) as real
  {
    var r := PerNano(d.bucket.rate);
    MulNonNegative(r, (t - d.bucket.last) as real);
    MulSum(r, (d.bucket.last - d.start) as real, (t - d.bucket.last) as real);
  }

  /** A drain stops only for want of packets, or of tokens for the first one. */
  lemma {:induction false} DrainStops(d: Dir, clock: seq<int>)
    requires |clock| > |d.pending|
    ensures var d' := DrainDir(d, clock); d'.pending == [] || d'.bucket.tokens < d'.pending[0].len as real
    decreases |d.pending|
  {
    if d.pending != [] {
      hide PerNano;
      var (ok, b) := TryConsume(d.bucket, d.pending[0].len, clock[0]);
      if ok {
        DrainStops(d.(bucket := b, pending := d.pending[1..], forwarded := d.forwarded + [d.pending[0]]), clock[1..]);
      }
    }
  }

  lemma RefillGrows(b: Bucket, now: int)
    ensures Refill(b, now).tokens >= b.tokens
  {
    if now > b.last {
      MulNonNegative(PerNano(b.rate), (now - b.last) as real);
    }
  }

  /** Once the tokens cover all that is queued, one drain empties the queue, in order. */
  lemma {:induction false} DrainEmpties(d: Dir, clock: seq<int>)
    requires |clock| > |d.pending| && d.bucket.tokens >= Total(d.pending) as real
    ensures var d' := DrainDir(d, clock); d'.pending == [] && d'.forwarded == d.forwarded + d.pending
    decreases |d.pending|
  {
    if d.pending == [] {
      assert d.forwarded + d.pending == d.forwarded;
    } else {
      hide PerNano;
      var p, rest := d.pending[0], d.pending[1..];
      RefillGrows(d.bucket, clock[0]);
      assert Total(d.pending) == p.len + Total(rest);
      var (ok, b) := TryConsume(d.bucket, p.len, clock[0]);
      assert ok && b.tokens >= Total(rest) as real;
      DrainEmpties(d.(bucket := b, pending := rest, forwarded := d.forwarded + [p]), clock[1..]);
      assert (d.forwarded + [p]) + rest == d.forwarded + d.pending;
    }
  }

  /** The burst is not a cap: unused tokens pile up, so after a pause long enough a packet of any size, far
      larger than the burst, passes at once. */
  lemma BurstIsNoCap(b: Bucket, size: nat) returns (now: int)
    requires b.rate >= 1 && b.tokens >= 0.0
    ensures TryConsume(b, size, now).0
  {
    var wait := (size + 1) * 8000000000;
    now := b.last + wait;
    var r := PerNano(b.rate);
    assert r >= 1.0 / 8.0 / NANOS;
    assert r * wait as real >= (1.0 / 8.0 / NANOS) * wait as real by { MulMono(1.0 / 8.0 / NANOS, r, wait as real); }
    assert (1.0 / 8.0 / NANOS) * wait as real == (size + 1) as real;
  }

  lemma MulMono(a: real, b: real, c: real)
    requires a <= b && c >= 0.0
    ensures a * c <= b * c
  {
    MulNonNegative(b - a, c);
  }

  // ----- The module -----

  /** `heartbeat_interval_sec` values that the chain acts on. */
  const EVERY_TICK: int := -2
  const NEVER: int := 0

  /** `request_heartbeat` in the chain. */
  function RequestHeartbeat(interval: int): int
  {
    if interval > 0 then interval else if interval == 0 then EVERY_TICK else NEVER
  }

  /** The module with the chain's record of the heartbeat it asked for. */
  datatype Module = Module(dirs: seq<Dir>, enabled: seq<bool>, haveHeartbeat: bool, chainInterval: int)

  predicate Shaped(m: Module)
  {
    |m.dirs| == 2 && |m.enabled| == 2
  }

  function UpdateHeartbeat(m: Module): Module
    requires Shaped(m)
  {
    var hasPending := m.dirs[0].pending != [] || m.dirs[1].pending != [];
    if hasPending && !m.haveHeartbeat then m.(haveHeartbeat := true, chainInterval := RequestHeartbeat(0))
    else if !hasPending && m.haveHeartbeat then m.(haveHeartbeat := false, chainInterval := RequestHeartbeat(-1))
    else m
  }

  /** A heartbeat tick: both buckets are refilled and the enabled directions drained. */
  function Tick(m: Module, now: seq<int>, clock: seq<seq<int>>): Module
    requires Shaped(m) && |now| == 2 && |clock| == 2
  {
    var d0 := m.dirs[0].(bucket := Refill(m.dirs[0].bucket, now[0]));
    var d1 := m.dirs[1].(bucket := Refill(m.dirs[1].bucket, now[1]));
    UpdateHeartbeat(m.(dirs := [if m.enabled[0] then DrainDir(d0, clock[0]) else d0,
                                if m.enabled[1] then DrainDir(d1, clock[1]) else d1]))
  }

  /** `process` for a packet. In a disabled direction nothing at all happens to it. */
  function Process(m: Module, dir: nat, p: Packet, now: int): Module
    requires Shaped(m) && dir < 2
  {
    if !m.enabled[dir] then m
    else
      var (o, d) := Arrive(m.dirs[dir], p, now);
      var m' := m.(dirs := m.dirs[dir := d]);
      if o.Queued? then UpdateHeartbeat(m') else m'
  }

  /** The heartbeat is armed exactly while something is queued, and the chain knows. */
  predicate Armed(m: Module)
    requires Shaped(m)
  {
    && (m.haveHeartbeat <==> m.dirs[0].pending != [] || m.dirs[1].pending != [])
    && m.chainInterval == (if m.haveHeartbeat then EVERY_TICK else NEVER)
  }

  predicate ModuleInv(m: Module)
  {
    Shaped(m) && Armed(m) && Inv(m.dirs[0]) && Inv(m.dirs[1])
  }

  lemma ProcessKeeps(m: Module, dir: nat, p: Packet, now: int)
    requires ModuleInv(m) && dir < 2
    ensures ModuleInv(Process(m, dir, p, now))
  {
    hide Inv, Arrive;
    if m.enabled[dir] {
      ArriveKeeps(m.dirs[dir], p, now);
      ArrivePending(m.dirs[dir], p, now);
      var (o, d) := Arrive(m.dirs[dir], p, now);
      UpdateKeeps(m.(dirs := m.dirs[dir := d]));
    }
  }

  lemma UpdateKeeps(m: Module)
    requires Shaped(m) && Inv(m.dirs[0]) && Inv(m.dirs[1]) &&
             m.chainInterval == (if m.haveHeartbeat then EVERY_TICK else NEVER)
    ensures ModuleInv(UpdateHeartbeat(m))
  {
    hide Inv;
  }

  lemma ArrivePending(d: Dir, p: Packet, now: int)
    ensures Arrive(d, p, now).1.pending == if Arrive(d, p, now).0.Queued? then d.pending + [p] else d.pending
  {
    hide TryConsume;
  }

  lemma TickKeeps(m: Module, now: seq<int>, clock: seq<seq<int>>)
    requires ModuleInv(m) && |now| == 2 && |clock| == 2
    ensures ModuleInv(Tick(m, now, clock))
  {
    RefillKeeps(m.dirs[0], now[0]);
    RefillKeeps(m.dirs[1], now[1]);
    hide Conserved, Refill, PerNano;
    var d0 := m.dirs[0].(bucket := Refill(m.dirs[0].bucket, now[0]));
    var d1 := m.dirs[1].(bucket := Refill(m.dirs[1].bucket, now[1]));
    DrainKeeps(d0, clock[0]);
    DrainKeeps(d1, clock[1]);
    hide Inv, DrainDir;
  }

  datatype Event = OnePacket(dir: nat, p: Packet, at: int) | OneTick(now: seq<int>, clock: seq<seq<int>>)

  predicate ValidEvent(e: Event)
  {
    match e
    case OnePacket(dir, _, _) => dir < 2
    case OneTick(now, clock) => |now| == 2 && |clock| == 2
  }

  function Apply(m: Module, e: Event): Module
    requires Shaped(m) && ValidEvent(e)
  {
    match e
    case OnePacket(dir, p, now) => Process(m, dir, p, now)
    case OneTick(now, clock) => Tick(m, now, clock)
  }

  ghost predicate Reaches(m: Module, es: seq<Event>, m': Module)
    decreases |es|
  {
    if es == [] then m' == m
    else Shaped(m) && ValidEvent(es[0]) && Reaches(Apply(m, es[0]), es[1..], m')
  }

  lemma ApplyKeeps(m: Module, e: Event)
    requires ModuleInv(m) && ValidEvent(e)
    ensures ModuleInv(Apply(m, e))
  {
    match e
    case OnePacket(dir, p, now) => ProcessKeeps(m, dir, p, now);
    case OneTick(now, clock) => TickKeeps(m, now, clock);
  }

  lemma {:induction false} RunKeeps(m: Module, es: seq<Event>, m': Module)
    requires ModuleInv(m) && Reaches(m, es, m')
    ensures ModuleInv(m')
    decreases |es|
  {
    if es != [] {
      ApplyKeeps(m, es[0]);
      RunKeeps(Apply(m, es[0]), es[1..], m');
    }
  }

  function Init(rate: nat, burst: nat, now: seq<int>, enabled: seq<bool>): Module
    requires |now| == 2 && |enabled| == 2
  {
    Module([InitDir(rate, burst, now[0]), InitDir(rate, burst, now[1])], enabled, false, NEVER)
  }

  // ----- What was configured stays -----

  predicate SameSetting(d: Dir, d': Dir)
  {
    d'.bucket.rate == d.bucket.rate && d'.bucket.burst == d.bucket.burst && d'.start == d.start
  }

  lemma ConsumeSetting(b: Bucket, bytes: nat, now: int, t: int)
    ensures var b' := TryConsume(b, bytes, now).1; b'.rate == b.rate && b'.burst == b.burst
    ensures b.last <= t && now <= t ==> TryConsume(b, bytes, now).1.last <= t
  {
    hide PerNano;
  }

  /** All readings of the clock are at most `t`. */
  predicate Before(clock: seq<int>, t: int)
  {
    forall i :: 0 <= i < |clock| ==> clock[i] <= t
  }

  lemma {:induction false} DrainSetting(d: Dir, clock: seq<int>, t: int)
    ensures SameSetting(d, DrainDir(d, clock))
    ensures d.bucket.last <= t && Before(clock, t) ==> DrainDir(d, clock).bucket.last <= t
    decreases |d.pending|
  {
    if d.pending != [] && clock != [] {
      hide TryConsume;
      ConsumeSetting(d.bucket, d.pending[0].len, clock[0], t);
      var (ok, b) := TryConsume(d.bucket, d.pending[0].len, clock[0]);
      if ok {
        DrainSetting(d.(bucket := b, pending := d.pending[1..], forwarded := d.forwarded + [d.pending[0]]),
                     clock[1..], t);
      }
    }
  }

  lemma ArriveSetting(d: Dir, p: Packet, now: int, t: int)
    ensures SameSetting(d, Arrive(d, p, now).1)
    ensures d.bucket.last <= t && now <= t ==> Arrive(d, p, now).1.bucket.last <= t
  {
    hide TryConsume;
    ConsumeSetting(d.bucket, p.len, now, t);
  }

  /** What happened by time `t`. */
  predicate EventBefore(e: Event, t: int)
  {
    match e
    case OnePacket(_, _, at) => at <= t
    case OneTick(now, clock) => Before(now, t) && forall i :: 0 <= i < |clock| ==> Before(clock[i], t)
  }

  lemma ApplySetting(m: Module, e: Event, dir: nat, t: int)
    requires Shaped(m) && ValidEvent(e) && dir < 2
    ensures Shaped(Apply(m, e)) && Apply(m, e).enabled == m.enabled
    ensures SameSetting(m.dirs[dir], Apply(m, e).dirs[dir])
    ensures m.dirs[dir].bucket.last <= t && EventBefore(e, t) ==> Apply(m, e).dirs[dir].bucket.last <= t
  {
    hide DrainDir, Arrive, PerNano;
    match e
    case OnePacket(i, p, now) => ArriveSetting(m.dirs[i], p, now, t);
    case OneTick(now, clock) =>
      DrainSetting(m.dirs[dir].(bucket := Refill(m.dirs[dir].bucket, now[dir])), clock[dir], t);
  }

  predicate AllBefore(es: seq<Event>, t: int)
  {
    forall i :: 0 <= i < |es| ==> EventBefore(es[i], t)
  }

  lemma {:induction false} RunSetting(m: Module, es: seq<Event>, m': Module, dir: nat, t: int)
    requires Reaches(m, es, m') && Shaped(m) && dir < 2
    ensures Shaped(m') && m'.enabled == m.enabled && SameSetting(m.dirs[dir], m'.dirs[dir])
    ensures m.dirs[dir].bucket.last <= t && AllBefore(es, t) ==> m'.dirs[dir].bucket.last <= t
    decreases |es|
  {
    if es != [] {
      hide Apply, EventBefore;
      ApplySetting(m, es[0], dir, t);
      RunSetting(Apply(m, es[0]), es[1..], m', dir, t);
    }
  }

  lemma InitSetting(rate: nat, burst: nat, now: seq<int>, enabled: seq<bool>, dir: nat)
    requires |now| == 2 && |enabled| == 2 && dir < 2
    ensures var m := Init(rate, burst, now, enabled); var d := m.dirs[dir];
            && Shaped(m) && m.enabled == enabled && d.bucket.rate == rate && d.bucket.burst == burst as real
            && d.start == now[dir] && d.bucket.last == now[dir]
  {
  }

  /** The bytes that a direction configured with this rate, in bits per second, and this burst, in bytes, at time
      `t0` may let through by time `t`, both in nanoseconds. */
  function Budget(rate: nat, burst: nat, t0: int, t: int): real
  {
    burst as real + rate as real / 8000000000.0 * (t - t0) as real
  }

  lemma PerNanoIs(rate: nat)
    ensures PerNano(rate) == rate as real / 8000000000.0
  {
  }

  /** For all packets, ticks and clock readings: what a direction has forwarded by any time from the last reading
      on is at most the configured burst plus the configured rate times the time since `init`; tokens are never
      negative, every packet was forwarded, queued (at most 100) or dropped, and the chain ticks the module
      exactly as long as something is queued. */
  lemma LimiterExact(rate: nat, burst: nat, now: seq<int>, enabled: seq<bool>, es: seq<Event>, m: Module, dir: nat,
                     t: int)
    requires |now| == 2 && |enabled| == 2 && dir < 2
    requires Reaches(Init(rate, burst, now, enabled), es, m)
    ensures Shaped(m) && Armed(m) && Partitioned(m.dirs[dir]) && m.dirs[dir].bucket.tokens >= 0.0
    ensures Conserved(m.dirs[dir]) && m.enabled == enabled
    ensures (now[dir] <= t && AllBefore(es, t)) || m.dirs[dir].bucket.last <= t ==>
              Total(m.dirs[dir].forwarded) as real <=
              burst as real + rate as real / 8000000000.0 * (t - now[dir]) as real
  {
    hide PerNano, Total, Reaches, Init, Inv, Conserved, AllBefore;
    InitSetting(rate, burst, now, enabled, dir);
    PerNanoIs(rate);
    RunSetting(Init(rate, burst, now, enabled), es, m, dir, t);
    InitKeeps(rate, burst, now, enabled);
    RunKeeps(Init(rate, burst, now, enabled), es, m);
    DirOk(m.dirs[dir]);
    if m.dirs[dir].bucket.last <= t {
      RateBound(m.dirs[dir], t);
    }
  }

  lemma InitKeeps(rate: nat, burst: nat, now: seq<int>, enabled: seq<bool>)
    requires |now| == 2 && |enabled| == 2
    ensures ModuleInv(Init(rate, burst, now, enabled))
  {
    InitDirKeeps(rate, burst, now[0]);
    InitDirKeeps(rate, burst, now[1]);
    hide Inv, InitDir;
    assert InitDir(rate, burst, now[0]).pending == [] by { InitDirKeeps(rate, burst, now[0]); }
  }

  lemma InitDirKeeps(rate: nat, burst: nat, now: int)
    ensures Inv(InitDir(rate, burst, now)) && InitDir(rate, burst, now).pending == []
  {
  }

  lemma DirOk(d: Dir)
    requires Inv(d)
    ensures Conserved(d) && Partitioned(d) && d.bucket.tokens >= 0.0
  {
    hide PerNano, Total;
  }

  /** A packet in a disabled direction is neither forwarded, queued nor dropped: it vanishes, since the
      module reports success without passing its buffer on. */
  lemma DisabledSwallows(m: Module, dir: nat, p: Packet, now: int)
    requires Shaped(m) && dir < 2
    ensures Process(m, dir, p, now) == m <==> !m.enabled[dir] || p.len == 0
  {
    if m.enabled[dir] && p.len != 0 {
      var d := Arrive(m.dirs[dir], p, now).1;
      assert |d.arrived| == |m.dirs[dir].arrived| + 1;
      assert Process(m, dir, p, now).dirs[dir] == d;
    } else if m.enabled[dir] {
      assert m.dirs[dir := m.dirs[dir]] == m.dirs;
    }
  }
}
