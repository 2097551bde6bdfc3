/** The limiter's context as it runs. */
module LimitCtx {
  import opened Limiter

  /** A packet handed to `write_packet`. */
  datatype Sent = Sent(dst: int, p: Packet)

  /** The packets written to output `dst`, in order. */
  function OfOutput(ws: seq<Sent>, dst: int): seq<Packet>
  {
    if ws == [] then []
    else
      var k := |ws| - 1;
      OfOutput(ws[..k], dst) + if ws[k].dst == dst then [ws[k].p] else []
  }

  /** Direction 0 writes to output 1 and direction 1 to output 0, and both write just what they forward. */
  predicate SentOk(ws: seq<Sent>, dirs: seq<Dir>)
  {
    |dirs| == 2 && OfOutput(ws, 1) == dirs[0].forwarded && OfOutput(ws, 0) == dirs[1].forwarded
  }

  lemma OneSent(ws: seq<Sent>, x: Sent, dst: int)
    ensures OfOutput(ws + [x], dst) == OfOutput(ws, dst) + if x.dst == dst then [x.p] else []
  {
    assert (ws + [x])[..|ws|] == ws;
  }

  lemma SentMore(ws: seq<Sent>, dirs: seq<Dir>, dir: nat, p: Packet, d: Dir)
    requires SentOk(ws, dirs) && dir < 2 && d.forwarded == dirs[dir].forwarded + [p]
    ensures SentOk(ws + [Sent(if dir == 0 then 1 else 0, p)], dirs[dir := d])
  {
    hide OfOutput;
    OneSent(ws, Sent(if dir == 0 then 1 else 0, p), 0);
    OneSent(ws, Sent(if dir == 0 then 1 else 0, p), 1);
    NoneAfter(dirs[0].forwarded);
    NoneAfter(dirs[1].forwarded);
  }

  lemma NoneAfter(ps: seq<Packet>)
    ensures ps + [] == ps
  {
  }

  class Context {
    var dirs: seq<Dir>
    var written: seq<Sent>
    const enabled: seq<bool>
    var haveHeartbeat: bool
    var chainInterval: int

    function View(): Module
      reads this
    {
      Module(dirs, enabled, haveHeartbeat, chainInterval)
    }

    constructor (rate: nat, burst: nat, now: seq<int>, enabled: seq<bool>)
      requires |now| == 2 && |enabled| == 2
      ensures View() == Init(rate, burst, now, enabled) && SentOk(written, dirs)
    {
      written := [];
      dirs := [InitDir(rate, burst, now[0]), InitDir(rate, burst, now[1])];
      this.enabled, haveHeartbeat, chainInterval := enabled, false, NEVER;
    }

    /** `drain_dir`. */
    method Drain(dir: nat, clock: seq<int>)
      requires Shaped(View()) && dir < 2
      modifies this`dirs, this`written
      ensures View() == old(View()).(dirs := old(dirs)[dir :=
                if enabled[dir] then DrainDir(old(dirs)[dir], clock) else old(dirs)[dir]])
      ensures old(SentOk(written, dirs)) ==> SentOk(written, dirs)
    {
      hide OfOutput;
      if !enabled[dir] {
        assert dirs[dir := dirs[dir]] == dirs;
        return;
      }
      var d, i := dirs[dir], 0;
      assert dirs[dir := d] == dirs;
      while d.pending != [] && i < |clock|
        invariant 0 <= i <= |clock| && dirs == old(dirs)
        invariant old(SentOk(written, dirs)) ==> SentOk(written, dirs[dir := d])
        invariant DrainDir(d, clock[i..]) == DrainDir(dirs[dir], clock)
        decreases |d.pending|
      {
        var (ok, b) := TryConsume(d.bucket, d.pending[0].len, clock[i]);
        d := d.(bucket := b);
        if !ok {
          dirs := dirs[dir := d];
          return;
        }
        var p := d.pending[0];
        ghost var d0 := d;
        d := d.(pending := d.pending[1..], forwarded := d.forwarded + [p]);
        if old(SentOk(written, dirs)) {
          SentMore(written, dirs[dir := d0], dir, p, d);
        }
        assert dirs[dir := d0][dir := d] == dirs[dir := d];
        written := written + [Sent(if dir == 0 then 1 else 0, p)];
        assert clock[i..][1..] == clock[i + 1..];
        i := i + 1;
      }
      dirs := dirs[dir := d];
    }

    method Update()
      requires Shaped(View())
      modifies this`haveHeartbeat, this`chainInterval
      ensures View() == UpdateHeartbeat(old(View()))
    {
      var hasPending := dirs[0].pending != [] || dirs[1].pending != [];
      if hasPending && !haveHeartbeat {
        chainInterval := RequestHeartbeat(0);
        haveHeartbeat := true;
      } else if !hasPending && haveHeartbeat {
        chainInterval := RequestHeartbeat(-1);
        haveHeartbeat := false;
      }
    }

    /** `process` with `dir < 0`. */
    method OnTick(now: seq<int>, clock: seq<seq<int>>)
      requires ModuleInv(View()) && |now| == 2 && |clock| == 2
      modifies this
      ensures View() == Limiter.Tick(old(View()), now, clock)
      ensures ModuleInv(View())
      ensures old(SentOk(written, dirs)) ==> SentOk(written, dirs)
    {
      hide ModuleInv, OfOutput, DrainDir, Refill, UpdateHeartbeat;
      TickKeeps(View(), now, clock);
      ShapedDirs(View());
      var d0 := dirs[0].(bucket := Refill(dirs[0].bucket, now[0]));
      var d1 := dirs[1].(bucket := Refill(dirs[1].bucket, now[1]));
      dirs := [d0, d1];
      Drain(0, clock[0]);
      Drain(1, clock[1]);
      assert dirs ==
             [if enabled[0] then DrainDir(d0, clock[0]) else d0, if enabled[1] then DrainDir(d1, clock[1]) else d1];
      Update();
    }

    /** `process` for a packet; `writeRet` is what `write_packet` answers if it is forwarded. A negative answer
        is passed on although the packet has been given away. */
    method OnPacket(dir: nat, p: Packet, now: int, writeRet: int) returns (ret: int)
      requires ModuleInv(View()) && dir < 2
      modifies this
      ensures View() == Limiter.Process(old(View()), dir, p, now)
      ensures ModuleInv(View())
      ensures ret == if !enabled[dir] then 0
                     else if p.len == 0 then -1
                     else if Arrive(old(dirs)[dir], p, now).0.Forwarded? then writeRet else 0
      ensures old(SentOk(written, dirs)) ==> SentOk(written, dirs)
    {
      hide OfOutput, Inv, Armed, Refill, UpdateHeartbeat, ModuleInv, TryConsume, Process;
      ShapedDirs(View());
      ProcessKeeps(View(), dir, p, now);
      ProcessDef(View(), dir, p, now);
      if !enabled[dir] {
        return 0;
      }
      var d := dirs[dir];
      if p.len == 0 {
        return -1;
      }
      var (ok, b) := TryConsume(d.bucket, p.len, now);
      d := d.(arrived := d.arrived + [p], bucket := b);
      if ok {
        if SentOk(written, dirs) {
          SentMore(written, dirs, dir, p, d.(forwarded := d.forwarded + [p]));
        }
        dirs := dirs[dir := d.(forwarded := d.forwarded + [p])];
        written := written + [Sent(if dir == 0 then 1 else 0, p)];
        return writeRet;
      }
      if |d.pending| >= MAX_PENDING {
        dirs := dirs[dir := d.(dropped := d.dropped + [p])];
        return 0;
      }
      dirs := dirs[dir := d.(pending := d.pending + [p])];
      Update();
      return 0;
    }
  }

  lemma ProcessDef(m: Module, dir: nat, p: Packet, now: int)
    requires Shaped(m) && dir < 2
    ensures !m.enabled[dir] ==> Process(m, dir, p, now) == m
    ensures m.enabled[dir] ==>
              var (o, d) := Arrive(m.dirs[dir], p, now);
              var m' := m.(dirs := m.dirs[dir := d]);
              Process(m, dir, p, now) == (if o.Queued? then UpdateHeartbeat(m') else m') && (p.len == 0 ==> m' == m)
  {
    hide UpdateHeartbeat, TryConsume;
    assert m.dirs[dir := m.dirs[dir]] == m.dirs;
  }

  lemma ShapedDirs(m: Module)
    requires ModuleInv(m)
    ensures |m.dirs| == 2 && |m.enabled| == 2
  {
    hide Inv, Armed;
  }
}
