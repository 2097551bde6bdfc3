/** The end-to-end theorem: what comes out is what went in. */
module EndToEndRuns {
  import opened Bytes
  import opened SplitHeader
  import opened Merge
  import opened SplitMerge
  import opened Lanes
  import opened EndToEnd
  import opened EndToEndSplit
  import SplitContext

  // ----- Whole runs -----

  lemma StepKeeps(cfg: Config, a: System, b: System)
    requires ConfigOk(cfg) && SysInv(cfg, a) && Step(cfg, a, b)
    ensures SysInv(cfg, b)
  {
    hide SysInv;
    if x :| Push(cfg, a, b, x) {
      PushKeeps(cfg, a, b, x);
    } else if y, port :| Encode(cfg, a, b, y, port) {
      if a.client[0].level < cfg.s {
        EncodePacketKeeps(cfg, a, b, y, port);
      } else {
        EncodeChunkKeeps(cfg, a, b, y, port);
      }
    } else if chunks, writes, r, m :| Split(cfg, a, b, chunks, writes, r, m) {
      SplitKeeps(cfg, a, b, chunks, writes, r, m);
    } else if k :| Deliver(cfg, a, b, k) {
      DeliverKeeps(cfg, a, b, k);
    } else if Decode(cfg, a, b) {
      if a.server[0].level < cfg.s {
        DecodePacketKeeps(cfg, a, b);
      } else {
        DecodeChunkKeeps(cfg, a, b);
      }
    } else {
      MergeKeeps(cfg, a, b);
    }
  }

  lemma {:induction false} SystemInv(cfg: Config, trace: seq<System>, n: nat)
    requires ConfigOk(cfg) && SystemRun(cfg, trace) && n < |trace|
    ensures SysInv(cfg, trace[n])
  {
    hide SysInv, Step;
    if n == 0 {
      StartInv(cfg);
    } else {
      SystemInv(cfg, trace, n - 1);
      StepKeeps(cfg, trace[n - 1], trace[n - 1 + 1]);
    }
  }

  lemma InvPrefix(cfg: Config, a: System)
    requires ConfigOk(cfg) && SysInv(cfg, a)
    ensures a.emitted <= a.pushed
  {
    var u := Undone(cfg, a.traffic);
    hide Outward, Inward, Undone, Inv, ClientChunks, ServerChunks, WireChunks, Covered;
    assert a.emitted <= u[..a.merge.expPkt] <= u <= a.pushed;
  }

  lemma QuietGot(cfg: Config, a: System)
    requires Quiet(a) && Covered(cfg, a)
    ensures forall i, k :: IsChunk(a.traffic, i, k) ==> (i, k) in a.got
  {
    forall i, k | IsChunk(a.traffic, i, k)
      ensures (i, k) in a.got
    {
      assert Somewhere(cfg, a, (i, k));
    }
  }

  lemma InvComplete(cfg: Config, a: System)
    requires ConfigOk(cfg) && SysInv(cfg, a) && Quiet(a) && |a.pushed| <= LAST_PACKET
    ensures a.emitted == a.pushed
  {
    OutwardEmpty(cfg.dec, cfg.s);
    InwardEmpty(cfg.dec, cfg.s);
    var u := Undone(cfg, a.traffic);
    assert u + [] == u && a.emitted + [] == a.emitted;
    InvLeading(a.traffic, a.got, a.merge);
    QuietGot(cfg, a);
    assert a.merge.expPkt == |a.traffic|;
    assert u[..a.merge.expPkt] == u;
  }

  /** End to end: for all codecs with an inverse, any cutting into chunks, any packets and any order of events
      in which chunks reach the merging side within its window, the packets emitted are at every moment a
      prefix of the packets pushed, and all of them once nothing is left on the way. */
  lemma EndToEndExact(cfg: Config, trace: seq<System>, n: nat)
    requires ConfigOk(cfg) && SystemRun(cfg, trace) && n < |trace|
    ensures trace[n].emitted <= trace[n].pushed
    ensures Quiet(trace[n]) && |trace[n].pushed| <= LAST_PACKET ==> trace[n].emitted == trace[n].pushed
  {
    hide SysInv, Step;
    SystemInv(cfg, trace, n);
    InvPrefix(cfg, trace[n]);
    if Quiet(trace[n]) && |trace[n].pushed| <= LAST_PACKET {
      InvComplete(cfg, trace[n]);
    }
  }

  const Single := Config(1, 0, 1, [(z: Bytestring) => z])

  /** Such runs exist: every packet gets through a chain of just `split`. */
  lemma OnePacketArrives(x: Bytestring) returns (trace: seq<System>)
    requires x != []
    ensures ConfigOk(Single) && SystemRun(Single, trace) && |trace| == 5
    ensures trace[4].pushed == [x] && Quiet(trace[4]) && trace[4].emitted == [x]
  {
    var w := SplitContext.Write(1, ChunkBytes(0, false, 0, x));
    var a1 := Start.(pushed := [x], client := [Task(0, x, (0, 0))]);
    var a2 := a1.(client := [], wires := [Sent(1, w.data, (0, 0))], traffic := [[x]], pktSeq := 1, rr := 1);
    var a3 := a2.(wires := [], server := [Task(0, w.data, (0, 0))]);
    var (t, out) := Receive(a3.merge, w.data);
    var a4 := a3.(server := [], merge := t, got := {(0, 0)}, emitted := out);
    trace := [Start, a1, a2, a3, a4];
    hide Receive, ChunkBytes;
    assert Push(Single, Start, a1, x);
    FirstSplit(a1, a2, x, w);
    assert Deliver(Single, a2, a3, 0);
    assert MergeOne(Single, a3, a4);
    EndToEndExact(Single, trace, 4);
  }

  lemma FirstSplit(a: System, b: System, x: Bytestring, w: SplitContext.Write)
    requires a == Start.(pushed := [x], client := [Task(0, x, (0, 0))]) &&
             w == SplitContext.Write(1, ChunkBytes(0, false, 0, x))
    requires b == a.(client := [], wires := [Sent(1, w.data, (0, 0))], traffic := [[x]], pktSeq := 1, rr := 1)
    ensures Split(Single, a, b, [x], [w], [], [Sent(1, w.data, (0, 0))])
  {
    FlattenSnoc([], x);
    assert [] + [x] == [x];
    assert Flatten([x]) == x;
    hide ChunkBytes, Flatten;
    assert SplitContext.SplitWrites(0, 0, 1, 0, [x], false, [w]);
    assert ChunkSends(0, [w], [Sent(1, w.data, (0, 0))]);
    hide SplitContext.SplitWrites, ChunkSends;
    assert a.client[1..] + [] == [];
    assert a.wires + [Sent(1, w.data, (0, 0))] == b.wires && a.traffic + [[x]] == b.traffic;
  }
}
