/** The two directions of `split` keep the invariant of the end-to-end system. */
module EndToEndSplit {
  import opened Bytes
  import opened SplitHeader
  import opened Merge
  import opened SplitMerge
  import opened Lanes
  import opened EndToEnd
  import SplitContext

  // ----- Merging -----

  /** The chunk at hand is one that was sent. */
  lemma MergeMsg(cfg: Config, a: System)
    requires ConfigOk(cfg) && ValidTraffic(a.traffic) && ServerChunks(cfg, a.traffic, a.server)
    requires a.server != [] && a.server[0].level == cfg.s
    ensures var x := a.server[0]; IsChunk(a.traffic, x.id.0, x.id.1) && x.data == Msg(a.traffic, x.id.0, x.id.1)
  {
    var x := a.server[0];
    hide Msg;
    assert IsMsg(cfg, a.traffic, x.level + 1, x.data, x.id);
  }

  /** One chunk at the merging side. */
  lemma Received(cfg: Config, a: System, t: State, out: seq<Bytestring>)
    requires ConfigOk(cfg) && SysInv(cfg, a) && a.server != [] && a.server[0].level == cfg.s
    requires InWindow(a.merge.expPkt, a.server[0].id.0) && (t, out) == Receive(a.merge, a.server[0].data)
    ensures a.merge.expPkt <= t.expPkt <= |a.traffic| && out == Packets(a.traffic)[a.merge.expPkt..t.expPkt]
    ensures Inv(a.traffic, a.got + {a.server[0].id}, t) && TakeTurn(t).Done?
    ensures ValidIds(a.traffic, a.got + {a.server[0].id})
  {
    hide Receive, TakeTurn, Msg, ServerOk, ClientOk, Covered, Inv, Packets, ClientChunks, WireChunks, ServerChunks;
    var x := a.server[0];
    MergeMsg(cfg, a);
    ReceiveKeeps(a.traffic, a.got, a.merge, x.id.0, x.id.1);
    assert (x.id.0, x.id.1) == x.id;
    InvBound(a.traffic, a.got + {x.id}, t);
  }

  lemma MergeKeeps(cfg: Config, a: System, b: System)
    requires ConfigOk(cfg) && SysInv(cfg, a) && MergeOne(cfg, a, b)
    ensures SysInv(cfg, b)
  {
    hide Receive, Inv, TakeTurn, IsMsg, Outward, Inward, Covered, ServerChunks, WireChunks, ClientChunks, ValidIds,
      Undone, ValidTraffic;
    var x := a.server[0];
    var (t, out) := Receive(a.merge, x.data);
    var r: seq<Task> := if cfg.s > 0 then PacketTasks(cfg.s - 1, out) else [];
    if cfg.s == 0 {
      NoneRight(a.server[1..]);
    }
    assert b.server == a.server[1..] + r;
    Received(cfg, a, t, out);
    MergeOrder(cfg, a, b, t, out);
    MergeCovered(cfg, a, b, r);
    MergeServer(cfg, a, b, r);
  }

  lemma InvBound(c: Traffic, got: set<Id>, st: State)
    requires Inv(c, got, st)
    ensures st.expPkt <= |c|
  {
  }

  lemma MergeCovered(cfg: Config, a: System, b: System, r: seq<Task>)
    requires Covered(cfg, a) && a.server != [] && b.server == a.server[1..] + r && b.got == a.got + {a.server[0].id}
    requires b.traffic == a.traffic && b.client == a.client && b.wires == a.wires
    ensures Covered(cfg, b)
  {
    forall i, k | IsChunk(b.traffic, i, k)
      ensures Somewhere(cfg, b, (i, k))
    {
      assert Somewhere(cfg, a, (i, k));
      InTasksPop(a.server, r, cfg.s, (i, k));
    }
  }

  /** What merging writes, decoded, is the next stretch of the packets pushed. */
  lemma MergeOrder(cfg: Config, a: System, b: System, t: State, out: seq<Bytestring>)
    requires ConfigOk(cfg) && MergeOne(cfg, a, b) && ServerOk(cfg, a) && (t, out) == Receive(a.merge, a.server[0].data)
    requires a.merge.expPkt <= t.expPkt <= |a.traffic| && out == Packets(a.traffic)[a.merge.expPkt..t.expPkt]
    ensures ServerOk(cfg, b)
  {
    hide Receive, Inward, Undone, Undo, Waiting, PacketTasks, Packets;
    var u := Undone(cfg, a.traffic);
    var v := u[a.merge.expPkt..t.expPkt];
    Adjacent(u, a.merge.expPkt, t.expPkt);
    if cfg.s > 0 {
      MergedTasks(cfg, a.traffic, a.server, a.merge.expPkt, t.expPkt);
      Assoc(a.emitted, Inward(cfg.dec, a.server, cfg.s), v);
    } else {
      InwardNone(cfg.dec, a.server);
      InwardNone(cfg.dec, b.server);
      MergedPackets(cfg, a.traffic);
      assert out == v;
      assert a.emitted + [] == a.emitted && (a.emitted + v) + [] == a.emitted + v;
    }
  }

  lemma Adjacent<T>(u: seq<T>, i: nat, j: nat)
    requires i <= j <= |u|
    ensures u[..i] + u[i..j] == u[..j]
  {
  }

  lemma MergedPackets(cfg: Config, c: Traffic)
    requires ConfigOk(cfg) && cfg.s == 0
    ensures Packets(c) == Undone(cfg, c)
  {
  }

  lemma MergedTasks(cfg: Config, c: Traffic, q: seq<Task>, i: nat, j: nat)
    requires ConfigOk(cfg) && cfg.s > 0 && i <= j <= |c| && q != [] && q[0].level == cfg.s
    ensures Inward(cfg.dec, q[1..] + PacketTasks(cfg.s - 1, Packets(c)[i..j]), cfg.s)
            == Inward(cfg.dec, q, cfg.s) + Undone(cfg, c)[i..j]
  {
    var r, v := PacketTasks(cfg.s - 1, Packets(c)[i..j]), Undone(cfg, c)[i..j];
    forall k | 0 <= k < j - i
      ensures r[k].level == cfg.s - 1 && Undo(cfg.dec, 0, cfg.s, r[k].data) == v[k]
    {
      hide Undo, Flatten;
    }
    hide Inward, Undone, Undo, Waiting, PacketTasks;
    InwardJoin(cfg.dec, q, r, cfg.s);
    WaitingAll(cfg.dec, r, cfg.s - 1, cfg.s, v);
  }

  lemma InwardNone(dec: seq<Decoder>, q: seq<Task>)
    ensures Inward(dec, q, 0) == []
  {
  }

  // ----- Splitting -----

  /** Chunks already sent are not touched by later packets. */
  lemma TrafficGrows(cfg: Config, c: Traffic, chunks: seq<Bytestring>, i: nat, k: nat)
    requires ValidTraffic(c) && 1 <= |chunks| <= 65536 && IsChunk(c, i, k)
    ensures ValidTraffic(c + [chunks]) && IsChunk(c + [chunks], i, k) && Msg(c + [chunks], i, k) == Msg(c, i, k)
    ensures SlotOf(c + [chunks], i, k) == SlotOf(c, i, k)
  {
  }

  lemma InvGrows(c: Traffic, got: set<Id>, st: State, chunks: seq<Bytestring>)
    requires ValidTraffic(c) && 1 <= |chunks| <= 65536 && Inv(c, got, st)
    ensures Inv(c + [chunks], got, st)
  {
    var d := c + [chunks];
    assert forall i :: 0 <= i < |c| ==> d[i] == c[i];
    hide ChunkBytes;
  }

  lemma MsgsGrow(cfg: Config, c: Traffic, chunks: seq<Bytestring>)
    requires ConfigOk(cfg) && ValidTraffic(c) && 1 <= |chunks| <= 65536
    ensures ValidTraffic(c + [chunks])
    ensures forall hi: nat, y, id :: hi <= cfg.n && IsMsg(cfg, c, hi, y, id) ==> IsMsg(cfg, c + [chunks], hi, y, id)
  {
    forall hi: nat, y, id | hi <= cfg.n && IsMsg(cfg, c, hi, y, id)
      ensures ValidTraffic(c + [chunks]) && IsMsg(cfg, c + [chunks], hi, y, id)
    {
      TrafficGrows(cfg, c, chunks, id.0, id.1);
    }
  }

  /** What `split` writes are the messages that merging understands. */
  lemma SplitMessages(cfg: Config, a: System, chunks: seq<Bytestring>, writes: seq<SplitContext.Write>, k: nat)
    requires ConfigOk(cfg) && ValidTraffic(a.traffic) && a.pktSeq == |a.traffic| % TWO_32 && 1 <= |chunks| <= 65536
    requires SplitContext.SplitWrites(a.pktSeq, a.rr, cfg.outputs, 0, chunks, false, writes) && k < |chunks|
    ensures ValidTraffic(a.traffic + [chunks])
    ensures IsMsg(cfg, a.traffic + [chunks], cfg.s + 1, writes[k].data, (|a.traffic|, k))
  {
    var c := a.traffic + [chunks];
    assert c[|a.traffic|] == chunks;
    SplitContext.WritesAreMessages(c, |a.traffic|, a.rr, cfg.outputs, writes, k);
  }

  lemma SplitClient(cfg: Config, a: System, b: System, chunks: seq<Bytestring>, writes: seq<SplitContext.Write>,
                    r: seq<Task>, m: seq<Sent>)
    requires ConfigOk(cfg) && SysInv(cfg, a) && Split(cfg, a, b, chunks, writes, r, m)
    ensures ValidTraffic(b.traffic) && ClientChunks(cfg, b.traffic, b.client) && WireChunks(cfg, b.traffic, b.wires)
    ensures ServerChunks(cfg, b.traffic, b.server)
  {
    MsgsGrow(cfg, a.traffic, chunks);
    forall k | 0 <= k < |chunks|
      ensures IsMsg(cfg, a.traffic + [chunks], cfg.s + 1, writes[k].data, (|a.traffic|, k))
    {
      SplitMessages(cfg, a, chunks, writes, k);
    }
    hide Outward, Inward, Inv, TakeTurn, Undone, IsMsg, Undo, Msg, IsChunk, ClientOk, ServerOk, Covered, ValidIds,
      Somewhere;
  }

  lemma UndoneMore(cfg: Config, c: Traffic, chunks: seq<Bytestring>, m: nat)
    requires ConfigOk(cfg) && m <= |c|
    ensures Undone(cfg, c + [chunks]) == Undone(cfg, c) + [Undo(cfg.dec, 0, cfg.s, Flatten(chunks))]
    ensures Undone(cfg, c + [chunks])[..m] == Undone(cfg, c)[..m]
  {
    hide Undo, Flatten;
  }

  lemma SplitOrder(cfg: Config, a: System, b: System, chunks: seq<Bytestring>, writes: seq<SplitContext.Write>,
                   r: seq<Task>, m: seq<Sent>)
    requires ConfigOk(cfg) && ClientOk(cfg, a) && ServerOk(cfg, a) && Split(cfg, a, b, chunks, writes, r, m)
    ensures ClientOk(cfg, b) && ServerOk(cfg, b)
  {
    hide Outward, Inward, Undone, Undo, Flatten;
    var u := Undone(cfg, a.traffic);
    var v := [Undo(cfg.dec, 0, cfg.s, a.client[0].data)];
    UndoneMore(cfg, a.traffic, chunks, a.merge.expPkt);
    assert forall i :: 0 <= i < |r| ==> r[i].level > cfg.s;
    assert b.client == a.client[1..] + r && b.pushed == a.pushed && b.traffic == a.traffic + [chunks];
    assert b.merge == a.merge && b.server == a.server && b.emitted == a.emitted;
    hide Split;
    OutwardPop(cfg.dec, a.client, r, cfg.s);
    assert (u + v) + Outward(cfg.dec, b.client, cfg.s) == u + (v + Outward(cfg.dec, b.client, cfg.s));
  }

  lemma SplitCovered(cfg: Config, a: System, b: System, chunks: seq<Bytestring>, writes: seq<SplitContext.Write>,
                     r: seq<Task>, m: seq<Sent>)
    requires ConfigOk(cfg) && Covered(cfg, a) && Split(cfg, a, b, chunks, writes, r, m)
    ensures Covered(cfg, b)
  {
    forall i, k | IsChunk(b.traffic, i, k)
      ensures Somewhere(cfg, b, (i, k))
    {
      InTasksPop(a.client, r, cfg.s + 1, (i, k));
      InWiresConcat(a.wires, m, (i, k));
      if i < |a.traffic| {
        assert IsChunk(a.traffic, i, k);
        assert Somewhere(cfg, a, (i, k));
      } else if cfg.s + 1 < cfg.n {
        assert r[k].level >= cfg.s + 1 && r[k].id == (i, k);
        assert InTasks(r, cfg.s + 1, (i, k));
      } else {
        assert m[k].id == (i, k);
        assert InWires(m, (i, k));
      }
    }
  }

  lemma SplitKeeps(cfg: Config, a: System, b: System, chunks: seq<Bytestring>, writes: seq<SplitContext.Write>,
                   r: seq<Task>, m: seq<Sent>)
    requires ConfigOk(cfg) && SysInv(cfg, a) && Split(cfg, a, b, chunks, writes, r, m)
    ensures SysInv(cfg, b)
  {
    hide Inv, TakeTurn, ClientOk, ServerOk, ClientChunks, ServerChunks, WireChunks, Covered, ValidTraffic, ValidIds,
      SplitContext.SplitWrites, ChunkTasks, ChunkSends, Flatten;
    SplitClient(cfg, a, b, chunks, writes, r, m);
    SplitOrder(cfg, a, b, chunks, writes, r, m);
    SplitCovered(cfg, a, b, chunks, writes, r, m);
    InvGrows(a.traffic, a.got, a.merge, chunks);
    IdsGrow(a.traffic, chunks, a.got);
    NextPacket(|a.traffic|);
  }

  lemma IdsGrow(c: Traffic, chunks: seq<Bytestring>, got: set<Id>)
    requires ValidIds(c, got)
    ensures ValidIds(c + [chunks], got)
  {
  }

  lemma NextPacket(n: nat)
    ensures (n % TWO_32 + 1) % TWO_32 == (n + 1) % TWO_32
  {
  }
}
