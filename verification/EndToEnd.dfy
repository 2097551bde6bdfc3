/** A client chain in direction 0, the connections, and an identical server chain in direction 1, as one
    system: what comes out is what went in. Modules are told apart by their index in the configuration here;
    `ChainFlow` shows that the trees of module copies behave like this. */
module EndToEnd {
  import opened Bytes
  import opened SplitHeader
  import opened Merge
  import opened SplitMerge
  import opened Lanes
  import SplitContext

  /** The modules: `n` of them, number `s` is `split` with `outputs` outputs, and each other one is a codec of
      which only the decoder is fixed: the encoder may write anything that decodes to its input. */
  datatype Config = Config(n: nat, s: nat, outputs: nat, dec: seq<Decoder>)

  predicate ConfigOk(cfg: Config)
  {
    cfg.s < cfg.n == |cfg.dec| && cfg.outputs >= 1
  }

  /** A message on one of the connections. */
  datatype Sent = Sent(port: nat, data: Bytestring, id: Id)

  /** `client` and `server` are the queues of the two thread pools. `pushed`, `traffic` and `got` are history:
      the packets pushed, the chunks into which the packets split so far were cut, and the chunks that have
      reached the merging side. */
  datatype System = System(
    pushed: seq<Bytestring>, client: seq<Task>, pktSeq: u32, rr: u32, traffic: Traffic,
    wires: seq<Sent>,
    server: seq<Task>, merge: State, got: set<Id>, emitted: seq<Bytestring>)

  const Start := System([], [], 0, 0, [], [], [], INIT, {}, [])

  // ----- Steps -----

  /** A packet of the application. */
  predicate Push(cfg: Config, a: System, b: System, x: Bytestring)
  {
    x != [] && b == a.(pushed := a.pushed + [x], client := a.client + [Task(0, x, (0, 0))])
  }

  /** The client's worker runs a codec, which writes `y`. */
  predicate Encode(cfg: Config, a: System, b: System, y: Bytestring, port: nat)
    requires ConfigOk(cfg)
  {
    && a.client != []
    && var x := a.client[0];
    && x.level < cfg.n && x.level != cfg.s
    && y != [] && cfg.dec[x.level](y) == x.data
    && if x.level + 1 < cfg.n then b == a.(client := a.client[1..] + [Task(x.level + 1, y, x.id)])
       else b == a.(client := a.client[1..], wires := a.wires + [Sent(port, y, x.id)])
  }

  /** The tasks, or the messages, that the writes of `split` for packet number `i` become. */
  predicate ChunkTasks(cfg: Config, i: nat, writes: seq<SplitContext.Write>, r: seq<Task>)
  {
    |r| == |writes| && forall k :: 0 <= k < |r| ==> r[k] == Task(cfg.s + 1, writes[k].data, (i, k))
  }

  predicate ChunkSends(i: nat, writes: seq<SplitContext.Write>, m: seq<Sent>)
  {
    |m| == |writes| && forall k :: 0 <= k < |m| ==> m[k].data == writes[k].data && m[k].id == (i, k)
  }

  /** The client's worker runs `split`, which cuts the packet in any way it likes. */
  predicate Split(cfg: Config, a: System, b: System, chunks: seq<Bytestring>, writes: seq<SplitContext.Write>,
                  r: seq<Task>, m: seq<Sent>)
    requires ConfigOk(cfg)
  {
    && a.client != [] && a.client[0].level == cfg.s
    && Flatten(chunks) == a.client[0].data && 1 <= |chunks| <= 65536
    && SplitContext.SplitWrites(a.pktSeq, a.rr, cfg.outputs, 0, chunks, false, writes)
    && (if cfg.s + 1 < cfg.n then ChunkTasks(cfg, |a.traffic|, writes, r) && m == []
        else ChunkSends(|a.traffic|, writes, m) && r == [])
    && b == a.(client := a.client[1..] + r, wires := a.wires + m, traffic := a.traffic + [chunks],
               pktSeq := (a.pktSeq + 1) % TWO_32, rr := (a.rr + |chunks|) % TWO_32)
  }

  /** Any message on its way may arrive next. */
  predicate Deliver(cfg: Config, a: System, b: System, k: nat)
    requires ConfigOk(cfg)
  {
    && k < |a.wires|
    && b == a.(wires := a.wires[..k] + a.wires[k + 1..],
               server := a.server + [Task(cfg.n - 1, a.wires[k].data, a.wires[k].id)])
  }

  /** The server's worker runs a codec. */
  predicate Decode(cfg: Config, a: System, b: System)
    requires ConfigOk(cfg)
  {
    && a.server != []
    && var x := a.server[0];
    && x.level < cfg.n && x.level != cfg.s
    && var y := cfg.dec[x.level](x.data);
    && if x.level > 0 then b == a.(server := a.server[1..] + [Task(x.level - 1, y, x.id)])
       else b == a.(server := a.server[1..], emitted := a.emitted + [y])
  }

  /** The packets that `split` writes when merging become tasks of the previous module. */
  function PacketTasks(level: nat, packets: seq<Bytestring>): seq<Task>
  {
    seq(|packets|, i requires 0 <= i < |packets| => Task(level, packets[i], (0, 0)))
  }

  /** The server's worker runs `split` on a chunk. */
  ghost predicate MergeAny(cfg: Config, a: System, b: System)
    requires ConfigOk(cfg)
  {
    && a.server != [] && a.server[0].level == cfg.s
    && var (t, out) := Receive(a.merge, a.server[0].data);
    && var c := a.(merge := t, got := a.got + {a.server[0].id});
    && if cfg.s > 0 then b == c.(server := a.server[1..] + PacketTasks(cfg.s - 1, out))
       else b == c.(server := a.server[1..], emitted := a.emitted + out)
  }

  /** ... that is within the window. */
  ghost predicate MergeOne(cfg: Config, a: System, b: System)
    requires ConfigOk(cfg)
  {
    MergeAny(cfg, a, b) && InWindow(a.merge.expPkt, a.server[0].id.0)
  }

  ghost predicate Step(cfg: Config, a: System, b: System)
    requires ConfigOk(cfg)
  {
    || (exists x :: Push(cfg, a, b, x))
    || (exists y, port :: Encode(cfg, a, b, y, port))
    || (exists chunks, writes, r, m :: Split(cfg, a, b, chunks, writes, r, m))
    || (exists k :: Deliver(cfg, a, b, k))
    || Decode(cfg, a, b)
    || MergeOne(cfg, a, b)
  }

  ghost predicate SystemRun(cfg: Config, trace: seq<System>)
    requires ConfigOk(cfg)
  {
    && |trace| >= 1 && trace[0] == Start
    && forall i :: 0 <= i < |trace| - 1 ==> Step(cfg, trace[i], trace[i + 1])
  }

  /** Nothing left on the way. */
  predicate Quiet(a: System)
  {
    a.client == [] && a.wires == [] && a.server == []
  }

  // ----- The invariant -----

  /** The packets cut so far, as they were pushed. */
  function Undone(cfg: Config, c: Traffic): (r: seq<Bytestring>)
    requires ConfigOk(cfg)
    ensures |r| == |c|
  {
    seq(|c|, i requires 0 <= i < |c| => Undo(cfg.dec, 0, cfg.s, Flatten(c[i])))
  }

  /** Nothing is lost, duplicated or reordered before the cut. */
  predicate ClientOk(cfg: Config, a: System)
    requires ConfigOk(cfg)
  {
    Undone(cfg, a.traffic) + Outward(cfg.dec, a.client, cfg.s) == a.pushed
  }

  /** ... nor after the packets are put together again. */
  predicate ServerOk(cfg: Config, a: System)
    requires ConfigOk(cfg)
  {
    && a.merge.expPkt <= |a.traffic|
    && a.emitted + Inward(cfg.dec, a.server, cfg.s) == Undone(cfg, a.traffic)[..a.merge.expPkt]
  }

  /** `y`, encoded by the modules after `split` and below `hi`, is a chunk that was sent. */
  predicate IsMsg(cfg: Config, c: Traffic, hi: nat, y: Bytestring, id: Id)
    requires ConfigOk(cfg) && ValidTraffic(c) && hi <= cfg.n
  {
    IsChunk(c, id.0, id.1) && Undo(cfg.dec, cfg.s + 1, hi, y) == Msg(c, id.0, id.1)
  }

  /** In between, every message is a chunk in its stage of encoding. */
  predicate ClientChunks(cfg: Config, c: Traffic, q: seq<Task>)
    requires ConfigOk(cfg) && ValidTraffic(c)
  {
    forall i :: 0 <= i < |q| ==>
      q[i].level < cfg.n && (q[i].level > cfg.s ==> IsMsg(cfg, c, q[i].level, q[i].data, q[i].id))
  }

  predicate WireChunks(cfg: Config, c: Traffic, w: seq<Sent>)
    requires ConfigOk(cfg) && ValidTraffic(c)
  {
    forall i :: 0 <= i < |w| ==> IsMsg(cfg, c, cfg.n, w[i].data, w[i].id)
  }

  predicate ServerChunks(cfg: Config, c: Traffic, q: seq<Task>)
    requires ConfigOk(cfg) && ValidTraffic(c)
  {
    forall i :: 0 <= i < |q| ==>
      q[i].level < cfg.n && (q[i].level >= cfg.s ==> IsMsg(cfg, c, q[i].level + 1, q[i].data, q[i].id))
  }

  predicate InTasks(q: seq<Task>, lo: nat, id: Id)
  {
    exists i :: 0 <= i < |q| && q[i].level >= lo && q[i].id == id
  }

  predicate InWires(w: seq<Sent>, id: Id)
  {
    exists i :: 0 <= i < |w| && w[i].id == id
  }

  /** Where a chunk is. */
  predicate Somewhere(cfg: Config, a: System, id: Id)
  {
    id in a.got || InTasks(a.client, cfg.s + 1, id) || InWires(a.wires, id) || InTasks(a.server, cfg.s, id)
  }

  ghost predicate Covered(cfg: Config, a: System)
  {
    forall i, k :: IsChunk(a.traffic, i, k) ==> Somewhere(cfg, a, (i, k))
  }

  ghost predicate SysInv(cfg: Config, a: System)
    requires ConfigOk(cfg)
  {
    && ValidTraffic(a.traffic)
    && a.pktSeq == |a.traffic| % TWO_32
    && ClientOk(cfg, a)
    && ServerOk(cfg, a)
    && ClientChunks(cfg, a.traffic, a.client)
    && WireChunks(cfg, a.traffic, a.wires)
    && ServerChunks(cfg, a.traffic, a.server)
    && ValidIds(a.traffic, a.got)
    && Inv(a.traffic, a.got, a.merge) && TakeTurn(a.merge).Done?
    && Covered(cfg, a)
  }

  lemma StartInv(cfg: Config)
    requires ConfigOk(cfg)
    ensures SysInv(cfg, Start)
  {
    OutwardEmpty(cfg.dec, cfg.s);
    InwardEmpty(cfg.dec, cfg.s);
  }

  // ----- Where chunks are -----

  lemma InTasksConcat(q: seq<Task>, r: seq<Task>, lo: nat, id: Id)
    ensures InTasks(q + r, lo, id) <==> InTasks(q, lo, id) || InTasks(r, lo, id)
  {
    if InTasks(q, lo, id) {
      var i :| 0 <= i < |q| && q[i].level >= lo && q[i].id == id;
      assert (q + r)[i] == q[i];
    }
    if InTasks(r, lo, id) {
      var i :| 0 <= i < |r| && r[i].level >= lo && r[i].id == id;
      assert (q + r)[|q| + i] == r[i];
    }
    if InTasks(q + r, lo, id) {
      var i :| 0 <= i < |q + r| && (q + r)[i].level >= lo && (q + r)[i].id == id;
      assert (q + r)[i] == if i < |q| then q[i] else r[i - |q|];
    }
  }

  lemma InTasksPop(q: seq<Task>, r: seq<Task>, lo: nat, id: Id)
    requires q != []
    ensures InTasks(q, lo, id) ==> (q[0].level >= lo && q[0].id == id) || InTasks(q[1..] + r, lo, id)
    ensures InTasks(r, lo, id) ==> InTasks(q[1..] + r, lo, id)
  {
    InTasksConcat(q[1..], r, lo, id);
    InTasksConcat([q[0]], q[1..], lo, id);
    assert q == [q[0]] + q[1..];
  }

  lemma InTasksOne(x: Task, lo: nat)
    requires x.level >= lo
    ensures InTasks([x], lo, x.id)
  {
    assert [x][0] == x;
  }

  lemma InWiresConcat(w: seq<Sent>, v: seq<Sent>, id: Id)
    ensures InWires(w + v, id) <==> InWires(w, id) || InWires(v, id)
  {
    if InWires(w, id) {
      var i :| 0 <= i < |w| && w[i].id == id;
      assert (w + v)[i] == w[i];
    }
    if InWires(v, id) {
      var i :| 0 <= i < |v| && v[i].id == id;
      assert (w + v)[|w| + i] == v[i];
    }
    if InWires(w + v, id) {
      var i :| 0 <= i < |w + v| && (w + v)[i].id == id;
      assert (w + v)[i] == if i < |w| then w[i] else v[i - |w|];
    }
  }

  lemma InWiresOne(x: Sent)
    ensures InWires([x], x.id)
  {
    assert [x][0] == x;
  }

  // ----- The application pushes -----

  lemma PushKeeps(cfg: Config, a: System, b: System, x: Bytestring)
    requires ConfigOk(cfg) && SysInv(cfg, a) && Push(cfg, a, b, x)
    ensures SysInv(cfg, b)
  {
    var y := Task(0, x, (0, 0));
    OutwardPush(cfg.dec, a.client, y, cfg.s);
    assert ClientOk(cfg, b) by {
      hide Outward, Undone;
      assert Undone(cfg, a.traffic) + (Outward(cfg.dec, a.client, cfg.s) + [x]) == a.pushed + [x];
    }
    hide Outward, Inward, Inv, TakeTurn, Undone, IsMsg, IsChunk;
    forall i, k | IsChunk(b.traffic, i, k)
      ensures Somewhere(cfg, b, (i, k))
    {
      assert Somewhere(cfg, a, (i, k));
      InTasksConcat(a.client, [y], cfg.s + 1, (i, k));
    }
  }

  // ----- The client's codecs -----

  lemma UndoOne(cfg: Config, lo: nat, hi: nat, y: Bytestring)
    requires ConfigOk(cfg) && lo <= hi < cfg.n
    ensures Undo(cfg.dec, lo, hi + 1, y) == Undo(cfg.dec, lo, hi, cfg.dec[hi](y))
  {
  }

  lemma EncodePacketKeeps(cfg: Config, a: System, b: System, y: Bytestring, port: nat)
    requires ConfigOk(cfg) && SysInv(cfg, a) && Encode(cfg, a, b, y, port) && a.client[0].level < cfg.s
    ensures SysInv(cfg, b)
  {
    hide Outward, Inward, Inv, TakeTurn, Undone, IsMsg, Undo, ClientChunks, WireChunks, ServerChunks, Covered,
      ValidIds, ValidTraffic;
    var x := a.client[0];
    var z := Task(x.level + 1, y, x.id);
    UndoOne(cfg, 0, x.level, y);
    OutwardHop(cfg.dec, a.client, z, cfg.s);
    EncodedPacket(cfg, a, b, z);
  }

  lemma EncodedPacket(cfg: Config, a: System, b: System, z: Task)
    requires ConfigOk(cfg) && ValidTraffic(a.traffic) && ClientChunks(cfg, a.traffic, a.client) && Covered(cfg, a)
    requires a.client != [] && a.client[0].level < cfg.s && z.level <= cfg.s && b == a.(client := a.client[1..] + [z])
    ensures ClientChunks(cfg, b.traffic, b.client) && Covered(cfg, b)
  {
    hide IsMsg, IsChunk;
    forall i, k | IsChunk(b.traffic, i, k)
      ensures Somewhere(cfg, b, (i, k))
    {
      assert Somewhere(cfg, a, (i, k));
      InTasksPop(a.client, [z], cfg.s + 1, (i, k));
    }
  }

  lemma EncodeChunkKeeps(cfg: Config, a: System, b: System, y: Bytestring, port: nat)
    requires ConfigOk(cfg) && SysInv(cfg, a) && Encode(cfg, a, b, y, port) && a.client[0].level > cfg.s
    ensures SysInv(cfg, b)
  {
    hide Outward, Inward, Inv, TakeTurn, Undone, IsMsg, IsChunk, Undo, ClientChunks, WireChunks, ServerChunks,
      Covered, ValidIds, ValidTraffic;
    var x := a.client[0];
    FrontEncoded(cfg, a.traffic, a.client, y);
    if x.level + 1 < cfg.n {
      var z := Task(x.level + 1, y, x.id);
      NoneRight(a.wires);
      EncodedChunk(cfg, a, b, [z], []);
      OutwardBelow(cfg.dec, a.client, [z], cfg.s);
    } else {
      NoneRight(a.client[1..]);
      EncodedChunk(cfg, a, b, [], [Sent(port, y, x.id)]);
      OutwardBelow(cfg.dec, a.client, [], cfg.s);
    }
  }

  lemma FrontEncoded(cfg: Config, c: Traffic, q: seq<Task>, y: Bytestring)
    requires ConfigOk(cfg) && ValidTraffic(c) && ClientChunks(cfg, c, q) && q != [] && cfg.s < q[0].level < cfg.n
    requires cfg.dec[q[0].level](y) == q[0].data
    ensures IsMsg(cfg, c, q[0].level + 1, y, q[0].id)
  {
    UndoOne(cfg, cfg.s + 1, q[0].level, y);
    assert IsMsg(cfg, c, q[0].level, q[0].data, q[0].id);
    hide Undo, Msg;
  }

  lemma EncodedChunk(cfg: Config, a: System, b: System, r: seq<Task>, m: seq<Sent>)
    requires ConfigOk(cfg) && ValidTraffic(a.traffic) && ClientChunks(cfg, a.traffic, a.client) &&
             WireChunks(cfg, a.traffic, a.wires)
    requires Covered(cfg, a) && a.client != [] && a.client[0].level > cfg.s
    requires b == a.(client := a.client[1..] + r, wires := a.wires + m)
    requires (r == [] && |m| == 1 && m[0].id == a.client[0].id && IsMsg(cfg, a.traffic, cfg.n, m[0].data, m[0].id)) ||
             (|r| == 1 && m == [] && cfg.s < r[0].level < cfg.n && r[0].id == a.client[0].id &&
              IsMsg(cfg, a.traffic, r[0].level, r[0].data, r[0].id))
    ensures ClientChunks(cfg, b.traffic, b.client) && WireChunks(cfg, b.traffic, b.wires) && Covered(cfg, b)
  {
    hide IsMsg, IsChunk;
    forall i, k | IsChunk(b.traffic, i, k)
      ensures Somewhere(cfg, b, (i, k))
    {
      assert Somewhere(cfg, a, (i, k));
      ChunkMoves(cfg, a, b, r, m, (i, k));
    }
  }

  lemma ChunkMoves(cfg: Config, a: System, b: System, r: seq<Task>, m: seq<Sent>, id: Id)
    requires Somewhere(cfg, a, id) && a.client != [] && a.client[0].level > cfg.s
    requires b == a.(client := a.client[1..] + r, wires := a.wires + m)
    requires (r == [] && |m| == 1 && m[0].id == a.client[0].id) ||
             (|r| == 1 && r[0].level > cfg.s && r[0].id == a.client[0].id)
    ensures Somewhere(cfg, b, id)
  {
    hide InTasks, InWires;
    InTasksPop(a.client, r, cfg.s + 1, id);
    InWiresConcat(a.wires, m, id);
    if |r| == 1 {
      InTasksOne(r[0], cfg.s + 1);
      assert r == [r[0]];
    } else {
      InWiresOne(m[0]);
      assert m == [m[0]];
    }
  }

  // ----- The connections -----

  lemma DeliverKeeps(cfg: Config, a: System, b: System, k: nat)
    requires ConfigOk(cfg) && SysInv(cfg, a) && Deliver(cfg, a, b, k)
    ensures SysInv(cfg, b)
  {
    hide Outward, Inward, Inv, TakeTurn, Undone, IsMsg, Undo, ClientChunks, WireChunks, ServerChunks, Covered,
      ValidIds, ValidTraffic;
    var m := a.wires[k];
    var z := Task(cfg.n - 1, m.data, m.id);
    InwardAdd(cfg.dec, a.server, [z], cfg.s);
    Delivered(cfg, a, b, k, z);
  }

  lemma Delivered(cfg: Config, a: System, b: System, k: nat, z: Task)
    requires ConfigOk(cfg) && ValidTraffic(a.traffic) && WireChunks(cfg, a.traffic, a.wires)
    requires ServerChunks(cfg, a.traffic, a.server) && Covered(cfg, a)
    requires k < |a.wires| && z == Task(cfg.n - 1, a.wires[k].data, a.wires[k].id)
    requires b == a.(wires := a.wires[..k] + a.wires[k + 1..], server := a.server + [z])
    ensures WireChunks(cfg, b.traffic, b.wires) && ServerChunks(cfg, b.traffic, b.server) && Covered(cfg, b)
  {
    hide IsMsg, IsChunk;
    forall i, j | IsChunk(b.traffic, i, j)
      ensures Somewhere(cfg, b, (i, j))
    {
      assert Somewhere(cfg, a, (i, j));
      MessageMoves(cfg, a, b, k, z, (i, j));
    }
  }

  lemma MessageMoves(cfg: Config, a: System, b: System, k: nat, z: Task, id: Id)
    requires Somewhere(cfg, a, id) && k < |a.wires| && z.level >= cfg.s && z.id == a.wires[k].id
    requires b == a.(wires := a.wires[..k] + a.wires[k + 1..], server := a.server + [z])
    ensures Somewhere(cfg, b, id)
  {
    hide InTasks, InWires;
    InTasksConcat(a.server, [z], cfg.s, id);
    InTasksOne(z, cfg.s);
    var l, r, x := a.wires[..k], a.wires[k + 1..], [a.wires[k]];
    assert a.wires == l + (x + r);
    InWiresConcat(l, r, id);
    InWiresConcat(x, r, id);
    InWiresConcat(l, x + r, id);
    if InWires(x, id) {
      OneWire(a.wires[k], id);
    }
  }

  lemma OneWire(x: Sent, id: Id)
    requires InWires([x], id)
    ensures x.id == id
  {
  }

  // ----- The server's codecs -----

  lemma DecodeChunkKeeps(cfg: Config, a: System, b: System)
    requires ConfigOk(cfg) && SysInv(cfg, a) && Decode(cfg, a, b) && a.server[0].level > cfg.s
    ensures SysInv(cfg, b)
  {
    hide Outward, Inward, Inv, TakeTurn, Undone, IsChunk, IsMsg, Undo, ClientChunks, WireChunks, ServerChunks,
      Covered, ValidIds;
    var x := a.server[0];
    var z := Task(x.level - 1, cfg.dec[x.level](x.data), x.id);
    FrontDecoded(cfg, a.traffic, a.server);
    InwardBelow(cfg.dec, a.server, [z], cfg.s);
    assert b == a.(server := a.server[1..] + [z]);
    hide Decode;
    DecodedChunk(cfg, a, b, z);
  }

  lemma FrontDecoded(cfg: Config, c: Traffic, q: seq<Task>)
    requires ConfigOk(cfg) && ValidTraffic(c) && ServerChunks(cfg, c, q) && q != [] && q[0].level > cfg.s
    ensures q[0].level < cfg.n && IsMsg(cfg, c, q[0].level, cfg.dec[q[0].level](q[0].data), q[0].id)
  {
    var x := q[0];
    UndoOne(cfg, cfg.s + 1, x.level, x.data);
    assert IsMsg(cfg, c, x.level + 1, x.data, x.id);
    hide Undo, Msg;
  }

  lemma DecodedChunk(cfg: Config, a: System, b: System, z: Task)
    requires ConfigOk(cfg) && ValidTraffic(a.traffic) && ServerChunks(cfg, a.traffic, a.server) && Covered(cfg, a)
    requires a.server != [] && a.server[0].level > cfg.s && cfg.s <= z.level < cfg.n && z.id == a.server[0].id
    requires IsMsg(cfg, a.traffic, z.level + 1, z.data, z.id) && b == a.(server := a.server[1..] + [z])
    ensures ServerChunks(cfg, b.traffic, b.server) && Covered(cfg, b)
  {
    hide IsMsg, IsChunk;
    forall i, k | IsChunk(b.traffic, i, k)
      ensures Somewhere(cfg, b, (i, k))
    {
      assert Somewhere(cfg, a, (i, k));
      hide InTasks, InWires;
      InTasksPop(a.server, [z], cfg.s, (i, k));
      InTasksOne(z, cfg.s);
    }
  }

  /** A packet decoded by module 0 is the next one to come out; one decoded by a later module stays in line. */
  lemma ExitOrder(cfg: Config, emitted: seq<Bytestring>, q: seq<Task>)
    requires ConfigOk(cfg) && q != [] && q[0].level == 0 < cfg.s
    ensures emitted + Inward(cfg.dec, q, cfg.s) == emitted + [cfg.dec[0](q[0].data)] + Inward(cfg.dec, q[1..], cfg.s)
  {
    UndoOne(cfg, 0, 0, q[0].data);
    var y := cfg.dec[0](q[0].data);
    assert Undo(cfg.dec, 0, 0, y) == y;
    hide Inward, Undo;
    InwardExit(cfg.dec, q, cfg.s);
    Assoc(emitted, [y], Inward(cfg.dec, q[1..], cfg.s));
  }

  lemma HopOrder(cfg: Config, q: seq<Task>, z: Task)
    requires ConfigOk(cfg) && q != [] && z.level + 1 == q[0].level < cfg.s && z.data == cfg.dec[q[0].level](q[0].data)
    ensures Inward(cfg.dec, q[1..] + [z], cfg.s) == Inward(cfg.dec, q, cfg.s)
  {
    UndoOne(cfg, 0, q[0].level, q[0].data);
    hide Inward, Undo;
    InwardHop(cfg.dec, q, z, cfg.s);
  }

  lemma DecodePacketKeeps(cfg: Config, a: System, b: System)
    requires ConfigOk(cfg) && SysInv(cfg, a) && Decode(cfg, a, b) && a.server[0].level < cfg.s
    ensures SysInv(cfg, b)
  {
    hide Outward, Inward, Inv, TakeTurn, Undone, IsMsg, IsChunk, Undo, ClientChunks, WireChunks, ServerChunks,
      Covered, ValidIds;
    var x := a.server[0];
    var y := cfg.dec[x.level](x.data);
    var r: seq<Task> := if x.level > 0 then [Task(x.level - 1, y, x.id)] else [];
    if x.level > 0 {
      HopOrder(cfg, a.server, Task(x.level - 1, y, x.id));
    } else {
      ExitOrder(cfg, a.emitted, a.server);
      assert a.server[1..] + r == a.server[1..];
    }
    assert b.server == a.server[1..] + r && b.traffic == a.traffic && b.got == a.got && b.client == a.client &&
           b.wires == a.wires;
    assert ServerOk(cfg, b);
    hide ServerOk, Decode;
    DecodedChunks(cfg, a, b, r);
  }

  lemma MergeServer(cfg: Config, a: System, b: System, r: seq<Task>)
    requires ConfigOk(cfg) && ValidTraffic(a.traffic) && ServerChunks(cfg, a.traffic, a.server) && a.server != []
    requires b.server == a.server[1..] + r && b.traffic == a.traffic && forall i :: 0 <= i < |r| ==> r[i].level < cfg.s
    ensures ServerChunks(cfg, b.traffic, b.server)
  {
    hide IsMsg;
  }

  lemma DecodedChunks(cfg: Config, a: System, b: System, r: seq<Task>)
    requires ConfigOk(cfg) && ValidTraffic(a.traffic) && ServerChunks(cfg, a.traffic, a.server) && Covered(cfg, a)
    requires a.server != [] && a.server[0].level < cfg.s && forall i :: 0 <= i < |r| ==> r[i].level < cfg.s
    requires b.server == a.server[1..] + r && b.traffic == a.traffic && b.got == a.got && b.client == a.client &&
             b.wires == a.wires
    ensures ServerChunks(cfg, b.traffic, b.server) && Covered(cfg, b)
  {
    MergeServer(cfg, a, b, r);
    hide IsMsg, ServerChunks, IsChunk;
    forall i, k | IsChunk(b.traffic, i, k)
      ensures Somewhere(cfg, b, (i, k))
    {
      assert Somewhere(cfg, a, (i, k));
      InTasksPop(a.server, r, cfg.s, (i, k));
    }
  }
}
