/** The split module's code performs the steps of the end-to-end system: one call of `process_split` is a `Split`
    step of `ChainFlow`, one call of `process_merge` a `MergeOne` step, with the same counters and the same table. */
module SplitSteps {
  import opened Bytes
  import opened SplitHeader
  import opened ChainFlow
  import opened ChainTree
  import Merge
  import ChainObject
  import ChainRun
  import SplitContext
  import SplitMerge

  /** The context has the counters of the client's side of the system. */
  ghost predicate Splitting(p: Pair, a: Flow, ctx: SplitContext.Context)
    reads ctx
  {
    && p.s < |p.extra| && ctx.Configured() && ctx.numOutputs == 1 + p.extra[p.s]
    && ctx.pktSeq == a.pktSeq && ctx.rrIdx == a.rr && ctx.chunkIdx == 0
  }

  /** A packet at the front of the client's queue, at the copy of `split`, with all allocations successful. */
  method DoSplit(p: Pair, ghost a: Flow, data: Bytestring, ctx: SplitContext.Context)
    returns (ghost b: Flow, ghost chunks: seq<Bytestring>, ghost writes: seq<SplitContext.Write>, ghost port: nat)
    requires PairOk(p) && Splitting(p, a, ctx)
    requires a.client != [] && In(p.client, a.client[0].mod) && p.client.nodes[a.client[0].mod].cfg == p.s
    requires data == a.client[0].data && 1 <= |data| <= SplitContext.INT_MAX
    modifies ctx
    ensures Split(p, a, b, chunks, writes, port) && Splitting(p, b, ctx)
    ensures ctx.written == old(ctx.written) + writes
  {
    hide ChainObject.Finished, SplitContext.SplitWrites, Flatten, RouteJobs, RouteSends, SplitContext.Outs,
      SplitContext.InTurn;
    var done;
    chunks, done := ctx.ProcessSplit(data, _ => true);
    assert done;
    writes := ctx.written[|old(ctx.written)|..];
    ghost var v := a.client[0].mod;
    port := if p.client.nodes[v].wireDst >= 0 then p.client.nodes[v].wireDst else 0;
    b := a.(client := a.client[1..] + RouteJobs(p.client, v, |a.traffic|, writes),
            wires := a.wires + RouteSends(p.client, v, port, |a.traffic|, writes),
            traffic := a.traffic + [chunks],
            pktSeq := ctx.pktSeq, rr := ctx.rrIdx);
  }

  /** A chunk at the front of the server's queue, at the copy of `split`. */
  method DoMerge(p: Pair, ghost a: Flow, data: Bytestring, ctx: SplitContext.Context) returns (ghost b: Flow)
    requires PairOk(p) && ctx.MergeState() == a.merge
    requires a.server != [] && In(p.server, a.server[0].mod) && p.server.nodes[a.server[0].mod].cfg == p.s
    requires data == a.server[0].data && InWindow(a.merge.expPkt, a.server[0].id.0)
    requires SplitMerge.Accepted(a.merge, data) ==> Merge.Ends(SplitMerge.File(a.merge, data))
    modifies ctx
    ensures MergeOne(p, a, b) && ctx.MergeState() == b.merge
    ensures ctx.written == old(ctx.written) + SplitContext.ToOutput0(SplitMerge.Receive(a.merge, data).1)
  {
    hide ChainObject.Finished, ChainRun.Neighbour, SplitMerge.Receive, PacketJobs, SplitContext.ToOutput0;
    ghost var (t, out) := SplitMerge.Receive(a.merge, data);
    ctx.ProcessMerge(data);
    ghost var w := ChainRun.Neighbour(p.server, a.server[0].mod, 0);
    ghost var c := a.(merge := t, got := a.got + {a.server[0].id}, server := a.server[1..]);
    b := if w >= 0 then c.(server := a.server[1..] + PacketJobs(w, out)) else c.(emitted := a.emitted + out);
  }
}
