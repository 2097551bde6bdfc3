/** A client chain in direction 0 and a server chain in direction 1 without a `split`: codecs only, on one
    connection that keeps order, with any number of workers on each side. */
module PlainChain {
  import opened Bytes
  import opened Lanes

  /** `client` and `server` are the queues of the thread pools; the tasks in hand have been taken off a queue by
      a worker that waits for the module's lock or runs the module. */
  datatype System = System(pushed: seq<Bytestring>, client: seq<Task>, clientHand: seq<Task>, wire: seq<Bytestring>,
                           server: seq<Task>, serverHand: seq<Task>, emitted: seq<Bytestring>)

  const Start := System([], [], [], [], [], [], [])

  predicate Push(a: System, b: System, x: Bytestring)
  {
    b == a.(pushed := a.pushed + [x], client := a.client + [Task(0, x, (0, 0))])
  }

  /** A free worker takes the oldest task. */
  predicate TakeClient(workers: nat, a: System, b: System)
  {
    && a.client != [] && |a.clientHand| < workers
    && b == a.(client := a.client[1..], clientHand := a.clientHand + [a.client[0]])
  }

  predicate TakeServer(workers: nat, a: System, b: System)
  {
    && a.server != [] && |a.serverHand| < workers
    && b == a.(server := a.server[1..], serverHand := a.serverHand + [a.server[0]])
  }

  function Without(hand: seq<Task>, k: nat): seq<Task>
    requires k < |hand|
  {
    hand[..k] + hand[k + 1..]
  }

  /** Any of the workers gets its module's lock next; the codec may write anything that decodes to its input. */
  predicate Encode(dec: seq<Decoder>, a: System, b: System, k: nat, y: Bytestring)
  {
    && k < |a.clientHand|
    && var x := a.clientHand[k]; var c := a.(clientHand := Without(a.clientHand, k));
    && x.level < |dec| && dec[x.level](y) == x.data
    && if x.level + 1 < |dec| then b == c.(client := a.client + [Task(x.level + 1, y, (0, 0))])
       else b == c.(wire := a.wire + [y])
  }

  predicate Deliver(dec: seq<Decoder>, a: System, b: System)
  {
    && a.wire != [] && |dec| > 0
    && b == a.(wire := a.wire[1..], server := a.server + [Task(|dec| - 1, a.wire[0], (0, 0))])
  }

  predicate Decode(dec: seq<Decoder>, a: System, b: System, k: nat)
  {
    && k < |a.serverHand|
    && var x := a.serverHand[k]; var c := a.(serverHand := Without(a.serverHand, k));
    && x.level < |dec|
    && var y := dec[x.level](x.data);
    && if x.level > 0 then b == c.(server := a.server + [Task(x.level - 1, y, (0, 0))])
       else b == c.(emitted := a.emitted + [y])
  }

  ghost predicate Step(workers: nat, dec: seq<Decoder>, a: System, b: System)
  {
    || (exists x :: Push(a, b, x))
    || TakeClient(workers, a, b)
    || (exists k, y :: Encode(dec, a, b, k, y))
    || Deliver(dec, a, b)
    || TakeServer(workers, a, b)
    || (exists k :: Decode(dec, a, b, k))
  }

  function OnWire(dec: seq<Decoder>, w: seq<Bytestring>): seq<Bytestring>
  {
    if w == [] then [] else [Undo(dec, 0, |dec|, w[0])] + OnWire(dec, w[1..])
  }

  lemma {:induction false} OnWireMore(dec: seq<Decoder>, w: seq<Bytestring>, y: Bytestring)
    ensures OnWire(dec, w + [y]) == OnWire(dec, w) + [Undo(dec, 0, |dec|, y)]
  {
    if w == [] {
      var one := [y];
      assert w + [y] == one && one[1..] == [];
    } else {
      OnWireMore(dec, w[1..], y);
      assert (w + [y])[1..] == w[1..] + [y];
    }
  }

  // ----- One worker -----

  /** The packets, from the exit backwards: emitted, with the server, on the wire, with the client. */
  predicate InLine(dec: seq<Decoder>, pushed: seq<Bytestring>, client: seq<Task>, wire: seq<Bytestring>,
                   server: seq<Task>, emitted: seq<Bytestring>)
  {
    |dec| > 0 &&
    emitted + (Inward(dec, server, |dec|) + (OnWire(dec, wire) + Outward(dec, client, |dec| - 1))) == pushed
  }

  /** A single worker's task is as good as still at the front of the queue. */
  predicate SysInv(dec: seq<Decoder>, a: System)
  {
    && |a.clientHand| <= 1 && |a.serverHand| <= 1
    && InLine(dec, a.pushed, a.clientHand + a.client, a.wire, a.serverHand + a.server, a.emitted)
  }

  lemma PushKeeps(dec: seq<Decoder>, a: System, b: System, x: Bytestring)
    requires SysInv(dec, a) && Push(a, b, x)
    ensures SysInv(dec, b)
  {
    hide Inward, Outward, OnWire;
    var q := a.clientHand + a.client;
    OutwardPush(dec, q, Task(0, x, (0, 0)), |dec| - 1);
    Assoc(a.clientHand, a.client, [Task(0, x, (0, 0))]);
    var i, w, o := Inward(dec, a.serverHand + a.server, |dec|), OnWire(dec, a.wire), Outward(dec, q, |dec| - 1);
    Assoc(w, o, [x]);
    Assoc(i, w + o, [x]);
    Assoc(a.emitted, i + (w + o), [x]);
  }

  lemma HandOver<T>(hand: seq<T>, queue: seq<T>)
    requires queue != []
    ensures (hand + [queue[0]]) + queue[1..] == hand + queue
  {
  }

  lemma UndoNext(dec: seq<Decoder>, level: nat, y: Bytestring)
    requires level < |dec|
    ensures Undo(dec, 0, level + 1, y) == Undo(dec, 0, level, dec[level](y)) && Undo(dec, 0, 0, y) == y
  {
  }

  /** The one task in hand is the front of the line. */
  lemma OnlyTask(hand: seq<Task>, queue: seq<Task>, k: nat, more: seq<Task>)
    requires k < |hand| <= 1
    ensures (hand + queue)[0] == hand[k] && Without(hand, k) == [] && (hand + queue)[1..] + more == [] + (queue + more)
    ensures (hand + queue)[1..] == [] + queue
  {
  }

  lemma EncodeKeeps(dec: seq<Decoder>, a: System, b: System, k: nat, y: Bytestring)
    requires SysInv(dec, a) && Encode(dec, a, b, k, y)
    ensures SysInv(dec, b)
  {
    hide Inward, Outward, OnWire, Undo, Without;
    var x, q := a.clientHand[k], a.clientHand + a.client;
    UndoNext(dec, x.level, y);
    OnlyTask(a.clientHand, a.client, k, [Task(x.level + 1, y, (0, 0))]);
    if x.level + 1 < |dec| {
      OutwardHop(dec, q, Task(x.level + 1, y, (0, 0)), |dec| - 1);
    } else {
      LastEncoded(dec, q, a.wire, y);
    }
  }

  lemma LastEncoded(dec: seq<Decoder>, q: seq<Task>, wire: seq<Bytestring>, y: Bytestring)
    requires q != [] && q[0].level + 1 == |dec| && Undo(dec, 0, |dec|, y) == Undo(dec, 0, |dec| - 1, q[0].data)
    ensures OnWire(dec, wire + [y]) + Outward(dec, q[1..], |dec| - 1) == OnWire(dec, wire) + Outward(dec, q, |dec| - 1)
  {
    hide *;
    OutwardPop(dec, q, [], |dec| - 1);
    NoneRight(q[1..]);
    OnWireMore(dec, wire, y);
    Assoc(OnWire(dec, wire), [Undo(dec, 0, |dec|, y)], Outward(dec, q[1..], |dec| - 1));
  }

  lemma DeliverKeeps(dec: seq<Decoder>, a: System, b: System)
    requires SysInv(dec, a) && Deliver(dec, a, b)
    ensures SysInv(dec, b)
  {
    var v := [Undo(dec, 0, |dec|, a.wire[0])];
    assert OnWire(dec, a.wire) == v + OnWire(dec, b.wire);
    hide Inward, Outward, OnWire, Undo;
    var z, q := Task(|dec| - 1, a.wire[0], (0, 0)), a.serverHand + a.server;
    InwardLast(dec, q, z);
    Assoc(a.serverHand, a.server, [z]);
    var i, w, o := Inward(dec, q, |dec|), OnWire(dec, b.wire), Outward(dec, a.clientHand + a.client, |dec| - 1);
    Assoc(v, w, o);
    Assoc(i, v, w + o);
  }

  lemma InwardLast(dec: seq<Decoder>, q: seq<Task>, z: Task)
    requires z.level + 1 == |dec|
    ensures Inward(dec, q + [z], |dec|) == Inward(dec, q, |dec|) + [Undo(dec, 0, |dec|, z.data)]
  {
    hide *;
    var n := |dec|;
    InwardDef(dec, q, n);
    InwardDef(dec, q + [z], n);
    InwardAdd(dec, q, [z], n - 1);
    WaitingConcat(dec, q, [z], n - 1, n);
    WaitingOne(dec, z, n - 1, n);
    Regroup(Inward(dec, q, n - 1), Waiting(dec, q, n - 1, n), Inward(dec, q, n), [Undo(dec, 0, n, z.data)], []);
  }

  lemma DecodeKeeps(dec: seq<Decoder>, a: System, b: System, k: nat)
    requires SysInv(dec, a) && Decode(dec, a, b, k)
    ensures SysInv(dec, b)
  {
    hide Inward, Outward, OnWire, Undo, Without;
    var x, q := a.serverHand[k], a.serverHand + a.server;
    var y := dec[x.level](x.data);
    UndoNext(dec, x.level, x.data);
    if x.level > 0 {
      OnlyTask(a.serverHand, a.server, k, [Task(x.level - 1, y, (0, 0))]);
      InwardHop(dec, q, Task(x.level - 1, y, (0, 0)), |dec|);
    } else {
      OnlyTask(a.serverHand, a.server, k, []);
      UndoNext(dec, 0, y);
      InwardExit(dec, q, |dec|);
      var rest := OnWire(dec, a.wire) + Outward(dec, a.clientHand + a.client, |dec| - 1);
      Assoc([y], Inward(dec, q[1..], |dec|), rest);
      Assoc(a.emitted, [y], Inward(dec, q[1..], |dec|) + rest);
    }
  }

  ghost predicate Run(workers: nat, dec: seq<Decoder>, trace: seq<System>)
  {
    && |trace| >= 1 && trace[0] == Start
    && forall i :: 0 <= i < |trace| - 1 ==> Step(workers, dec, trace[i], trace[i + 1])
  }

  lemma StepKeeps(workers: nat, dec: seq<Decoder>, a: System, b: System)
    requires workers <= 1 && SysInv(dec, a) && Step(workers, dec, a, b)
    ensures SysInv(dec, b)
  {
    hide InLine;
    if x :| Push(a, b, x) {
      PushKeeps(dec, a, b, x);
    } else if TakeClient(workers, a, b) {
      HandOver(a.clientHand, a.client);
    } else if k, y :| Encode(dec, a, b, k, y) {
      EncodeKeeps(dec, a, b, k, y);
    } else if Deliver(dec, a, b) {
      DeliverKeeps(dec, a, b);
    } else if TakeServer(workers, a, b) {
      HandOver(a.serverHand, a.server);
    } else {
      var k :| Decode(dec, a, b, k);
      DecodeKeeps(dec, a, b, k);
    }
  }

  lemma {:induction false} RunInv(workers: nat, dec: seq<Decoder>, trace: seq<System>, n: nat)
    requires workers <= 1 && |dec| > 0 && Run(workers, dec, trace) && n < |trace|
    ensures SysInv(dec, trace[n])
  {
    if n == 0 {
      OutwardEmpty(dec, |dec| - 1);
      InwardEmpty(dec, |dec|);
    } else {
      hide SysInv, Step;
      RunInv(workers, dec, trace, n - 1);
      StepKeeps(workers, dec, trace[n - 1], trace[n - 1 + 1]);
    }
  }

  /** Nothing left on the way. */
  predicate Quiet(a: System)
  {
    a.client == [] && a.clientHand == [] && a.wire == [] && a.server == [] && a.serverHand == []
  }

  /** End to end without a `split` and with at most one worker per side: at every moment a prefix, and
      everything once nothing is on the way. */
  lemma PlainExact(workers: nat, dec: seq<Decoder>, trace: seq<System>, n: nat)
    requires workers <= 1 && |dec| > 0 && Run(workers, dec, trace) && n < |trace|
    ensures trace[n].emitted <= trace[n].pushed
    ensures Quiet(trace[n]) ==> trace[n].emitted == trace[n].pushed
  {
    hide SysInv, Run;
    RunInv(workers, dec, trace, n);
    InvExact(dec, trace[n]);
  }

  lemma InvExact(dec: seq<Decoder>, a: System)
    requires SysInv(dec, a)
    ensures a.emitted <= a.pushed
    ensures Quiet(a) ==> a.emitted == a.pushed
  {
    OutwardEmpty(dec, |dec| - 1);
    InwardEmpty(dec, |dec|);
    hide Inward, Outward;
  }

  // ----- More workers -----

  /** Every run of every chain of codecs emits a prefix of what was pushed. */
  ghost predicate Exact(workers: nat)
  {
    forall dec: seq<Decoder>, trace: seq<System>, n: nat ::
      |dec| > 0 && Run(workers, dec, trace) && n < |trace| ==> trace[n].emitted <= trace[n].pushed
  }

  /** The states of a run in which the packet taken second gets to the module first. */
  function Moment(i: nat): System
  {
    var x, y: Bytestring := [0], [1];
    var p, q := Task(0, x, (0, 0)), Task(0, y, (0, 0));
    if i == 0 then Start
    else if i == 1 then System([x], [p], [], [], [], [], [])
    else if i == 2 then System([x, y], [p, q], [], [], [], [], [])
    else if i == 3 then System([x, y], [q], [p], [], [], [], [])
    else if i == 4 then System([x, y], [], [p, q], [], [], [], [])
    else if i == 5 then System([x, y], [], [p], [y], [], [], [])
    else if i == 6 then System([x, y], [], [p], [], [q], [], [])
    else if i == 7 then System([x, y], [], [p], [], [], [q], [])
    else System([x, y], [], [p], [], [], [], [y])
  }

  lemma MomentPush(workers: nat, dec: seq<Decoder>, i: nat)
    requires i < 2
    ensures Step(workers, dec, Moment(i), Moment(i + 1))
  {
    assert Push(Moment(i), Moment(i + 1), [i]);
    hide Moment, Push;
  }

  lemma MomentTake(workers: nat, dec: seq<Decoder>, i: nat)
    requires workers >= 2 && 2 <= i < 4
    ensures Step(workers, dec, Moment(i), Moment(i + 1))
  {
    assert TakeClient(workers, Moment(i), Moment(i + 1));
    hide Moment, TakeClient;
  }

  lemma MomentEncode(workers: nat, dec: seq<Decoder>)
    requires dec == [(z: Bytestring) => z]
    ensures Step(workers, dec, Moment(4), Moment(5))
  {
    assert Encode(dec, Moment(4), Moment(5), 1, [1]);
    hide Moment, Encode;
  }

  lemma MomentServer(workers: nat, dec: seq<Decoder>)
    requires workers >= 1 && dec == [(z: Bytestring) => z]
    ensures Step(workers, dec, Moment(5), Moment(6)) && Step(workers, dec, Moment(6), Moment(7))
    ensures Step(workers, dec, Moment(7), Moment(8))
  {
    assert Deliver(dec, Moment(5), Moment(6));
    assert TakeServer(workers, Moment(6), Moment(7));
    assert Decode(dec, Moment(7), Moment(8), 0);
    hide Moment, Deliver, TakeServer, Decode;
  }

  /** With two workers the packet taken second can be emitted first. */
  lemma Overtaking(workers: nat, dec: seq<Decoder>) returns (trace: seq<System>)
    requires workers >= 2 && dec == [(z: Bytestring) => z]
    ensures Run(workers, dec, trace) && |trace| == 9 && trace[8].emitted == [[1]] && trace[8].pushed == [[0], [1]]
  {
    hide Step;
    trace := seq(9, i requires 0 <= i < 9 => Moment(i));
    forall i | 0 <= i < 8
      ensures Step(workers, dec, trace[i], trace[i + 1])
    {
      if i < 2 {
        MomentPush(workers, dec, i);
      } else if i < 4 {
        MomentTake(workers, dec, i);
      } else {
        MomentEncode(workers, dec);
        MomentServer(workers, dec);
      }
    }
  }

  /** Order is kept in every run if and only if there is at most one worker. */
  lemma WorkersIff(workers: nat)
    ensures Exact(workers) <==> workers <= 1
  {
    hide Run;
    if workers <= 1 {
      forall dec: seq<Decoder>, trace: seq<System>, n: nat | |dec| > 0 && Run(workers, dec, trace) && n < |trace|
        ensures trace[n].emitted <= trace[n].pushed
      {
        PlainExact(workers, dec, trace, n);
      }
    } else {
      var dec: seq<Decoder> := [(z: Bytestring) => z];
      var trace := Overtaking(workers, dec);
      assert trace[8].emitted[0] != trace[8].pushed[0];
    }
  }
}
