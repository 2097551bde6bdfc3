/** Ordered delivery of control messages over several connections (`send_control` and `deliver_control` in
    client/client.cpp and server/session.cpp): 8-bit sequence numbers and a 256-slot reorder table. */
module ControlSeq {
  import opened Bytes
  import opened Arithmetic

  const SLOTS: int := 256

  type u8 = x: int | 0 <= x < 256

  // ----- The receiver -----

  /** `slots` are the valid entries of the reorder table; `applied` logs the messages applied. */
  datatype Receiver<T> = Receiver(exp: u8, slots: map<int, T>, applied: seq<T>)

  /** The drain loop. */
  function Drain<T>(r: Receiver<T>): (r': Receiver<T>)
    ensures r'.exp !in r'.slots
    decreases |r.slots|
  {
    if r.exp in r.slots then
      assert |r.slots - {r.exp}| < |r.slots| by { RemoveOne(r.slots, r.exp); }
      Drain(Receiver((r.exp + 1) % SLOTS, r.slots - {r.exp}, r.applied + [r.slots[r.exp]]))
    else r
  }

  lemma RemoveOne<T>(m: map<int, T>, k: int)
    requires k in m
    ensures |m - {k}| < |m|
  {
    var rest := m - {k};
    assert m.Keys == rest.Keys + {k};
  }

  /** `deliver_control`. */
  function Deliver<T>(r: Receiver<T>, seqNo: u8, msg: T): Receiver<T>
  {
    if seqNo == r.exp then Drain(Receiver((r.exp + 1) % SLOTS, r.slots, r.applied + [msg]))
    else r.(slots := r.slots[seqNo := msg])
  }

  class ControlReceiver<T(0)> {
    var expControlSeq: u8
    const pending: array<T>
    const pendingValid: array<bool>
    var applied: seq<T>

    ghost predicate Valid()
      reads this
    {
      pending.Length == SLOTS && pendingValid.Length == SLOTS && pending as object != pendingValid as object
    }

    ghost function View(): Receiver<T>
      requires Valid()
      reads this, pending, pendingValid
    {
      Receiver(expControlSeq, map s | 0 <= s < SLOTS && pendingValid[s] :: pending[s], applied)
    }

    constructor ()
      ensures Valid() && fresh(pending) && fresh(pendingValid)
      ensures View() == Receiver(0, map[], [])
    {
      expControlSeq, applied := 0, [];
      pending := new T[SLOTS];
      pendingValid := new bool[SLOTS](_ => false);
    }

    /** `deliver_control`, with its two fixed tables. */
    method DeliverControl(seqNo: u8, msg: T)
      requires Valid()
      modifies this, pending, pendingValid
      ensures Valid() && View() == Deliver(old(View()), seqNo, msg)
    {
      ghost var r := View();
      if seqNo == expControlSeq {
        applied := applied + [msg];
        expControlSeq := (expControlSeq + 1) % SLOTS;
        assert View() == Receiver((r.exp + 1) % SLOTS, r.slots, r.applied + [msg]);
        DrainPending();
      } else {
        pending[seqNo] := msg;
        pendingValid[seqNo] := true;
        assert View().slots == r.slots[seqNo := msg];
      }
    }

    method DrainPending()
      requires Valid()
      modifies this, pending, pendingValid
      ensures Valid() && View() == Drain(old(View()))
    {
      ghost var start := View();
      while pendingValid[expControlSeq]
        invariant Valid() && Drain(View()) == Drain(start)
        decreases |View().slots|
      {
        ghost var v := View();
        RemoveOne(v.slots, v.exp);
        applied := applied + [pending[expControlSeq]];
        pendingValid[expControlSeq] := false;
        expControlSeq := (expControlSeq + 1) % SLOTS;
        assert View() == Receiver((v.exp + 1) % SLOTS, v.slots - {v.exp}, v.applied + [v.slots[v.exp]]);
      }
      assert View().exp !in View().slots;
    }
  }

  // ----- The sender -----

  datatype Conn<T> = Conn(alive: bool, queue: seq<(u8, T)>)

  /** Index number `i` in turn after `start`, that is `(start + i) % n`. */
  function Turn(start: nat, i: nat, n: nat): (t: nat)
    requires start < n && i < n
    ensures t < n && t == (start + i) % n
  {
    TurnMod(start + i, n);
    if start + i < n then start + i else start + i - n
  }

  lemma TurnMod(x: nat, n: nat)
    requires 0 < n && x < 2 * n
    ensures x % n == if x < n then x else x - n
  {
  }

  /** The first live connection in turn is `steps` after `start`. */
  predicate FirstLive<T>(conns: seq<Conn<T>>, start: nat, steps: nat)
    requires start < |conns|
  {
    && steps < |conns| && conns[Turn(start, steps, |conns|)].alive
    && forall i :: 0 <= i < steps ==> !conns[Turn(start, i, |conns|)].alive
  }

  predicate AnyLive<T>(conns: seq<Conn<T>>)
  {
    exists i :: 0 <= i < |conns| && conns[i].alive
  }

  lemma NoneInTurn<T>(conns: seq<Conn<T>>, start: nat)
    requires start < |conns| && forall i :: 0 <= i < |conns| ==> !conns[Turn(start, i, |conns|)].alive
    ensures !AnyLive(conns)
  {
    var n := |conns|;
    forall i | 0 <= i < n
      ensures !conns[i].alive
    {
      var j := if i >= start then i - start else i - start + n;
      hide Turn;
      TurnMod(start + j, n);
      assert Turn(start, j, n) == i;
    }
  }

  class ControlSender<T> {
    var controlSeq: u8
    var rrCounter: nat
    var conns: seq<Conn<T>>

    constructor (conns: seq<Conn<T>>)
      ensures controlSeq == 0 && rrCounter == 0 && this.conns == conns
    {
      controlSeq, rrCounter, this.conns := 0, 0, conns;
    }

    /** `send_control`: the message goes to the first live connection in turn and nowhere else. Without a
        live connection it is dropped, though its number is used up. */
    method SendControl(msg: T) returns (chosen: int, ghost steps: nat)
      modifies this
      ensures controlSeq == (old(controlSeq) + 1) % SLOTS
      ensures |conns| == |old(conns)| && rrCounter == old(rrCounter) + (if |conns| == 0 then 0 else 1)
      ensures chosen == -1 <==> !AnyLive(old(conns))
      ensures chosen == -1 ==> conns == old(conns)
      ensures chosen != -1 ==>
                && |conns| > 0 && FirstLive(old(conns), old(rrCounter) % |conns|, steps)
                && chosen == Turn(old(rrCounter) % |conns|, steps, |conns|)
                && conns == old(conns)[chosen := Conn(true, old(conns)[chosen].queue + [(old(controlSeq), msg)])]
    {
      var seqNo := controlSeq;
      controlSeq := (controlSeq + 1) % SLOTS;
      chosen, steps := -1, 0;
      var n := |conns|;
      if n == 0 {
        return;
      }
      var start := rrCounter % n;
      rrCounter := rrCounter + 1;
      hide Turn, AnyLive;
      var i := 0;
      while i < n
        invariant 0 <= i <= n && conns == old(conns) && controlSeq == (old(controlSeq) + 1) % SLOTS
        invariant rrCounter == old(rrCounter) + 1
        invariant forall j :: 0 <= j < i ==> !conns[Turn(start, j, n)].alive
      {
        var idx := Turn(start, i, n);
        if conns[idx].alive {
          SomeLive(conns, idx);
          conns := conns[idx := Conn(true, conns[idx].queue + [(seqNo, msg)])];
          return idx, i;
        }
        i := i + 1;
      }
      NoneInTurn(conns, start);
    }
  }

  lemma SomeLive<T>(conns: seq<Conn<T>>, i: nat)
    requires i < |conns| && conns[i].alive
    ensures AnyLive(conns)
  {
  }

  predicate AllLive<T>(conns: seq<Conn<T>>)
  {
    forall i :: 0 <= i < |conns| ==> conns[i].alive
  }

  lemma FirstOfAll<T>(conns: seq<Conn<T>>, start: nat, steps: nat)
    requires start < |conns| && AllLive(conns) && FirstLive(conns, start, steps)
    ensures steps == 0 && Turn(start, steps, |conns|) == start
  {
    hide Turn;
    assert conns[Turn(start, 0, |conns|)].alive;
    TurnMod(start, |conns|);
  }

  /** With all connections live two messages sent one after the other go to neighbouring connections, the last
      being followed by the first: `steps` and `steps'` are how far the two calls look on from the counter. */
  lemma Neighbours<T>(conns: seq<Conn<T>>, conns': seq<Conn<T>>, rr: nat, steps: nat, steps': nat)
    requires |conns| == |conns'| > 0 && AllLive(conns) && AllLive(conns')
    requires FirstLive(conns, rr % |conns|, steps) && FirstLive(conns', (rr + 1) % |conns|, steps')
    ensures var n := |conns|; var first := Turn(rr % n, steps, n);
            Turn((rr + 1) % n, steps', n) == if first == n - 1 then 0 else first + 1
  {
    hide Turn, FirstLive;
    FirstOfAll(conns, rr % |conns|, steps);
    FirstOfAll(conns', (rr + 1) % |conns|, steps');
    ModNext(rr, |conns|);
  }

  // ----- Both ends -----

  /** A control message in flight; `idx` is the history of its place among the messages sent. */
  datatype Item<T> = Item(idx: nat, seqNo: u8, msg: T)

  /** `flight` holds the messages on their way, on whatever connection. */
  datatype Net<T> = Net(sent: seq<T>, flight: seq<Item<T>>, rcv: Receiver<Item<T>>)

  function Start<T>(): Net<T>
  {
    Net([], [], Receiver(0, map[], []))
  }

  /** A message is sent, or the `at`-th one in flight arrives: any order at all, and so every interleaving
      of connections that are each first in first out. */
  datatype Event<T> = Send(msg: T) | Arrive(at: nat)

  function Apply<T>(n: Net<T>, e: Event<T>): Net<T>
  {
    match e
    case Send(m) =>
      n.(sent := n.sent + [m], flight := n.flight + [Item(|n.sent|, |n.sent| % SLOTS, m)])
    case Arrive(at) =>
      if at < |n.flight| then
        var x := n.flight[at];
        n.(flight := n.flight[..at] + n.flight[at + 1..], rcv := Deliver(n.rcv, x.seqNo, x))
      else n
  }

  function Run<T>(n: Net<T>, es: seq<Event<T>>): Net<T>
    decreases |es|
  {
    if es == [] then n else Run(Apply(n, es[0]), es[1..])
  }

  /** At most 256 messages are sent and not yet applied. */
  predicate Paced<T>(n: Net<T>, es: seq<Event<T>>)
    decreases |es|
  {
    es == [] ||
    ((es[0].Send? ==> |n.sent| - |n.rcv.applied| < SLOTS) && Paced(Apply(n, es[0]), es[1..]))
  }

  /** `x` is message number `x.idx`, still to be applied by a receiver that has applied `k`. */
  predicate Genuine<T(==)>(sent: seq<T>, k: nat, x: Item<T>)
  {
    k <= x.idx < |sent| && x.seqNo == x.idx % SLOTS && x.msg == sent[x.idx]
  }

  predicate AppliedPrefix<T(==)>(sent: seq<T>, applied: seq<Item<T>>)
  {
    |applied| <= |sent| && forall i :: 0 <= i < |applied| ==> applied[i].msg == sent[i]
  }

  predicate SlotsGenuine<T(==)>(sent: seq<T>, r: Receiver<Item<T>>)
  {
    forall s :: s in r.slots ==> Genuine(sent, |r.applied|, r.slots[s]) && r.slots[s].seqNo == s
  }

  predicate ReceiverOk<T(==)>(sent: seq<T>, r: Receiver<Item<T>>)
  {
    && AppliedPrefix(sent, r.applied) && |sent| <= |r.applied| + SLOTS
    && r.exp == |r.applied| % SLOTS
    && SlotsGenuine(sent, r)
  }

  predicate FlightOk<T(==)>(sent: seq<T>, flight: seq<Item<T>>, r: Receiver<Item<T>>)
  {
    && (forall a :: 0 <= a < |flight| ==> Genuine(sent, |r.applied|, flight[a]) && flight[a].seqNo !in r.slots)
    && (forall a, b :: 0 <= a < b < |flight| ==> flight[a].idx != flight[b].idx)
  }

  /** Message number `i` is in flight or in the table. */
  predicate Somewhere<T>(flight: seq<Item<T>>, r: Receiver<Item<T>>, i: nat)
  {
    (exists a :: 0 <= a < |flight| && flight[a].idx == i) || (i % SLOTS in r.slots && r.slots[i % SLOTS].idx == i)
  }

  ghost predicate NoneLost<T(!new)>(sent: seq<T>, flight: seq<Item<T>>, r: Receiver<Item<T>>)
  {
    forall i: nat :: |r.applied| <= i < |sent| ==> Somewhere(flight, r, i)
  }

  ghost predicate Inv<T(!new)>(n: Net<T>)
  {
    ReceiverOk(n.sent, n.rcv) && FlightOk(n.sent, n.flight, n.rcv) && NoneLost(n.sent, n.flight, n.rcv)
  }

  /** Among 256 consecutive numbers the low 8 bits tell all apart. */
  lemma SameSlot(k: nat, i: nat, j: nat)
    requires k <= i < k + SLOTS && k <= j < k + SLOTS && i % SLOTS == j % SLOTS
    ensures i == j
  {
  }

  lemma NextSlot(k: nat)
    ensures (k % SLOTS + 1) % SLOTS == (k + 1) % SLOTS
  {
  }

  /** One turn of the drain loop applies the very next message. */
  lemma DrainTurn<T(!new)>(sent: seq<T>, flight: seq<Item<T>>, r: Receiver<Item<T>>)
    requires ReceiverOk(sent, r) && FlightOk(sent, flight, r) && NoneLost(sent, flight, r) && r.exp in r.slots
    ensures var r' := Receiver((r.exp + 1) % SLOTS, r.slots - {r.exp}, r.applied + [r.slots[r.exp]]);
            ReceiverOk(sent, r') && FlightOk(sent, flight, r') && NoneLost(sent, flight, r')
  {
    var k, x := |r.applied|, r.slots[r.exp];
    SameSlot(k, k, x.idx);
    var r' := Receiver((r.exp + 1) % SLOTS, r.slots - {r.exp}, r.applied + [x]);
    NextSlot(k);
    forall s | s in r'.slots
      ensures Genuine(sent, k + 1, r'.slots[s])
    {
      assert r.slots[s].idx != k;
    }
    forall a | 0 <= a < |flight|
      ensures Genuine(sent, k + 1, flight[a])
    {
      assert flight[a].idx != k;
    }
    forall i: nat | k + 1 <= i < |sent|
      ensures Somewhere(flight, r', i)
    {
      assert Somewhere(flight, r, i);
      if i % SLOTS == r.exp {
        SameSlot(k, k, i);
      }
    }
  }

  lemma {:induction false} DrainKeeps<T(!new)>(sent: seq<T>, flight: seq<Item<T>>, r: Receiver<Item<T>>)
    requires ReceiverOk(sent, r) && FlightOk(sent, flight, r) && NoneLost(sent, flight, r)
    ensures var r' := Drain(r); ReceiverOk(sent, r') && FlightOk(sent, flight, r') && NoneLost(sent, flight, r')
    decreases |r.slots|
  {
    hide ReceiverOk, FlightOk, NoneLost;
    if r.exp in r.slots {
      DrainTurn(sent, flight, r);
      RemoveOne(r.slots, r.exp);
      DrainKeeps(sent, flight, Receiver((r.exp + 1) % SLOTS, r.slots - {r.exp}, r.applied + [r.slots[r.exp]]));
    }
  }

  lemma SendKeeps<T(!new)>(n: Net<T>, m: T)
    requires Inv(n) && |n.sent| - |n.rcv.applied| < SLOTS
    ensures Inv(Apply(n, Send(m)))
  {
    var k, i := |n.rcv.applied|, |n.sent|;
    var n' := Apply(n, Send(m));
    forall s | s in n.rcv.slots
      ensures Genuine(n'.sent, k, n.rcv.slots[s]) && s != i % SLOTS
    {
      if s == i % SLOTS {
        SameSlot(k, n.rcv.slots[s].idx, i);
      }
    }
    forall j: nat | k <= j < |n'.sent|
      ensures Somewhere(n'.flight, n.rcv, j)
    {
      if j < i {
        assert Somewhere(n.flight, n.rcv, j);
        if a :| 0 <= a < |n.flight| && n.flight[a].idx == j {
          assert n'.flight[a].idx == j;
        }
      } else {
        assert n'.flight[|n.flight|].idx == j;
      }
    }
  }

  function Without<T>(flight: seq<T>, at: nat): seq<T>
    requires at < |flight|
  {
    flight[..at] + flight[at + 1..]
  }

  lemma WithoutIndex<T>(flight: seq<T>, at: nat, a: nat)
    requires at < |flight| && a < |flight| && a != at
    ensures var b := if a < at then a else a - 1; b < |Without(flight, at)| && Without(flight, at)[b] == flight[a]
  {
  }

  /** The receiver just before the drain loop, or after the message has been put in the table. */
  function Place<T>(r: Receiver<T>, seqNo: u8, msg: T): Receiver<T>
  {
    if seqNo == r.exp then Receiver((r.exp + 1) % SLOTS, r.slots, r.applied + [msg])
    else r.(slots := r.slots[seqNo := msg])
  }

  lemma PlaceReceiver<T(!new)>(n: Net<T>, at: nat)
    requires Inv(n) && at < |n.flight|
    ensures var x := n.flight[at]; ReceiverOk(n.sent, Place(n.rcv, x.seqNo, x))
    ensures var x := n.flight[at]; x.seqNo == n.rcv.exp <==> x.idx == |n.rcv.applied|
  {
    var k, x := |n.rcv.applied|, n.flight[at];
    if x.seqNo == n.rcv.exp {
      SameSlot(k, k, x.idx);
      NextSlot(k);
      forall s | s in n.rcv.slots
        ensures Genuine(n.sent, k + 1, n.rcv.slots[s])
      {
        assert n.rcv.slots[s].idx != k;
      }
    }
  }

  lemma PlaceFlight<T(!new)>(n: Net<T>, at: nat)
    requires Inv(n) && at < |n.flight|
    ensures var x := n.flight[at]; FlightOk(n.sent, Without(n.flight, at), Place(n.rcv, x.seqNo, x))
  {
    var k, x, rest := |n.rcv.applied|, n.flight[at], Without(n.flight, at);
    PlaceReceiver(n, at);
    forall b | 0 <= b < |rest|
      ensures rest[b].idx != x.idx && rest[b].seqNo != x.seqNo && rest[b] in n.flight
    {
      var a := if b < at then b else b + 1;
      assert rest[b] == n.flight[a];
      if rest[b].seqNo == x.seqNo {
        SameSlot(k, rest[b].idx, x.idx);
      }
    }
  }

  lemma PlaceNoneLost<T(!new)>(n: Net<T>, at: nat)
    requires Inv(n) && at < |n.flight|
    ensures var x := n.flight[at]; NoneLost(n.sent, Without(n.flight, at), Place(n.rcv, x.seqNo, x))
  {
    var k, x, rest := |n.rcv.applied|, n.flight[at], Without(n.flight, at);
    PlaceReceiver(n, at);
    var r := Place(n.rcv, x.seqNo, x);
    forall i: nat | |r.applied| <= i < |n.sent|
      ensures Somewhere(rest, r, i)
    {
      assert Somewhere(n.flight, n.rcv, i);
      if a :| 0 <= a < |n.flight| && n.flight[a].idx == i {
        if a != at {
          WithoutIndex(n.flight, at, a);
        }
      } else {
        assert x.seqNo !in n.rcv.slots;
      }
    }
  }

  lemma ApplyKeeps<T(!new)>(n: Net<T>, e: Event<T>)
    requires Inv(n) && (e.Send? ==> |n.sent| - |n.rcv.applied| < SLOTS)
    ensures Inv(Apply(n, e))
  {
    match e
    case Send(m) =>
      SendKeeps(n, m);
    case Arrive(at) =>
      if at < |n.flight| {
        var x := n.flight[at];
        PlaceReceiver(n, at);
        PlaceFlight(n, at);
        PlaceNoneLost(n, at);
        hide ReceiverOk, FlightOk, NoneLost;
        if x.seqNo == n.rcv.exp {
          DrainKeeps(n.sent, Without(n.flight, at), Place(n.rcv, x.seqNo, x));
        }
      }
  }

  lemma ApplyDrained<T>(n: Net<T>, e: Event<T>)
    requires n.rcv.exp !in n.rcv.slots
    ensures Apply(n, e).rcv.exp !in Apply(n, e).rcv.slots
  {
  }

  lemma {:induction false} RunKeeps<T(!new)>(n: Net<T>, es: seq<Event<T>>)
    requires Inv(n) && n.rcv.exp !in n.rcv.slots && Paced(n, es)
    ensures Inv(Run(n, es)) && Run(n, es).rcv.exp !in Run(n, es).rcv.slots
    decreases |es|
  {
    if es != [] {
      ApplyKeeps(n, es[0]);
      ApplyDrained(n, es[0]);
      RunKeeps(Apply(n, es[0]), es[1..]);
    }
  }

  /** For every order of arrival, with at most 256 messages sent and not yet applied: what has been applied
      is always a prefix of what was sent, and all of it once nothing is in flight. */
  lemma ControlExact<T(!new)>(es: seq<Event<T>>)
    requires Paced(Start<T>(), es)
    ensures var n := Run(Start<T>(), es);
            && AppliedPrefix(n.sent, n.rcv.applied)
            && (n.flight == [] ==> |n.rcv.applied| == |n.sent|)
  {
    assert Inv(Start<T>());
    RunKeeps(Start<T>(), es);
    var n := Run(Start<T>(), es);
    if |n.rcv.applied| < |n.sent| {
      assert Somewhere(n.flight, n.rcv, |n.rcv.applied|);
    }
  }

  /** A message that does not arrive, such as one for which `send_control` found no live connection, stops the
      receiver: whatever else arrives, nothing from its number on is applied, and everything before it is once
      it alone is missing. */
  lemma LostStalls<T(!new)>(es: seq<Event<T>>, a: nat)
    requires Paced(Start<T>(), es) && a < |Run(Start<T>(), es).flight|
    ensures var n := Run(Start<T>(), es);
            && |n.rcv.applied| <= n.flight[a].idx < |n.sent|
            && (|n.flight| == 1 ==> |n.rcv.applied| == n.flight[0].idx)
  {
    assert Inv(Start<T>());
    RunKeeps(Start<T>(), es);
    var n := Run(Start<T>(), es);
    assert Genuine(n.sent, |n.rcv.applied|, n.flight[a]);
    assert Somewhere(n.flight, n.rcv, |n.rcv.applied|);
  }

  function Sends<T>(ms: seq<T>): seq<Event<T>>
  {
    if ms == [] then [] else [Send(ms[0])] + Sends(ms[1..])
  }

  /** What is in flight after the messages `ms` have been sent. */
  function Flight<T>(from: nat, ms: seq<T>): (f: seq<Item<T>>)
    ensures |f| == |ms|
    decreases |ms|
  {
    if ms == [] then [] else [Item(from, from % SLOTS, ms[0])] + Flight(from + 1, ms[1..])
  }

  lemma {:induction false} FlightAt<T>(from: nat, ms: seq<T>, i: nat)
    requires i < |ms|
    ensures Flight(from, ms)[i] == Item(from + i, (from + i) % SLOTS, ms[i])
    decreases i
  {
    if i > 0 {
      FlightAt(from + 1, ms[1..], i - 1);
    }
  }

  lemma SendStep<T>(n: Net<T>, ms: seq<T>, more: seq<Event<T>>)
    requires ms != []
    ensures Run(n, Sends(ms) + more) == Run(Apply(n, Send(ms[0])), Sends(ms[1..]) + more)
  {
    hide Deliver;
    var es := Sends(ms) + more;
    assert es[0] == Send(ms[0]) && es[1..] == Sends(ms[1..]) + more;
  }

  lemma SendFlight<T>(n: Net<T>, ms: seq<T>)
    requires ms != []
    ensures var n1 := Apply(n, Send(ms[0]));
            && n1.sent + ms[1..] == n.sent + ms && n1.rcv == n.rcv
            && n1.flight + Flight(|n1.sent|, ms[1..]) == n.flight + Flight(|n.sent|, ms)
  {
    hide Deliver;
    var x, f := Item(|n.sent|, |n.sent| % SLOTS, ms[0]), Flight(|n.sent| + 1, ms[1..]);
    assert Flight(|n.sent|, ms) == [x] + f;
    Assoc(n.sent, [ms[0]], ms[1..]);
    Assoc(n.flight, [x], f);
    assert ms == [ms[0]] + ms[1..];
  }

  lemma {:induction false} SendsRun<T>(n: Net<T>, ms: seq<T>, more: seq<Event<T>>)
    ensures Run(n, Sends(ms) + more) == Run(Net(n.sent + ms, n.flight + Flight(|n.sent|, ms), n.rcv), more)
    decreases |ms|
  {
    hide Run, Apply, Flight;
    if ms == [] {
      assert Sends(ms) + more == more;
      assert n.sent + ms == n.sent && n.flight + Flight(|n.sent|, ms) == n.flight;
    } else {
      SendStep(n, ms, more);
      SendFlight(n, ms);
      SendsRun(Apply(n, Send(ms[0])), ms[1..], more);
    }
  }

  /** The bound is needed: the 257th message, arriving first, carries the number of the first and is
      applied in its place. */
  lemma Overrun<T(!new)>(ms: seq<T>)
    requires |ms| == SLOTS + 1 && ms[0] != ms[SLOTS]
    ensures var n := Run(Start<T>(), Sends(ms) + [Arrive(SLOTS)]); !AppliedPrefix(n.sent, n.rcv.applied)
  {
    SendsRun(Start<T>(), ms, [Arrive(SLOTS)]);
    var n := Net([] + ms, [] + Flight(0, ms), Start<T>().rcv);
    FlightAt(0, ms, SLOTS);
    assert n.flight[SLOTS] == Item(SLOTS, 0, ms[SLOTS]);
    var n' := Apply(n, Arrive(SLOTS));
    assert Run(n, [Arrive(SLOTS)]) == n';
    assert n'.rcv.applied == [n.flight[SLOTS]];
  }

  /** Exactly when an arriving message is applied at once: when its number is that of the next message up
      to a multiple of 256. */
  lemma AppliedAtOnceIff<T>(r: Receiver<T>, i: nat, msg: T)
    requires r.exp == |r.applied| % SLOTS && |r.applied| <= i
    ensures (|Deliver(r, i % SLOTS, msg).applied| > |r.applied|) <==> (i - |r.applied|) % SLOTS == 0
  {
    assert i % SLOTS == r.exp <==> (i - |r.applied|) % SLOTS == 0;
    if i % SLOTS == r.exp {
      DrainGrows(Receiver((r.exp + 1) % SLOTS, r.slots, r.applied + [msg]));
    }
  }

  lemma {:induction false} DrainGrows<T>(r: Receiver<T>)
    ensures r.applied <= Drain(r).applied
    decreases |r.slots|
  {
    if r.exp in r.slots {
      RemoveOne(r.slots, r.exp);
      DrainGrows(Receiver((r.exp + 1) % SLOTS, r.slots - {r.exp}, r.applied + [r.slots[r.exp]]));
    }
  }
}
