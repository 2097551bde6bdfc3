/** When an external connection is read: four pause sources and one epoll bit (client/client.cpp; the
    session's targets in server/session.cpp follow the same rules). */
module Gating {
  import K = Kernel

  datatype Conn = Conn(fd: int, writerPaused: bool, chainPaused: bool, overflowPaused: bool, epollinRemoved: bool)

  predicate Paused(c: Conn)
  {
    c.writerPaused || c.chainPaused || c.overflowPaused
  }

  datatype Client = Client(conns: map<nat, Conn>, kernel: K.State)

  /** EPOLLIN is set for the connection's descriptor. */
  predicate Reading(k: K.State, fd: int)
  {
    fd in k.handlers && k.handlers[fd].events.isIn
  }

  function SetReading(k: K.State, fd: int, on: bool): K.State
  {
    if on then K.ModFdEvents(k, fd, K.IN, K.NONE) else K.ModFdEvents(k, fd, K.NONE, K.IN)
  }

  // ----- What the handlers do to one connection -----

  datatype Source = Writer | Chain | Overflow

  datatype Action = Pause(src: Source) | Resume(src: Source) | Gate(bp0: bool)

  function WithSource(c: Conn, src: Source, on: bool): Conn
  {
    match src
    case Writer => c.(writerPaused := on)
    case Chain => c.(chainPaused := on)
    case Overflow => c.(overflowPaused := on)
  }

  /** Pause clears the bit. Resume sets it if the other two sources allow; the local chain's backpressure
      `bp0` is not consulted. The gate acts only on a change of its own flag. */
  function Act(c: Conn, k: K.State, a: Action): (Conn, K.State)
  {
    match a
    case Pause(src) =>
      (WithSource(c, src, true), if c.fd >= 0 then SetReading(k, c.fd, false) else k)
    case Resume(src) =>
      var c' := WithSource(c, src, false);
      (c', if c.fd >= 0 && !Paused(c') then SetReading(k, c.fd, true) else k)
    case Gate(bp0) =>
      if c.fd < 0 then (c, k)
      else if Paused(c) || bp0 then
        if !c.epollinRemoved then (c.(epollinRemoved := true), SetReading(k, c.fd, false)) else (c, k)
      else if c.epollinRemoved then (c.(epollinRemoved := false), SetReading(k, c.fd, true)) else (c, k)
  }

  function ActOn(cl: Client, id: nat, a: Action): Client
  {
    if id !in cl.conns then cl
    else
      var (c, k) := Act(cl.conns[id], cl.kernel, a);
      Client(cl.conns[id := c], k)
  }

  /** The loops over all connections, in the order `ids`. */
  function ActOnAll(cl: Client, ids: seq<nat>, a: Action): Client
    decreases |ids|
  {
    if ids == [] then cl else ActOnAll(ActOn(cl, ids[0], a), ids[1..], a)
  }

  // ----- The invariant -----

  /** A pause source keeps the bit clear, and a clear bit has a reason that a later step removes. */
  predicate ConnOk(c: Conn, k: K.State)
  {
    c.fd >= 0 ==>
      && c.fd in k.handlers
      && (Paused(c) ==> !Reading(k, c.fd))
      && (!Reading(k, c.fd) ==> Paused(c) || c.epollinRemoved)
  }

  ghost predicate Inv(cl: Client)
  {
    && K.Inv(cl.kernel)
    && (forall id :: id in cl.conns ==> ConnOk(cl.conns[id], cl.kernel))
    && (forall i, j :: i in cl.conns && j in cl.conns && i != j && cl.conns[i].fd >= 0 ==>
          cl.conns[i].fd != cl.conns[j].fd)
  }

  lemma SetReadingOnly(k: K.State, fd: int, on: bool, other: int)
    requires K.Inv(k) && fd in k.handlers
    ensures K.Inv(SetReading(k, fd, on)) && SetReading(k, fd, on).handlers.Keys == k.handlers.Keys
    ensures Reading(SetReading(k, fd, on), fd) == on
    ensures other != fd ==> Reading(SetReading(k, fd, on), other) == Reading(k, other)
  {
    if on {
      K.ModKeeps(k, fd, K.IN, K.NONE);
    } else {
      K.ModKeeps(k, fd, K.NONE, K.IN);
    }
    hide K.Inv;
  }

  /** A step on one connection keeps that connection right and touches no other descriptor. */
  lemma ActKeeps(c: Conn, k: K.State, a: Action, other: int)
    requires K.Inv(k) && ConnOk(c, k)
    ensures var (c', k') := Act(c, k, a);
            && K.Inv(k') && ConnOk(c', k') && c'.fd == c.fd && k'.handlers.Keys == k.handlers.Keys
            && (other != c.fd || c.fd < 0 ==> Reading(k', other) == Reading(k, other))
  {
    if c.fd >= 0 {
      SetReadingOnly(k, c.fd, true, other);
      SetReadingOnly(k, c.fd, false, other);
    }
    hide K.Inv, SetReading, Reading;
  }

  lemma ActOnKeeps(cl: Client, id: nat, a: Action)
    requires Inv(cl)
    ensures Inv(ActOn(cl, id, a)) && ActOn(cl, id, a).conns.Keys == cl.conns.Keys
  {
    if id in cl.conns {
      hide Act, Reading, K.Inv;
      var c := cl.conns[id];
      var cl' := ActOn(cl, id, a);
      ActKeeps(c, cl.kernel, a, c.fd);
      forall j | j in cl'.conns
        ensures ConnOk(cl'.conns[j], cl'.kernel)
      {
        if j != id {
          ActKeeps(c, cl.kernel, a, cl.conns[j].fd);
        }
      }
    }
  }

  lemma {:induction false} ActOnAllKeeps(cl: Client, ids: seq<nat>, a: Action)
    requires Inv(cl)
    ensures Inv(ActOnAll(cl, ids, a)) && ActOnAll(cl, ids, a).conns.Keys == cl.conns.Keys
    decreases |ids|
  {
    if ids != [] {
      ActOnKeeps(cl, ids[0], a);
      ActOnAllKeeps(ActOn(cl, ids[0], a), ids[1..], a);
    }
  }

  // ----- Runs -----

  datatype Event =
    | One(id: nat, act: Action)
    | All(ids: seq<nat>, act: Action)
    | Open(id: nat, fd: int)
    | Close(id: nat)
    | WantOut(id: nat)
    | NoOut(id: nat)

  /** The operating system never hands out a descriptor that is still in use. */
  predicate Fresh(cl: Client, fd: int)
  {
    fd >= 0 && fd !in cl.kernel.handlers && forall id :: id in cl.conns ==> cl.conns[id].fd != fd
  }

  function Apply(cl: Client, e: Event): Client
  {
    match e
    case One(id, a) => ActOn(cl, id, a)
    case All(ids, a) => ActOnAll(cl, ids, a)
    case Open(id, fd) =>
      if id in cl.conns then cl
      else Client(cl.conns[id := Conn(fd, false, false, false, false)], K.AddFdHandler(cl.kernel, fd, K.IN))
    case Close(id) =>
      if id !in cl.conns then cl
      else Client(cl.conns - {id}, K.DelFd(cl.kernel, cl.conns[id].fd))
    case WantOut(id) =>
      if id !in cl.conns || cl.conns[id].fd < 0 then cl
      else cl.(kernel := K.AddFdHandler(cl.kernel, cl.conns[id].fd, K.OUT))
    case NoOut(id) =>
      if id !in cl.conns then cl
      else cl.(kernel := K.ModFdEvents(cl.kernel, cl.conns[id].fd, K.NONE, K.OUT))
  }

  lemma OpenKeeps(cl: Client, id: nat, fd: int)
    requires Inv(cl) && Fresh(cl, fd)
    ensures Inv(Apply(cl, Open(id, fd)))
  {
    K.AddKeepsIff(cl.kernel, fd, K.IN);
    hide K.Inv;
  }

  lemma CloseKeeps(cl: Client, id: nat)
    requires Inv(cl)
    ensures Inv(Apply(cl, Close(id)))
  {
    if id in cl.conns {
      K.DelKeeps(cl.kernel, cl.conns[id].fd);
      hide K.Inv;
      var cl' := Apply(cl, Close(id));
      forall j | j in cl'.conns
        ensures ConnOk(cl'.conns[j], cl'.kernel)
      {
        assert cl.conns[j].fd >= 0 ==> cl.conns[j].fd != cl.conns[id].fd;
      }
    }
  }

  lemma OutKeeps(cl: Client, id: nat)
    requires Inv(cl)
    ensures Inv(Apply(cl, WantOut(id))) && Inv(Apply(cl, NoOut(id)))
  {
    if id in cl.conns {
      var fd := cl.conns[id].fd;
      K.AddKeepsIff(cl.kernel, fd, K.OUT);
      K.ModKeeps(cl.kernel, fd, K.NONE, K.OUT);
      hide K.Inv;
    }
  }

  lemma ApplyKeeps(cl: Client, e: Event)
    requires Inv(cl) && (e.Open? ==> Fresh(cl, e.fd))
    ensures Inv(Apply(cl, e))
  {
    match e
    case One(id, a) => ActOnKeeps(cl, id, a);
    case All(ids, a) => ActOnAllKeeps(cl, ids, a);
    case Open(id, fd) => OpenKeeps(cl, id, fd);
    case Close(id) => CloseKeeps(cl, id);
    case WantOut(id) => OutKeeps(cl, id);
    case NoOut(id) => OutKeeps(cl, id);
  }

  ghost predicate Reaches(cl: Client, es: seq<Event>, cl': Client)
    decreases |es|
  {
    if es == [] then cl' == cl
    else (es[0].Open? ==> Fresh(cl, es[0].fd)) && Reaches(Apply(cl, es[0]), es[1..], cl')
  }

  const INIT := Client(map[], K.INIT)

  lemma {:induction false} RunKeeps(cl: Client, es: seq<Event>, cl': Client)
    requires Inv(cl) && Reaches(cl, es, cl')
    ensures Inv(cl')
    decreases |es|
  {
    if es != [] {
      ApplyKeeps(cl, es[0]);
      hide Inv, Apply;
      RunKeeps(Apply(cl, es[0]), es[1..], cl');
    }
  }

  /** In every reachable state the epoll set equals the handlers' events, and a connection that the writer,
      the remote chain or an overflow has paused is not read. */
  lemma PausedNotRead(es: seq<Event>, cl: Client, id: nat)
    requires Reaches(INIT, es, cl) && id in cl.conns
    ensures K.Inv(cl.kernel)
    ensures cl.conns[id].fd >= 0 && Paused(cl.conns[id]) ==> !Reading(cl.kernel, cl.conns[id].fd)
  {
    assert Inv(INIT) by {
      assert forall fd: int :: K.Agrees(K.INIT, fd);
    }
    RunKeeps(INIT, es, cl);
    assert ConnOk(cl.conns[id], cl.kernel);
  }

  // ----- After a gate pass -----

  /** What a gate pass leaves of the connection `id` depends on that connection alone. */
  lemma {:induction false} GatePass(cl: Client, ids: seq<nat>, bp0: bool, id: nat)
    requires Inv(cl) && id in cl.conns && cl.conns[id].fd >= 0
    requires id in ids
    requires forall i, j :: 0 <= i < j < |ids| ==> ids[i] != ids[j]
    ensures var cl' := ActOnAll(cl, ids, Gate(bp0));
            && id in cl'.conns && cl'.conns[id] == Act(cl.conns[id], cl.kernel, Gate(bp0)).0
            && Reading(cl'.kernel, cl.conns[id].fd)
               == Reading(Act(cl.conns[id], cl.kernel, Gate(bp0)).1, cl.conns[id].fd)
    decreases |ids|
  {
    var c := cl.conns[id];
    var cl1 := ActOn(cl, ids[0], Gate(bp0));
    ActOnKeeps(cl, ids[0], Gate(bp0));
    if ids[0] == id {
      NotAgain(cl1, ids[1..], Gate(bp0), id);
    } else {
      OtherUntouched(cl, ids[0], Gate(bp0), id);
      GatePass(cl1, ids[1..], bp0, id);
      GateLocal(c, cl.kernel, cl1.kernel, bp0);
    }
  }

  lemma OtherUntouched(cl: Client, i: nat, a: Action, id: nat)
    requires Inv(cl) && id in cl.conns && id != i && cl.conns[id].fd >= 0
    ensures var cl' := ActOn(cl, i, a);
            && id in cl'.conns && cl'.conns[id] == cl.conns[id]
            && Reading(cl'.kernel, cl.conns[id].fd) == Reading(cl.kernel, cl.conns[id].fd)
            && cl'.kernel.handlers.Keys == cl.kernel.handlers.Keys
  {
    if i in cl.conns {
      assert ConnOk(cl.conns[i], cl.kernel);
      ActKeeps(cl.conns[i], cl.kernel, a, cl.conns[id].fd);
      hide Act, K.Inv, Reading;
    }
  }

  lemma {:induction false} NotAgain(cl: Client, ids: seq<nat>, a: Action, id: nat)
    requires Inv(cl) && id in cl.conns && cl.conns[id].fd >= 0 && id !in ids
    ensures var cl' := ActOnAll(cl, ids, a);
            && id in cl'.conns && cl'.conns[id] == cl.conns[id]
            && Reading(cl'.kernel, cl.conns[id].fd) == Reading(cl.kernel, cl.conns[id].fd)
    decreases |ids|
  {
    if ids != [] {
      OtherUntouched(cl, ids[0], a, id);
      ActOnKeeps(cl, ids[0], a);
      NotAgain(ActOn(cl, ids[0], a), ids[1..], a, id);
    }
  }

  lemma GateLocal(c: Conn, k: K.State, k': K.State, bp0: bool)
    requires K.Inv(k) && K.Inv(k') && c.fd in k.handlers && c.fd in k'.handlers
    requires Reading(k, c.fd) == Reading(k', c.fd)
    ensures Act(c, k, Gate(bp0)).0 == Act(c, k', Gate(bp0)).0
    ensures Reading(Act(c, k, Gate(bp0)).1, c.fd) == Reading(Act(c, k', Gate(bp0)).1, c.fd)
  {
    SetReadingOnly(k, c.fd, true, c.fd);
    SetReadingOnly(k, c.fd, false, c.fd);
    SetReadingOnly(k', c.fd, true, c.fd);
    SetReadingOnly(k', c.fd, false, c.fd);
    hide K.Inv, SetReading, Reading;
  }

  /** The bit after a gate pass, exactly. With no pause source at all the connection is read, so none stays
      silenced. With a source among writer, chain and overflow it is not. With backpressure of the local
      chain as the only source it is read if and only if the gate's flag was already set while the bit was
      on, which is the state that a pause and resume during backpressure leave behind. */
  lemma GateExact(cl: Client, ids: seq<nat>, bp0: bool, id: nat)
    requires Inv(cl) && id in cl.conns && cl.conns[id].fd >= 0
    requires id in ids && forall i, j :: 0 <= i < j < |ids| ==> ids[i] != ids[j]
    ensures var c := cl.conns[id]; var after := Reading(ActOnAll(cl, ids, Gate(bp0)).kernel, c.fd);
            && (!Paused(c) && !bp0 ==> after)
            && (Paused(c) ==> !after)
            && (!Paused(c) && bp0 ==> (after <==> c.epollinRemoved && Reading(cl.kernel, c.fd)))
  {
    GatePass(cl, ids, bp0, id);
    var c := cl.conns[id];
    assert ConnOk(c, cl.kernel);
    SetReadingOnly(cl.kernel, c.fd, true, c.fd);
    SetReadingOnly(cl.kernel, c.fd, false, c.fd);
    hide K.Inv, SetReading, Reading, ActOnAll;
  }

  /** Such a state is reachable: backpressure, then a writer pause and resume, then backpressure again. */
  lemma BackpressureMissed(fd: int)
    requires fd >= 0
    ensures exists cl ::
      && Reaches(INIT, [Open(0, fd), All([0], Gate(true)), One(0, Pause(Writer)), One(0, Resume(Writer)),
                        All([0], Gate(true))], cl)
      && 0 in cl.conns && cl.conns[0].fd == fd && Reading(cl.kernel, fd)
  {
    var es := [Open(0, fd), All([0], Gate(true)), One(0, Pause(Writer)), One(0, Resume(Writer)), All([0], Gate(true))];
    var c1 := Apply(INIT, es[0]);
    var c2 := Apply(c1, es[1]);
    assert c2 == ActOn(c1, 0, Gate(true));
    var c3 := Apply(c2, es[2]);
    var c4 := Apply(c3, es[3]);
    assert Reading(c4.kernel, fd) && c4.conns[0].epollinRemoved;
    var c5 := Apply(c4, es[4]);
    assert c5 == ActOn(c4, 0, Gate(true));
    assert es[1..][1..][1..][1..] == [es[4]];
    assert Reaches(c4, [es[4]], c5);
    assert es[1..][1..][1..] == [es[3], es[4]];
    assert Reaches(c3, [es[3], es[4]], c5);
    assert es[1..][1..] == [es[2], es[3], es[4]];
    assert Reaches(c2, [es[2], es[3], es[4]], c5);
    assert es[1..] == [es[1], es[2], es[3], es[4]];
    assert Reaches(c1, es[1..], c5);
    assert Reaches(INIT, es, c5);
  }
}
