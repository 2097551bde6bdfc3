/** The pause flags of a connection said in terms of the events alone: which source was last to speak. */
module GatingRuns {
  import opened Gating
  import K = Kernel

  /** The event pauses or resumes connection `id` on behalf of `src`. */
  predicate Speaks(e: Event, id: nat, src: Source)
  {
    match e
    case One(i, a) => i == id && !a.Gate? && a.src == src
    case All(ids, a) => id in ids && !a.Gate? && a.src == src
    case _ => false
  }

  predicate IsPause(e: Event)
  {
    (e.One? || e.All?) && e.act.Pause?
  }

  /** The connection exists after these events. */
  predicate IsOpen(es: seq<Event>, id: nat)
  {
    if es == [] then false
    else
      var e := es[|es| - 1];
      if e.Open? && e.id == id then true
      else if e.Close? && e.id == id then false
      else IsOpen(es[..|es| - 1], id)
  }

  /** The last event with which `src` spoke about the connection since it was opened was a pause. */
  predicate LastPauses(es: seq<Event>, id: nat, src: Source)
  {
    if es == [] then false
    else
      var e, before := es[|es| - 1], es[..|es| - 1];
      if !IsOpen(before, id) then false
      else if e.Close? && e.id == id then false
      else if Speaks(e, id, src) then IsPause(e)
      else LastPauses(before, id, src)
  }

  predicate FlagOf(c: Conn, src: Source)
  {
    match src
    case Writer => c.writerPaused
    case Chain => c.chainPaused
    case Overflow => c.overflowPaused
  }

  // ----- One step -----

  /** An action changes the flag of its own source and no other. */
  lemma ActFlags(c: Conn, k: K.State, a: Action, src: Source)
    ensures var c' := Act(c, k, a).0;
            FlagOf(c', src) == if !a.Gate? && a.src == src then a.Pause? else FlagOf(c, src)
  {
    hide SetReading;
  }

  lemma ActOnFlags(cl: Client, i: nat, a: Action, id: nat, src: Source)
    requires id in cl.conns
    ensures var cl' := ActOn(cl, i, a);
            && id in cl'.conns
            && FlagOf(cl'.conns[id], src) ==
               if i == id && !a.Gate? && a.src == src then a.Pause? else FlagOf(cl.conns[id], src)
  {
    hide Act;
    if i == id {
      ActFlags(cl.conns[id], cl.kernel, a, src);
    }
  }

  lemma ActOnKeys(cl: Client, i: nat, a: Action)
    ensures ActOn(cl, i, a).conns.Keys == cl.conns.Keys
  {
    hide Act;
  }

  lemma {:induction false} ActOnAllFlags(cl: Client, ids: seq<nat>, a: Action, id: nat, src: Source)
    ensures ActOnAll(cl, ids, a).conns.Keys == cl.conns.Keys
    ensures id in cl.conns ==>
              var cl' := ActOnAll(cl, ids, a);
              FlagOf(cl'.conns[id], src) ==
              if id in ids && !a.Gate? && a.src == src then a.Pause? else FlagOf(cl.conns[id], src)
    decreases |ids|
  {
    if ids != [] {
      hide ActOn, FlagOf;
      ActOnKeys(cl, ids[0], a);
      if id in cl.conns {
        ActOnFlags(cl, ids[0], a, id, src);
      }
      ActOnAllFlags(ActOn(cl, ids[0], a), ids[1..], a, id, src);
      assert ids == [ids[0]] + ids[1..];
    }
  }

  /** What one event does to the presence of a connection and to a flag of it. */
  lemma EventFlags(cl: Client, e: Event, id: nat, src: Source)
    ensures var cl' := Apply(cl, e);
            && (id in cl'.conns <==>
                (e.Open? && e.id == id) || (id in cl.conns && !(e.Close? && e.id == id)))
            && (id in cl'.conns ==>
                  FlagOf(cl'.conns[id], src) ==
                  (id in cl.conns &&
                   if Speaks(e, id, src) then IsPause(e) else FlagOf(cl.conns[id], src)))
  {
    hide ActOn, ActOnAll;
    match e
    case One(i, a) =>
      ActOnKeys(cl, i, a);
      if id in cl.conns {
        ActOnFlags(cl, i, a, id, src);
      }
    case All(ids, a) => ActOnAllFlags(cl, ids, a, id, src);
    case _ =>
  }

  // ----- Runs -----

  /** The state before the last event. */
  lemma {:induction false} LastStep(cl: Client, es: seq<Event>, cl': Client) returns (mid: Client)
    requires Reaches(cl, es, cl') && es != []
    ensures Reaches(cl, es[..|es| - 1], mid) && cl' == Apply(mid, es[|es| - 1])
    ensures es[|es| - 1].Open? ==> Fresh(mid, es[|es| - 1].fd)
    decreases |es|
  {
    hide Apply;
    if |es| == 1 {
      mid := cl;
      assert es[..0] == [];
    } else {
      mid := LastStep(Apply(cl, es[0]), es[1..], cl');
      assert es[1..][..|es| - 2] == es[..|es| - 1][1..];
      assert es[..|es| - 1][0] == es[0];
    }
  }

  /** In every run: a connection exists if and only if it was opened and not closed since, and a source's flag is
      set if and only if the last event of that source for the connection, since it was opened, is a pause. */
  lemma {:induction false} FlagsExact(es: seq<Event>, cl: Client, id: nat, src: Source)
    requires Reaches(INIT, es, cl)
    ensures id in cl.conns <==> IsOpen(es, id)
    ensures id in cl.conns ==> (FlagOf(cl.conns[id], src) <==> LastPauses(es, id, src))
    decreases |es|
  {
    if es != [] {
      var mid := LastStep(INIT, es, cl);
      hide Reaches, Apply, FlagOf;
      FlagsExact(es[..|es| - 1], mid, id, src);
      EventFlags(mid, es[|es| - 1], id, src);
    }
  }

  /** In every run: a connection that the writer, the remote chain or an overflow paused, and did not resume since,
      is not read, whatever the other sources and the gate have done. */
  lemma PausedStays(es: seq<Event>, cl: Client, id: nat, src: Source)
    requires Reaches(INIT, es, cl) && LastPauses(es, id, src)
    ensures id in cl.conns && (cl.conns[id].fd >= 0 ==> !Reading(cl.kernel, cl.conns[id].fd))
  {
    hide Reaches, LastPauses, IsOpen;
    FlagsExact(es, cl, id, src);
    StillOpen(es, id, src);
    PausedNotRead(es, cl, id);
  }

  lemma {:induction false} StillOpen(es: seq<Event>, id: nat, src: Source)
    requires LastPauses(es, id, src)
    ensures IsOpen(es, id)
  {
  }

  /** A gate pass in every run: a connection that none of the three sources has paused since it was opened, or
      that each has resumed, is read again unless the local chain is congested; and one that some source has
      paused is not. */
  lemma GatedExact(es: seq<Event>, cl: Client, ids: seq<nat>, bp0: bool, id: nat)
    requires Reaches(INIT, es, cl) && id in cl.conns && cl.conns[id].fd >= 0
    requires id in ids && forall i, j :: 0 <= i < j < |ids| ==> ids[i] != ids[j]
    ensures var after := Reading(ActOnAll(cl, ids, Gate(bp0)).kernel, cl.conns[id].fd);
            && ((exists src :: LastPauses(es, id, src)) ==> !after)
            && ((forall src :: !LastPauses(es, id, src)) && !bp0 ==> after)
  {
    RunKeepsInv(es, cl);
    hide Reaches, Inv, LastPauses, IsOpen, ActOnAll, Reading;
    GateExact(cl, ids, bp0, id);
    FlagsExact(es, cl, id, Writer);
    FlagsExact(es, cl, id, Chain);
    FlagsExact(es, cl, id, Overflow);
    if src :| LastPauses(es, id, src) {
      assert src == Writer || src == Chain || src == Overflow;
    }
  }

  lemma RunKeepsInv(es: seq<Event>, cl: Client)
    requires Reaches(INIT, es, cl)
    ensures Inv(cl)
  {
    assert Inv(INIT) by {
      assert forall fd: int :: K.Agrees(K.INIT, fd);
    }
    RunKeeps(INIT, es, cl);
  }

  // ----- The other bit, and the descriptors -----

  /** EPOLLOUT is set for the descriptor. */
  predicate Writing(k: K.State, fd: int)
  {
    fd in k.handlers && k.handlers[fd].events.isOut
  }

  /** A pause, a resume or a gate pass leaves EPOLLOUT and the set of descriptors as they are. */
  lemma ActOut(c: Conn, k: K.State, a: Action, fd: int)
    requires K.Inv(k)
    ensures var k' := Act(c, k, a).1;
            K.Inv(k') && k'.handlers.Keys == k.handlers.Keys && (Writing(k', fd) <==> Writing(k, fd))
  {
    K.ModKeeps(k, c.fd, K.IN, K.NONE);
    K.ModKeeps(k, c.fd, K.NONE, K.IN);
    K.ModExact(k, c.fd, K.IN, K.NONE, fd);
    K.ModExact(k, c.fd, K.NONE, K.IN, fd);
    hide K.Inv, K.ModFdEvents;
  }

  lemma ActOnOut(cl: Client, i: nat, a: Action, fd: int)
    requires K.Inv(cl.kernel)
    ensures var k' := ActOn(cl, i, a).kernel;
            K.Inv(k') && k'.handlers.Keys == cl.kernel.handlers.Keys && (Writing(k', fd) <==> Writing(cl.kernel, fd))
  {
    hide Act, K.Inv, Writing;
    if i in cl.conns {
      ActOut(cl.conns[i], cl.kernel, a, fd);
    }
  }

  lemma {:induction false} ActOnAllOut(cl: Client, ids: seq<nat>, a: Action, fd: int)
    requires K.Inv(cl.kernel)
    ensures var k' := ActOnAll(cl, ids, a).kernel;
            K.Inv(k') && k'.handlers.Keys == cl.kernel.handlers.Keys && (Writing(k', fd) <==> Writing(cl.kernel, fd))
    decreases |ids|
  {
    hide ActOn, K.Inv, Writing;
    if ids != [] {
      ActOnOut(cl, ids[0], a, fd);
      ActOnAllOut(ActOn(cl, ids[0], a), ids[1..], a, fd);
    }
  }

  /** No step changes the descriptor of a connection that stays. */
  lemma ActOnFds(cl: Client, i: nat, a: Action, id: nat)
    requires id in cl.conns
    ensures id in ActOn(cl, i, a).conns && ActOn(cl, i, a).conns[id].fd == cl.conns[id].fd
  {
    hide SetReading;
  }

  lemma {:induction false} ActOnAllFds(cl: Client, ids: seq<nat>, a: Action, id: nat)
    requires id in cl.conns
    ensures id in ActOnAll(cl, ids, a).conns && ActOnAll(cl, ids, a).conns[id].fd == cl.conns[id].fd
    decreases |ids|
  {
    hide ActOn;
    if ids != [] {
      ActOnFds(cl, ids[0], a, id);
      ActOnAllFds(ActOn(cl, ids[0], a), ids[1..], a, id);
    }
  }

  /** The last event that asked for, or gave up, waiting to write since the connection was opened asked for it. */
  predicate LastWants(es: seq<Event>, id: nat)
  {
    if es == [] then false
    else
      var e, before := es[|es| - 1], es[..|es| - 1];
      if !IsOpen(before, id) then false
      else if e.Close? && e.id == id then false
      else if e.WantOut? && e.id == id then true
      else if e.NoOut? && e.id == id then false
      else LastWants(before, id)
  }

  /** The descriptor belongs to a connection. */
  ghost predicate Owned(conns: map<nat, Conn>, fd: int)
  {
    exists id :: id in conns && conns[id].fd == fd
  }

  /** The kernel handles just the descriptors of the connections that exist. */
  ghost predicate Handled(cl: Client)
  {
    && (forall id :: id in cl.conns ==> cl.conns[id].fd >= 0 && cl.conns[id].fd in cl.kernel.handlers)
    && (forall fd :: fd in cl.kernel.handlers ==> Owned(cl.conns, fd))
  }

  lemma SameHandled(cl: Client, cl': Client)
    requires Handled(cl) && cl'.kernel.handlers.Keys == cl.kernel.handlers.Keys && cl'.conns.Keys == cl.conns.Keys
    requires forall id :: id in cl.conns ==> cl'.conns[id].fd == cl.conns[id].fd
    ensures Handled(cl')
  {
    forall fd | fd in cl'.kernel.handlers
      ensures Owned(cl'.conns, fd)
    {
      assert Owned(cl.conns, fd);
      var id :| id in cl.conns && cl.conns[id].fd == fd;
      assert id in cl'.conns;
    }
  }

  lemma AllHandled(cl: Client, ids: seq<nat>, a: Action)
    requires K.Inv(cl.kernel) && Handled(cl)
    ensures Handled(ActOnAll(cl, ids, a))
  {
    hide ActOn, ActOnAll, K.Inv, Handled;
    var cl' := ActOnAll(cl, ids, a);
    ActOnAllOut(cl, ids, a, 0);
    ActOnAllFlags(cl, ids, a, 0, Writer);
    forall id | id in cl.conns
      ensures cl'.conns[id].fd == cl.conns[id].fd
    {
      ActOnAllFds(cl, ids, a, id);
    }
    SameHandled(cl, cl');
  }

  lemma OneHandled(cl: Client, i: nat, a: Action)
    requires K.Inv(cl.kernel) && Handled(cl)
    ensures Handled(ActOn(cl, i, a))
  {
    hide ActOn, K.Inv, Handled;
    var cl' := ActOn(cl, i, a);
    ActOnOut(cl, i, a, 0);
    ActOnKeys(cl, i, a);
    forall id | id in cl.conns
      ensures cl'.conns[id].fd == cl.conns[id].fd
    {
      ActOnFds(cl, i, a, id);
    }
    SameHandled(cl, cl');
  }

  lemma OpenHandled(cl: Client, i: nat, fd: int)
    requires Handled(cl) && Fresh(cl, fd)
    ensures Handled(Apply(cl, Open(i, fd)))
  {
    if i !in cl.conns {
      var cl' := Apply(cl, Open(i, fd));
      assert cl'.kernel.handlers.Keys == cl.kernel.handlers.Keys + {fd} && cl'.conns[i].fd == fd;
      forall f | f in cl'.kernel.handlers
        ensures Owned(cl'.conns, f)
      {
        if f != fd {
          assert Owned(cl.conns, f);
          var id :| id in cl.conns && cl.conns[id].fd == f;
          assert cl'.conns[id] == cl.conns[id];
        }
      }
    }
  }

  lemma CloseHandled(cl: Client, i: nat)
    requires Inv(cl) && Handled(cl)
    ensures Handled(Apply(cl, Close(i)))
  {
    hide K.Inv, ConnOk;
    if i in cl.conns {
      var cl' := Apply(cl, Close(i));
      assert cl'.kernel.handlers.Keys == cl.kernel.handlers.Keys - {cl.conns[i].fd};
      forall f | f in cl'.kernel.handlers
        ensures Owned(cl'.conns, f)
      {
        assert Owned(cl.conns, f);
        var id :| id in cl.conns && cl.conns[id].fd == f;
        assert id in cl'.conns;
      }
    }
  }

  lemma OutHandled(cl: Client, i: nat)
    requires K.Inv(cl.kernel) && Handled(cl)
    ensures Handled(Apply(cl, WantOut(i))) && Handled(Apply(cl, NoOut(i)))
  {
    if i in cl.conns {
      var fd := cl.conns[i].fd;
      assert fd in cl.kernel.handlers;
      K.AddExact(cl.kernel, fd, K.OUT, 0);
      K.ModExact(cl.kernel, fd, K.NONE, K.OUT, 0);
      hide K.Inv, K.AddFdHandler, K.ModFdEvents, Handled;
      assert K.AddFdHandler(cl.kernel, fd, K.OUT).handlers.Keys == cl.kernel.handlers.Keys;
      SameHandled(cl, Apply(cl, WantOut(i)));
      SameHandled(cl, Apply(cl, NoOut(i)));
    }
  }

  lemma EventHandled(cl: Client, e: Event)
    requires Inv(cl) && Handled(cl) && (e.Open? ==> Fresh(cl, e.fd))
    ensures Handled(Apply(cl, e))
  {
    assert K.Inv(cl.kernel);
    hide ActOn, ActOnAll, Handled, Inv, K.Inv, Fresh;
    match e
    case One(i, a) => OneHandled(cl, i, a);
    case All(ids, a) => AllHandled(cl, ids, a);
    case Open(i, fd) => OpenHandled(cl, i, fd);
    case Close(i) => CloseHandled(cl, i);
    case WantOut(i) => OutHandled(cl, i);
    case NoOut(i) => OutHandled(cl, i);
  }

  /** What one event does to EPOLLOUT of a connection. */
  lemma EventOut(cl: Client, e: Event, id: nat)
    requires Inv(cl) && Handled(cl) && (e.Open? ==> Fresh(cl, e.fd)) && id in Apply(cl, e).conns
    ensures var cl' := Apply(cl, e);
            Writing(cl'.kernel, cl'.conns[id].fd) ==
            (id in cl.conns &&
             if e.WantOut? && e.id == id then true
             else if e.NoOut? && e.id == id then false
             else Writing(cl.kernel, cl.conns[id].fd))
  {
    hide ActOn, ActOnAll, K.Inv;
    match e
    case One(i, a) =>
      ActOnKeys(cl, i, a);
      ActOnFds(cl, i, a, id);
      ActOnOut(cl, i, a, cl.conns[id].fd);
    case All(ids, a) =>
      ActOnAllFlags(cl, ids, a, id, Writer);
      ActOnAllFds(cl, ids, a, id);
      ActOnAllOut(cl, ids, a, cl.conns[id].fd);
    case Open(i, fd) =>
      if i !in cl.conns {
        K.AddExact(cl.kernel, fd, K.IN, if id in cl.conns then cl.conns[id].fd else fd);
        hide K.AddFdHandler;
      }
    case Close(i) =>
      if i in cl.conns {
        K.DelExact(cl.kernel, cl.conns[i].fd, cl.conns[id].fd);
        hide K.DelFd;
      }
    case WantOut(i) =>
      if i in cl.conns {
        K.AddExact(cl.kernel, cl.conns[i].fd, K.OUT, cl.conns[id].fd);
        hide K.AddFdHandler;
      }
    case NoOut(i) =>
      if i in cl.conns {
        K.ModExact(cl.kernel, cl.conns[i].fd, K.NONE, K.OUT, cl.conns[id].fd);
        hide K.ModFdEvents;
      }
  }

  /** In every run: the kernel handles the descriptors of the open connections and no others, and waits to write on
      one if and only if the last event of that kind for it, since it was opened, asked for it. */
  lemma {:induction false} OutExact(es: seq<Event>, cl: Client, id: nat)
    requires Reaches(INIT, es, cl)
    ensures Handled(cl)
    ensures id in cl.conns ==> (Writing(cl.kernel, cl.conns[id].fd) <==> LastWants(es, id))
    decreases |es|
  {
    if es != [] {
      var mid := LastStep(INIT, es, cl);
      var k := |es| - 1;
      RunKeepsInv(es[..k], mid);
      hide Reaches, Apply, Handled, Writing, Inv;
      OutExact(es[..k], mid, id);
      FlagsExact(es[..k], mid, id, Writer);
      FlagsExact(es, cl, id, Writer);
      EventHandled(mid, es[k]);
      if id in cl.conns {
        EventOut(mid, es[k], id);
      }
    }
  }
}
