/** When the handshake gets the client to the running state: only with a server that has the modules and room for
    the connections, and with such a server always. */
module HandshakeRuns {
  import opened Bytes
  import opened Wrappers
  import opened ChainCodec
  import opened Handshake

  // ----- Only if -----

  /** What goes on after the module list has been answered rests on a positive answer. */
  predicate Cleared(st: Setting, w: World)
  {
    st.serverHasAll ||
    (&& (w.client == AwaitModuleListRes || w.client == ClientDisconnected)
     && (forall i :: 0 <= i < |w.toServer| ==> w.toServer[i] == ModuleListReq)
     && (forall i :: 0 <= i < |w.toClient| ==> w.toClient[i] == ModuleListRes(false))
     && w.server.chain == None && w.dialed == {})
  }

  lemma ApplyCleared(st: Setting, w: World, e: Event)
    requires Cleared(st, w)
    ensures Cleared(st, Apply(st, w, e))
  {
  }

  lemma {:induction false} RunCleared(st: Setting, w: World, es: seq<Event>)
    requires Cleared(st, w)
    ensures Cleared(st, Run(st, w, es))
    decreases |es|
  {
    if es != [] {
      ApplyCleared(st, w, es[0]);
      hide Cleared, Apply;
      RunCleared(st, Apply(st, w, es[0]), es[1..]);
    }
  }

  /** A server that lacks a module never gets a chain, and the client never goes beyond its module list. */
  lemma MissingModuleStops(st: Setting, es: seq<Event>)
    requires !st.serverHasAll
    ensures var w := Run(st, START, es);
            && (w.client == AwaitModuleListRes || w.client == ClientDisconnected) && w.server.chain == None
            && (w.toServer == [] && w.toClient == [] ==> w.client == ClientDisconnected)
  {
    RunCleared(st, START, es);
    RunAnswered(st, es);
  }

  /** The answer to the module list is on its way until the client has it. */
  predicate Answered(st: Setting, w: World)
  {
    !st.serverHasAll && w.client == AwaitModuleListRes ==> w.toServer != [] || w.toClient != []
  }

  lemma ApplyAnswered(st: Setting, w: World, e: Event)
    requires Cleared(st, w) && Answered(st, w)
    ensures Answered(st, Apply(st, w, e))
  {
  }

  lemma {:induction false} RunsAnswered(st: Setting, w: World, es: seq<Event>)
    requires Cleared(st, w) && Answered(st, w)
    ensures Answered(st, Run(st, w, es))
    decreases |es|
  {
    if es != [] {
      ApplyCleared(st, w, es[0]);
      ApplyAnswered(st, w, es[0]);
      hide Cleared, Answered, Apply;
      RunsAnswered(st, Apply(st, w, es[0]), es[1..]);
    }
  }

  lemma RunAnswered(st: Setting, es: seq<Event>)
    ensures Answered(st, Run(st, START, es))
  {
    RunsAnswered(st, START, es);
  }

  /** A running client faces a server that has all modules and at most 200 extra ports. */
  lemma RunsOnlyIf(st: Setting, es: seq<Event>)
    ensures Run(st, START, es).client == ClientRunning ==> st.serverHasAll && ServerPorts(st) <= MAX_WIRE_CONNECTIONS
  {
    RunCleared(st, START, es);
    RunKeeps(st, START, es);
    hide Parse, Print;
  }

  // ----- If -----

  predicate Honest(st: Setting)
  {
    && st.serverHasAll && Fits(st.mods) && st.extra(st.mods) <= MAX_WIRE_CONNECTIONS
    && st.clientBuild.Complete? && st.serverBuild(st.mods).Complete?
  }

  /** The session has built its chain. */
  predicate Up(st: Setting, s: Server)
  {
    s.state == ServerRunning && |s.attached| == 1 + st.extra(st.mods) && s.attached[0]
  }

  predicate OnlyReady(ms: seq<Msg>)
  {
    forall i :: 0 <= i < |ms| ==> ms[i] == ChainReady || ms[i] == TransmitReady
  }

  predicate Dialed(st: Setting, dialed: set<nat>)
  {
    forall i :: i in dialed ==> 1 <= i <= st.extra(st.mods)
  }

  /** Something is always on its way that takes the client a step further. */
  predicate Live(st: Setting, w: World)
  {
    match w.client
    case AwaitModuleListRes =>
      && w.server == START.server && w.dialed == {}
      && ((w.toServer == [ModuleListReq] && w.toClient == []) ||
          (w.toServer == [] && w.toClient == [ModuleListRes(true)]))
    case AwaitChainReady =>
      && w.dialed == {}
      && ((w.server == START.server && w.toServer == [ChainCreate(Print(st.mods))] && w.toClient == []) ||
          (&& w.toServer == [] && Up(st, w.server) && OnlyReady(w.toClient) && ChainReady in w.toClient
           && (st.extra(st.mods) > 0 ==> !AllAttached(w.server.attached))))
    case AwaitTransmitReady =>
      && w.toServer == [] && Up(st, w.server) && OnlyReady(w.toClient) && Dialed(st, w.dialed)
      && (forall i :: 1 <= i < |w.server.attached| ==> w.server.attached[i] || i in w.dialed)
      && (AllAttached(w.server.attached) ==> TransmitReady in w.toClient)
    case ClientRunning => w.toServer == [] && OnlyReady(w.toClient)
    case ClientDisconnected => false
  }

  lemma {:induction false} OutputsAre(n: nat, i: nat)
    ensures i in Outputs(n) <==> 1 <= i <= n
  {
    if n > 0 {
      OutputsAre(n - 1, i);
    }
  }

  lemma {:induction false} Growing(attached: seq<bool>, n: nat, i: nat)
    requires |attached| <= i < n
    ensures i < |Grow(attached, n)| && !Grow(attached, n)[i]
    decreases n - |attached|
  {
    if i == |attached| {
      assert Grow(attached + [false], n)[i] == false;
    } else {
      Growing(attached + [false], n, i);
    }
  }

  /** The session builds its chain and announces it. */
  lemma CreateLive(st: Setting, w: World)
    requires Honest(st) && Live(st, w) && w.client == AwaitChainReady && w.toServer != []
    ensures Live(st, Apply(st, w, ServerReceives))
  {
    hide Parse, Print, Fits, HandleChainCreate, AllAttached, Outputs;
    Created(st);
    var w' := Apply(st, w, ServerReceives);
    assert w'.toServer == [] && w'.toClient == HandleChainCreate(st, START.server, Print(st.mods)).1;
  }

  lemma Created(st: Setting)
    requires Honest(st)
    ensures var (s, out) := HandleChainCreate(st, START.server, Print(st.mods));
            && Up(st, s) && OnlyReady(out) && ChainReady in out
            && (st.extra(st.mods) > 0 ==> !AllAttached(s.attached))
  {
    var n := st.extra(st.mods);
    hide Parse, Print, Fits, Grow;
    ParsePrintIff(st.mods);
    PrintNotEmpty(st.mods);
    GrowLength([true], 1 + n);
    var (s, out) := HandleChainCreate(st, START.server, Print(st.mods));
    assert s.attached == Grow([true], 1 + n) && s.attached[0];
    if n > 0 {
      Growing([true], 1 + n, n);
    }
  }

  lemma RestHas(ms: seq<Msg>, m: Msg)
    requires ms != [] && m in ms && ms[0] != m
    ensures m in ms[1..]
  {
    assert ms == [ms[0]] + ms[1..];
  }

  lemma AllDialed(n: nat)
    ensures forall i: nat :: i in Outputs(n) <==> 1 <= i <= n
  {
    forall i: nat
      ensures i in Outputs(n) <==> 1 <= i <= n
    {
      OutputsAre(n, i);
    }
  }

  lemma ListAnswered(st: Setting, w: World)
    requires Honest(st) && Live(st, w) && w.toClient != [] && w.client == AwaitModuleListRes
    ensures Live(st, Apply(st, w, ClientReceives))
  {
    hide Parse, Print, Fits, AllAttached;
  }

  lemma ReadyAnnounced(st: Setting, w: World)
    requires Honest(st) && Live(st, w) && w.toClient != [] && w.client == AwaitChainReady
    ensures Live(st, Apply(st, w, ClientReceives))
  {
    hide Parse, Print, Fits, AllAttached, Outputs;
    var n := st.extra(st.mods);
    if w.toClient[0] == ChainReady {
      AllDialed(n);
      var w' := Apply(st, w, ClientReceives);
      assert n > 0 ==> w'.dialed == Outputs(n) && w'.client == AwaitTransmitReady;
    } else {
      RestHas(w.toClient, ChainReady);
    }
  }

  lemma TransmitAnnounced(st: Setting, w: World)
    requires Honest(st) && Live(st, w) && w.toClient != [] && w.client == AwaitTransmitReady
    ensures Live(st, Apply(st, w, ClientReceives))
  {
    hide Parse, Print, Fits, AllAttached, Outputs;
    var w' := Apply(st, w, ClientReceives);
    if w.toClient[0] == ChainReady {
      assert w' == w.(toClient := w.toClient[1..]);
      if TransmitReady in w.toClient {
        RestHas(w.toClient, TransmitReady);
      }
    }
  }

  lemma ClientLive(st: Setting, w: World)
    requires Honest(st) && Live(st, w) && w.toClient != []
    ensures Live(st, Apply(st, w, ClientReceives))
  {
    match w.client
    case AwaitModuleListRes => ListAnswered(st, w);
    case AwaitChainReady => ReadyAnnounced(st, w);
    case AwaitTransmitReady => TransmitAnnounced(st, w);
    case _ =>
  }

  lemma AttachLive(st: Setting, w: World, i: nat)
    requires Honest(st) && Live(st, w) && i in w.dialed
    ensures Live(st, Apply(st, w, Attach(i)))
  {
    hide Parse, Print, Fits, AllAttached;
    if w.client == AwaitTransmitReady {
      var s := w.server.(attached := w.server.attached[i := true]);
      if AllAttached(s.attached) {
        assert Apply(st, w, Attach(i)).toClient == w.toClient + [TransmitReady];
      }
    }
  }

  lemma ApplyLive(st: Setting, w: World, e: Event)
    requires Honest(st) && Live(st, w)
    ensures Live(st, Apply(st, w, e))
  {
    match e
    case ServerReceives =>
      if w.toServer != [] {
        if w.client == AwaitChainReady {
          CreateLive(st, w);
        }
      }
    case ClientReceives =>
      if w.toClient != [] {
        ClientLive(st, w);
      }
    case Attach(i) =>
      if i in w.dialed {
        AttachLive(st, w, i);
      }
  }

  lemma {:induction false} RunLive(st: Setting, w: World, es: seq<Event>)
    requires Honest(st) && Live(st, w)
    ensures Live(st, Run(st, w, es))
    decreases |es|
  {
    if es != [] {
      ApplyLive(st, w, es[0]);
      hide Live, Apply, Honest;
      RunLive(st, Apply(st, w, es[0]), es[1..]);
    }
  }

  /** With a server that has all modules, a list that fits, two complete constructions and at most 200 extra
      outputs, the client gets to the running state in every run: whenever no message is on its way and no
      connection waits to be attached, it is there. */
  lemma QuietMeansRunning(st: Setting, es: seq<Event>)
    requires Honest(st)
    ensures var w := Run(st, START, es);
            w.toServer == [] && w.toClient == [] && w.dialed == {} ==> w.client == ClientRunning
  {
    hide Honest;
    RunLive(st, START, es);
  }

  /** The connections that came before the chain are attached with it, as far as it has places for them. */
  lemma {:induction false} AttachEarlyExact(attached: seq<bool>, early: seq<nat>, i: nat)
    requires i < |attached|
    ensures AttachEarly(attached, early)[i] <==> attached[i] || i in early
    decreases |early|
  {
    if early != [] {
      assert early == [early[0]] + early[1..];
      AttachEarlyExact(if early[0] < |attached| then attached[early[0] := true] else attached, early[1..], i);
    }
  }
}
