/** Setting up a tunnel: the client and the session exchange control messages and attach the secondary
    connections until both sides run the same chain. */
module Handshake {
  import opened Bytes
  import opened Wrappers
  import opened ChainCodec

  const MAX_WIRE_CONNECTIONS: nat := 200

  datatype Msg =
    | ModuleListReq
    | ModuleListRes(ok: bool)
    | ChainCreate(payload: Bytestring)
    | ChainReady
    | TransmitReady

  datatype ClientState = AwaitModuleListRes | AwaitChainReady | AwaitTransmitReady | ClientRunning | ClientDisconnected

  datatype ServerState = AwaitChainCreate | ServerRunning | ServerDisconnected

  /** How the construction of a chain ended: with all modules, or when a module could not be created, with no
      module at all and the given number of extra ports in its table. The object exists in both cases. */
  datatype Outcome = Complete | Stopped(ports: nat)

  datatype Chain = Chain(list: seq<ModuleSpec>, complete: bool)

  /** The chain of the session, whether each of its data connections is attached (number 0 is the primary
      one), and the connections that came before the chain. */
  datatype Server = Server(state: ServerState, chain: Option<Chain>, attached: seq<bool>, early: seq<nat>)

  /** Both peers, the messages on their way in each direction, oldest first, and the secondary connections
      that the client has opened and the server has not seen yet. */
  datatype World = World(client: ClientState, server: Server, toServer: seq<Msg>, toClient: seq<Msg>, dialed: set<nat>)

  /** The setting: the client's module list, whether the server knows all modules, how many extra outputs a
      complete chain has, which its module list determines, and how the two constructions end. */
  datatype Setting = Setting(mods: seq<ModuleSpec>, serverHasAll: bool, extra: seq<ModuleSpec> -> nat,
                             clientBuild: Outcome, serverBuild: seq<ModuleSpec> -> Outcome)

  /** What `total_extra_outputs` answers. */
  function Ports(st: Setting, list: seq<ModuleSpec>, o: Outcome): nat
  {
    if o.Complete? then st.extra(list) else o.ports
  }

  function ClientPorts(st: Setting): nat
  {
    Ports(st, st.mods, st.clientBuild)
  }

  /** The list as the session reads it, and the extra ports of the chain it makes of it. */
  function Received(st: Setting): seq<ModuleSpec>
  {
    Parse(Print(st.mods))
  }

  function ServerPorts(st: Setting): nat
  {
    Ports(st, Received(st), st.serverBuild(Received(st)))
  }

  const START := World(AwaitModuleListRes, Server(AwaitChainCreate, None, [true], []), [ModuleListReq], [], {})

  // ----- The session -----

  predicate AllAttached(attached: seq<bool>)
  {
    forall i :: 0 <= i < |attached| ==> attached[i]
  }

  /** Attaches the connections that came early, closing those that have no place. */
  function AttachEarly(attached: seq<bool>, early: seq<nat>): (r: seq<bool>)
    ensures |r| == |attached|
    decreases |early|
  {
    if early == [] then attached
    else AttachEarly(if early[0] < |attached| then attached[early[0] := true] else attached, early[1..])
  }

  function Grow(attached: seq<bool>, n: nat): (r: seq<bool>)
    ensures |r| >= n && attached <= r
    decreases if n > |attached| then n - |attached| else 0
  {
    if |attached| >= n then attached else Grow(attached + [false], n)
  }

  /** `handle_chain_create`: the new session and the messages it sends, in order. */
  function HandleChainCreate(st: Setting, s: Server, payload: Bytestring): (Server, seq<Msg>)
  {
    if |payload| < 1 then (s, [])
    else
      var mods := Parse(payload);
      var chain := Chain(mods, st.serverBuild(mods).Complete?);
      var n := Ports(st, mods, st.serverBuild(mods));
      if n > MAX_WIRE_CONNECTIONS then (s.(state := ServerDisconnected, chain := Some(chain)), [])
      else
        var attached := AttachEarly(Grow(s.attached, 1 + n), s.early);
        var s' := Server(ServerRunning, Some(chain), attached, []);
        var ready := AllAttached(attached);
        (s', (if ready then [TransmitReady] else [])
             + (if n > 0 && ready then [TransmitReady] else [])
             + [ChainReady]
             + (if n == 0 then [TransmitReady] else []))
  }

  function ServerHandle(st: Setting, s: Server, m: Msg): (Server, seq<Msg>)
  {
    match m
    case ModuleListReq =>
      if st.serverHasAll then (s, [ModuleListRes(true)])
      else (s.(state := ServerDisconnected), [ModuleListRes(false)])
    case ChainCreate(p) => HandleChainCreate(st, s, p)
    case _ => (s, [])
  }

  /** `add_data_connection`. */
  function AddDataConnection(s: Server, idx: nat): (Server, seq<Msg>)
  {
    if idx >= |s.attached| then (s.(early := s.early + [idx]), [])
    else
      var s' := s.(attached := s.attached[idx := true]);
      (s', if AllAttached(s'.attached) && s.state == ServerRunning then [TransmitReady] else [])
  }

  // ----- The client -----

  /** The numbers 1..n of the secondary connections. */
  function Outputs(n: nat): set<nat>
  {
    if n == 0 then {} else Outputs(n - 1) + {n}
  }

  function ClientHandle(st: Setting, c: ClientState, m: Msg): (ClientState, seq<Msg>, set<nat>)
  {
    match m
    case ModuleListRes(ok) =>
      if ok then (AwaitChainReady, [ChainCreate(Print(st.mods))], {}) else (ClientDisconnected, [], {})
    case ChainReady =>
      if c != AwaitChainReady then (c, [], {})
      else if ClientPorts(st) > 0 then (AwaitTransmitReady, [], Outputs(ClientPorts(st)))
      else (ClientRunning, [], {})
    case TransmitReady =>
      if c == AwaitTransmitReady then (ClientRunning, [], {}) else (c, [], {})
    case _ => (c, [], {})
  }

  // ----- Joint runs -----

  datatype Event = ServerReceives | ClientReceives | Attach(idx: nat)

  function Apply(st: Setting, w: World, e: Event): World
  {
    match e
    case ServerReceives =>
      if w.toServer == [] then w
      else
        var (s, out) := ServerHandle(st, w.server, w.toServer[0]);
        w.(server := s, toServer := w.toServer[1..], toClient := w.toClient + out)
    case ClientReceives =>
      if w.toClient == [] then w
      else
        var (c, out, dial) := ClientHandle(st, w.client, w.toClient[0]);
        w.(client := c, toClient := w.toClient[1..], toServer := w.toServer + out, dialed := w.dialed + dial)
    case Attach(i) =>
      if i !in w.dialed then w
      else
        var (s, out) := AddDataConnection(w.server, i);
        w.(server := s, toClient := w.toClient + out, dialed := w.dialed - {i})
  }

  function Run(st: Setting, w: World, es: seq<Event>): World
    decreases |es|
  {
    if es == [] then w else Run(st, Apply(st, w, es[0]), es[1..])
  }

  // ----- What every step keeps -----

  /** The session has a chain, whole or not, for the list it received, and places for its ports. */
  predicate Built(st: Setting, s: Server)
  {
    && s.chain == Some(Chain(Received(st), st.serverBuild(Received(st)).Complete?))
    && |s.attached| == 1 + ServerPorts(st)
  }

  /** ... and every data connection of that chain is attached. */
  predicate Ready(st: Setting, s: Server)
  {
    Built(st, s) && AllAttached(s.attached)
  }

  /** What a message on its way to the client promises about the server. */
  predicate Promise(st: Setting, s: Server, m: Msg)
  {
    match m
    case ChainReady => Built(st, s)
    case TransmitReady => if ServerPorts(st) > 0 then Ready(st, s) else Built(st, s)
    case _ => true
  }

  predicate Promises(st: Setting, s: Server, ms: seq<Msg>)
  {
    forall i :: 0 <= i < |ms| ==> Promise(st, s, ms[i])
  }

  predicate ToServerOk(st: Setting, ms: seq<Msg>)
  {
    forall i :: 0 <= i < |ms| ==> ms[i] == ModuleListReq || ms[i] == ChainCreate(Print(st.mods))
  }

  /** What the client's state says about the server. */
  predicate ClientKnows(st: Setting, c: ClientState, s: Server)
  {
    match c
    case AwaitTransmitReady => Built(st, s) && ClientPorts(st) > 0
    case ClientRunning => Built(st, s) && (ClientPorts(st) > 0 && ServerPorts(st) > 0 ==> Ready(st, s))
    case _ => true
  }

  predicate ServerOk(st: Setting, s: Server)
  {
    && (|s.attached| == 1 || (|s.attached| == 1 + ServerPorts(st) && ServerPorts(st) <= MAX_WIRE_CONNECTIONS))
    && (s.state == ServerRunning ==> Built(st, s))
  }

  predicate Inv(st: Setting, w: World)
  {
    && ToServerOk(st, w.toServer)
    && Promises(st, w.server, w.toClient)
    && ClientKnows(st, w.client, w.server)
    && ServerOk(st, w.server)
  }

  /** The server never takes back what it has promised. */
  predicate Grows(st: Setting, s: Server, s': Server)
  {
    (Built(st, s) ==> Built(st, s')) && (Ready(st, s) ==> Ready(st, s'))
  }

  lemma PromisesGrow(st: Setting, s: Server, s': Server, ms: seq<Msg>)
    requires Promises(st, s, ms) && Grows(st, s, s')
    ensures Promises(st, s', ms)
  {
    hide Built, Ready;
    forall i | 0 <= i < |ms|
      ensures Promise(st, s', ms[i])
    {
      assert Promise(st, s, ms[i]);
    }
  }

  lemma {:induction false} AttachEarlyGrows(attached: seq<bool>, early: seq<nat>)
    ensures forall i :: 0 <= i < |attached| && attached[i] ==> AttachEarly(attached, early)[i]
    decreases |early|
  {
    if early != [] {
      AttachEarlyGrows(if early[0] < |attached| then attached[early[0] := true] else attached, early[1..]);
    }
  }

  lemma {:induction false} GrowLength(attached: seq<bool>, n: nat)
    ensures |Grow(attached, n)| == if |attached| >= n then |attached| else n
    ensures |attached| >= n ==> Grow(attached, n) == attached
    decreases if n > |attached| then n - |attached| else 0
  {
    if |attached| < n {
      GrowLength(attached + [false], n);
    }
  }

  lemma ChainCreateKeeps(st: Setting, s: Server)
    requires ServerOk(st, s)
    ensures var (s', out) := HandleChainCreate(st, s, Print(st.mods));
            ServerOk(st, s') && Grows(st, s, s') && Promises(st, s', out)
  {
    var n := ServerPorts(st);
    hide Parse, Print, AttachEarly, Grow;
    assert |Print(st.mods)| >= 1 by { PrintNotEmpty(st.mods); }
    GrowLength(s.attached, 1 + n);
    AttachEarlyGrows(Grow(s.attached, 1 + n), s.early);
  }

  lemma PrintNotEmpty(ms: seq<ModuleSpec>)
    ensures |Print(ms)| >= 1
  {
  }

  lemma ServerKeeps(st: Setting, s: Server, m: Msg)
    requires ServerOk(st, s) && (m == ModuleListReq || m == ChainCreate(Print(st.mods)))
    ensures var (s', out) := ServerHandle(st, s, m);
            ServerOk(st, s') && Grows(st, s, s') && Promises(st, s', out)
  {
    if m.ChainCreate? {
      ChainCreateKeeps(st, s);
    }
  }

  lemma AttachKeeps(st: Setting, s: Server, i: nat)
    requires ServerOk(st, s)
    ensures var (s', out) := AddDataConnection(s, i);
            ServerOk(st, s') && Grows(st, s, s') && Promises(st, s', out)
  {
    hide Parse, Print;
  }

  lemma PromisesConcat(st: Setting, s: Server, a: seq<Msg>, b: seq<Msg>)
    requires Promises(st, s, a) && Promises(st, s, b)
    ensures Promises(st, s, a + b)
  {
    hide Promise;
  }

  lemma KnowsGrows(st: Setting, c: ClientState, s: Server, s': Server)
    requires ClientKnows(st, c, s) && Grows(st, s, s')
    ensures ClientKnows(st, c, s')
  {
    hide Built, Ready;
  }

  lemma ServerReceivesKeeps(st: Setting, w: World)
    requires Inv(st, w) && w.toServer != []
    ensures Inv(st, Apply(st, w, ServerReceives))
  {
    var m := w.toServer[0];
    ServerKeeps(st, w.server, m);
    hide ServerHandle, ServerOk, Grows, Promise, ClientKnows;
    var (s, out) := ServerHandle(st, w.server, m);
    PromisesGrow(st, w.server, s, w.toClient);
    PromisesConcat(st, s, w.toClient, out);
    KnowsGrows(st, w.client, w.server, s);
  }

  lemma AttachEventKeeps(st: Setting, w: World, i: nat)
    requires Inv(st, w) && i in w.dialed
    ensures Inv(st, Apply(st, w, Attach(i)))
  {
    AttachKeeps(st, w.server, i);
    hide AddDataConnection, ServerOk, Grows, Promise, ClientKnows;
    var (s, out) := AddDataConnection(w.server, i);
    PromisesGrow(st, w.server, s, w.toClient);
    PromisesConcat(st, s, w.toClient, out);
    KnowsGrows(st, w.client, w.server, s);
  }

  lemma ClientReceivesKeeps(st: Setting, w: World)
    requires Inv(st, w) && w.toClient != []
    ensures Inv(st, Apply(st, w, ClientReceives))
  {
    hide Built, Ready, Parse, Print;
    assert Promise(st, w.server, w.toClient[0]);
  }

  lemma ApplyKeeps(st: Setting, w: World, e: Event)
    requires Inv(st, w)
    ensures Inv(st, Apply(st, w, e))
  {
    match e
    case ServerReceives =>
      if w.toServer != [] {
        ServerReceivesKeeps(st, w);
      }
    case ClientReceives =>
      if w.toClient != [] {
        ClientReceivesKeeps(st, w);
      }
    case Attach(i) =>
      if i in w.dialed {
        AttachEventKeeps(st, w, i);
      }
  }

  lemma {:induction false} RunKeeps(st: Setting, w: World, es: seq<Event>)
    requires Inv(st, w)
    ensures Inv(st, Run(st, w, es))
    decreases |es|
  {
    if es != [] {
      ApplyKeeps(st, w, es[0]);
      hide Inv, Apply;
      RunKeeps(st, Apply(st, w, es[0]), es[1..]);
    }
  }

  /** In every joint run: the server that a running client talks to has a complete chain of exactly the
      client's list if and only if every length fits its field and the server's construction came to its end;
      and the client's data connections are all attached if and only if the server's chain has at least as
      many ports as the client's. */
  lemma HandshakeExact(st: Setting, es: seq<Event>)
    ensures var w := Run(st, START, es);
            w.client == ClientRunning ==>
              && w.server.chain.Some?
              && (w.server.chain.value == Chain(st.mods, true) <==> Fits(st.mods) && st.serverBuild(st.mods).Complete?)
              && (ClientPorts(st) > 0 ==>
                    (AllAttached(w.server.attached) && |w.server.attached| >= 1 + ClientPorts(st) <==>
                     ServerPorts(st) >= ClientPorts(st)))
  {
    RunKeeps(st, START, es);
    ParsePrintIff(st.mods);
    hide Parse, Print, Fits;
  }

  /** With lists that fit and two complete constructions everything is as it should be. */
  lemma HonestPeers(st: Setting, es: seq<Event>)
    requires Fits(st.mods) && st.clientBuild.Complete? && st.serverBuild(st.mods).Complete?
    ensures var w := Run(st, START, es);
            w.client == ClientRunning ==>
              && w.server.chain == Some(Chain(st.mods, true))
              && (st.extra(st.mods) > 0 ==>
                    AllAttached(w.server.attached) && |w.server.attached| == 1 + st.extra(st.mods))
  {
    RunKeeps(st, START, es);
    ParsePrintIff(st.mods);
    hide Parse, Print, Fits;
  }

  /** A construction that fails on the server goes unnoticed: the client runs, waiting connections and all,
      against a server without a single module and with no data connection attached but the first. */
  lemma FailedBuildRuns(st: Setting)
    requires st.serverHasAll && Fits(st.mods) && ClientPorts(st) > 0 && st.serverBuild(st.mods) == Stopped(0)
    ensures var w := Run(st, START, [ServerReceives, ClientReceives, ServerReceives, ClientReceives, ClientReceives,
                                     ClientReceives]);
            w.client == ClientRunning && w.server.chain == Some(Chain(st.mods, false)) && w.server.attached == [true]
  {
    hide *;
    FailedHalf(st);
    FailedRest(st);
    SixSteps(st, ServerReceives, ClientReceives, ServerReceives, ClientReceives, ClientReceives, ClientReceives);
  }

  /** The session announces a chain that it does not have. */
  function Hollow(st: Setting): World
  {
    World(AwaitChainReady, Server(ServerRunning, Some(Chain(st.mods, false)), [true], []), [],
          [TransmitReady, ChainReady, TransmitReady], {})
  }

  lemma FailedHalf(st: Setting)
    requires st.serverHasAll && Fits(st.mods) && st.serverBuild(st.mods) == Stopped(0)
    ensures Apply(st, Apply(st, Apply(st, START, ServerReceives), ClientReceives), ServerReceives) == Hollow(st)
  {
    ParsePrintIff(st.mods);
    PrintNotEmpty(st.mods);
    hide Parse, Print, Fits;
    var w1 := Apply(st, START, ServerReceives);
    assert w1 == World(AwaitModuleListRes, START.server, [], [ModuleListRes(true)], {});
    var w2 := Apply(st, w1, ClientReceives);
    assert w2 == World(AwaitChainReady, START.server, [ChainCreate(Print(st.mods))], [], {});
    assert Grow([true], 1) == [true];
  }

  lemma FailedRest(st: Setting)
    requires ClientPorts(st) > 0
    ensures var w := Apply(st, Apply(st, Apply(st, Hollow(st), ClientReceives), ClientReceives), ClientReceives);
            && w.client == ClientRunning
            && w.server.chain == Some(Chain(st.mods, false)) && w.server.attached == [true]
  {
    hide Parse, Print, Fits, Outputs;
    var w4 := Apply(st, Hollow(st), ClientReceives);
    assert w4.client == AwaitChainReady && w4.toClient == [ChainReady, TransmitReady];
    var w5 := Apply(st, w4, ClientReceives);
    assert w5.client == AwaitTransmitReady && w5.toClient == [TransmitReady];
  }

  /** The conclusion is not empty: an exchange between honest peers with one extra output gets the client to
      the running state. */
  lemma CanRun(st: Setting)
    requires st.serverHasAll && Fits(st.mods) && st.extra(st.mods) == 1
    requires st.clientBuild.Complete? && st.serverBuild(st.mods).Complete?
    ensures var w := Run(st, START, [ServerReceives, ClientReceives, ServerReceives, ClientReceives, Attach(1),
                                     ClientReceives]);
            w.client == ClientRunning
  {
    hide *;
    FirstHalf(st);
    SecondHalf(st);
    SixSteps(st, ServerReceives, ClientReceives, ServerReceives, ClientReceives, Attach(1), ClientReceives);
  }

  /** The chain is built and announced, with its second connection still missing. */
  function Announced(st: Setting): World
  {
    World(AwaitChainReady, Server(ServerRunning, Some(Chain(st.mods, true)), [true, false], []), [], [ChainReady], {})
  }

  lemma FirstHalf(st: Setting)
    requires st.serverHasAll && Fits(st.mods) && st.extra(st.mods) == 1 && st.serverBuild(st.mods).Complete?
    ensures Apply(st, Apply(st, Apply(st, START, ServerReceives), ClientReceives), ServerReceives) == Announced(st)
  {
    ParsePrintIff(st.mods);
    PrintNotEmpty(st.mods);
    hide Parse, Print, Fits;
    var w1 := Apply(st, START, ServerReceives);
    assert w1 == World(AwaitModuleListRes, START.server, [], [ModuleListRes(true)], {});
    var w2 := Apply(st, w1, ClientReceives);
    assert w2 == World(AwaitChainReady, START.server, [ChainCreate(Print(st.mods))], [], {});
    assert Grow([true], 2) == [true, false];
    assert ![true, false][1];
  }

  lemma SecondHalf(st: Setting)
    requires st.extra(st.mods) == 1 && st.clientBuild.Complete?
    ensures Apply(st, Apply(st, Apply(st, Announced(st), ClientReceives), Attach(1)), ClientReceives).client ==
            ClientRunning
  {
    hide Parse, Print, Fits;
    assert Outputs(1) == {1};
    var w4 := Apply(st, Announced(st), ClientReceives);
    assert w4.client == AwaitTransmitReady && w4.toClient == [] && 1 in w4.dialed && w4.server == Announced(st).server;
    var w5 := Apply(st, w4, Attach(1));
    assert w5.server.attached == [true, true];
    assert w5.toClient == [TransmitReady];
  }

  lemma SixSteps(st: Setting, a: Event, b: Event, c: Event, d: Event, e: Event, f: Event)
    ensures Run(st, START, [a, b, c, d, e, f]) ==
            Apply(st, Apply(st, Apply(st, Apply(st, Apply(st, Apply(st, START, a), b), c), d), e), f)
  {
    hide Apply;
    assert [a, b, c, d, e, f][1..] == [b, c, d, e, f];
    assert [b, c, d, e, f][1..] == [c, d, e, f];
    assert [c, d, e, f][1..] == [d, e, f];
    assert [d, e, f][1..] == [e, f];
    assert [e, f][1..] == [f];
    var w2 := Apply(st, Apply(st, START, a), b);
    var w4 := Apply(st, Apply(st, w2, c), d);
    assert Run(st, Apply(st, w4, e), [f]) == Apply(st, Apply(st, w4, e), f);
    assert Run(st, w4, [e, f]) == Apply(st, Apply(st, w4, e), f);
    assert Run(st, Apply(st, w2, c), [d, e, f]) == Run(st, w4, [e, f]);
    assert Run(st, w2, [c, d, e, f]) == Run(st, w4, [e, f]);
    assert Run(st, Apply(st, START, a), [b, c, d, e, f]) == Run(st, w2, [c, d, e, f]);
  }
}
