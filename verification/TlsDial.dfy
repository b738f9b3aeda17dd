/** The rendezvous of the two TLS handshakes in httpsTlsDial (proxy/attacker.go): the dialling
    goroutine, the goroutine of the client handshake with its configuration callback, and the five
    channels between them. */
module TlsDial {
  import opened Wrappers

  /** An application protocol of ALPN (RFC 7301, section 3.2); empty when none was negotiated. */
  type Protocol = string

  datatype MainPc =
    | AwaitHello        // select on errChan1 and clientHelloChan
    | ServerHandshake   // serverTlsHandshake runs
    | SendState         // serverTlsStateChan <- state
    | AwaitClient       // select on errChan1 and clientHandshakeDoneChan
    | CloseClient       // cconn.Close()
    | CloseServer       // conn.Close()
    | SendErr2          // errChan2 <- err
    | Serve             // a.serveConn
    | MainDone

  datatype ClientPc =
    | Handshaking       // HandshakeContext before the callback
    | SendHello         // clientHelloChan <- chi
    | AwaitServer       // select on errChan2 and serverTlsStateChan
    | MakeConfig        // GetCert and the configuration
    | Finishing         // the rest of the handshake
    | SendErr1          // errChan1 <- err
    | CloseDone         // close(clientHandshakeDoneChan)
    | ClientDone

  /** `err1` and `err2` say whether the one-place buffers are full. `afterFailure` remembers that the
      main path is closing because the server handshake failed. */
  datatype State = State(
    main: MainPc, client: ClientPc,
    err1: bool, err2: bool, doneClosed: bool,
    serverOk: bool, negotiated: Protocol, afterFailure: bool,
    offered: Option<seq<Protocol>>, clientOk: bool,
    clientClosed: bool, serverClosed: bool, served: bool)

  const INIT :=
    State(AwaitHello, Handshaking, false, false, false, false, "", false, None, false, false, false, false)

  /** The steps; their arguments are what the handshakes and the certificate authority decide. */
  datatype Step =
    | HandshakeFailsEarly
    | CallbackStarts
    | HelloExchanged
    | MainReceivesErr1
    | ServerHandshakeEnds(ok: bool, protocol: Protocol)
    | StateExchanged
    | CallbackReceivesErr2
    | ConfigMade(certOk: bool)
    | HandshakeEnds(ok: bool)
    | Err1Sent
    | DoneChanClosed
    | MainSeesDone
    | ClientConnClosed
    | ServerConnClosed
    | Err2Sent
    | ConnServed

  predicate Enabled(t: Step, s: State) {
    match t
    case HandshakeFailsEarly => s.client == Handshaking
    case CallbackStarts => s.client == Handshaking
    // an unbuffered send needs its receiver
    case HelloExchanged => s.client == SendHello && s.main == AwaitHello
    case MainReceivesErr1 => (s.main == AwaitHello || s.main == AwaitClient) && s.err1
    case ServerHandshakeEnds(_, _) => s.main == ServerHandshake
    case StateExchanged => s.main == SendState && s.client == AwaitServer
    case CallbackReceivesErr2 => s.client == AwaitServer && s.err2
    case ConfigMade(_) => s.client == MakeConfig
    case HandshakeEnds(_) => s.client == Finishing
    case Err1Sent => s.client == SendErr1 && !s.err1
    case DoneChanClosed => s.client == CloseDone
    case MainSeesDone => s.main == AwaitClient && s.doneClosed
    case ClientConnClosed => s.main == CloseClient
    case ServerConnClosed => s.main == CloseServer
    case Err2Sent => s.main == SendErr2 && !s.err2
    case ConnServed => s.main == Serve
  }

  function Do(t: Step, s: State): State
    requires Enabled(t, s)
  {
    match t
    case HandshakeFailsEarly => s.(client := SendErr1)
    case CallbackStarts => s.(client := SendHello)
    case HelloExchanged => s.(client := AwaitServer, main := ServerHandshake)
    case MainReceivesErr1 => s.(main := CloseClient, err1 := false)
    case ServerHandshakeEnds(ok, p) =>
      if ok then s.(main := SendState, serverOk := true, negotiated := p)
      else s.(main := CloseClient, afterFailure := true)
    case StateExchanged => s.(main := AwaitClient, client := MakeConfig)
    case CallbackReceivesErr2 => s.(client := SendErr1, err2 := false)
    case ConfigMade(certOk) =>
      if certOk then s.(client := Finishing, offered := Some(if s.negotiated == "" then [] else [s.negotiated]))
      else s.(client := SendErr1)
    case HandshakeEnds(ok) => if ok then s.(client := CloseDone, clientOk := true) else s.(client := SendErr1)
    case Err1Sent => s.(client := ClientDone, err1 := true)
    case DoneChanClosed => s.(client := ClientDone, doneClosed := true)
    case MainSeesDone => s.(main := Serve)
    case ClientConnClosed => s.(main := CloseServer, clientClosed := true)
    case ServerConnClosed => s.(main := if s.afterFailure then SendErr2 else MainDone, serverClosed := true)
    case Err2Sent => s.(main := MainDone, err2 := true)
    case ConnServed => s.(main := MainDone, served := true)
  }

  // ----- runs

  /** The state after `steps`, taken one after the other from the start; None when one was not possible. */
  function After(steps: seq<Step>): Option<State> {
    if steps == [] then Some(INIT) else
      var p, t := After(steps[..|steps| - 1]), steps[|steps| - 1];
      if p.Some? && Enabled(t, p.value) then Some(Do(t, p.value)) else None
  }

  ghost predicate Run(steps: seq<Step>, s: State) { After(steps) == Some(s) }

  /** Where each side may be while the other is at a given place. */
  predicate Together(s: State) {
    match s.main
    case AwaitHello => s.client in {Handshaking, SendHello, SendErr1, ClientDone} && (s.client == ClientDone ==> s.err1)
    case ServerHandshake => s.client == AwaitServer
    case SendState => s.client == AwaitServer
    case AwaitClient =>
      s.client in {MakeConfig, Finishing, SendErr1, CloseDone, ClientDone} &&
      (s.client == ClientDone ==> s.err1 || s.doneClosed)
    case Serve => s.client == ClientDone
    case SendErr2 => s.client == AwaitServer
    case CloseClient => if s.afterFailure then s.client == AwaitServer else s.client == ClientDone
    case CloseServer => if s.afterFailure then s.client == AwaitServer else s.client == ClientDone
    case MainDone =>
      if s.afterFailure then s.client in {AwaitServer, SendErr1, ClientDone} && (s.client == AwaitServer ==> s.err2)
      else s.client == ClientDone
  }

  predicate Inv(s: State) {
    Together(s) &&
    // buffers
    (s.err1 ==> s.client == ClientDone && !s.clientOk) &&
    (s.err2 ==> s.main == MainDone && s.afterFailure && s.client == AwaitServer) &&
    (s.doneClosed <==> s.client == ClientDone && s.clientOk) &&
    (s.client == CloseDone ==> s.clientOk) && (s.clientOk ==> s.client in {CloseDone, ClientDone}) &&
    // what was negotiated and offered
    (s.main in {SendState, AwaitClient, Serve} ==> s.serverOk) &&
    (s.serverOk ==> s.main in {SendState, AwaitClient, Serve, CloseClient, CloseServer, MainDone}) &&
    (s.serverOk ==> !s.afterFailure) &&
    (s.afterFailure ==> s.main in {CloseClient, CloseServer, SendErr2, MainDone}) &&
    (s.client in {MakeConfig, Finishing} ==> s.serverOk) &&
    (s.client in {Finishing, CloseDone} || s.clientOk ==> s.offered.Some?) &&
    (s.offered.Some? ==> s.serverOk && s.offered.value == if s.negotiated == "" then [] else [s.negotiated]) &&
    // endings
    (s.main == Serve ==> s.serverOk && s.clientOk) &&
    (s.served ==> s.main == MainDone && s.serverOk && s.clientOk && !s.clientClosed && !s.serverClosed) &&
    (s.clientClosed ==> s.main in {CloseServer, SendErr2, MainDone}) &&
    (s.serverClosed ==> s.main in {SendErr2, MainDone}) &&
    (s.main in {CloseServer, SendErr2} ==> s.clientClosed) &&
    (s.main == SendErr2 ==> s.serverClosed && s.afterFailure) &&
    (s.main in {CloseClient, CloseServer} ==> !(s.serverOk && s.clientOk)) &&
    (s.main == MainDone ==> s.served || (s.clientClosed && s.serverClosed && !(s.serverOk && s.clientOk)))
  }

  lemma StepKeepsInv(t: Step, s: State)
    requires Inv(s) && Enabled(t, s)
    ensures Inv(Do(t, s))
  {
  }

  lemma {:induction false} RunKeepsInv(steps: seq<Step>, s: State)
    requires Run(steps, s)
    ensures Inv(s)
    decreases |steps|
  {
    if steps != [] {
      var n := |steps| - 1;
      var p := After(steps[..n]).value;
      RunKeepsInv(steps[..n], p);
      StepKeepsInv(steps[n], p);
    }
  }

  // ----- progress

  predicate Finished(s: State) { s.main == MainDone && s.client == ClientDone }

  /** Some step that can be taken now. */
  function SomeStep(s: State): Step {
    match s.client
    case Handshaking => CallbackStarts
    case MakeConfig => ConfigMade(true)
    case Finishing => HandshakeEnds(true)
    case SendErr1 => Err1Sent
    case CloseDone => DoneChanClosed
    case SendHello => HelloExchanged
    case _ =>
      match s.main
      case ServerHandshake => ServerHandshakeEnds(true, "")
      case SendState => StateExchanged
      case CloseClient => ClientConnClosed
      case CloseServer => ServerConnClosed
      case SendErr2 => Err2Sent
      case Serve => ConnServed
      case AwaitClient => if s.doneClosed then MainSeesDone else MainReceivesErr1
      case AwaitHello => MainReceivesErr1
      case MainDone => CallbackReceivesErr2
  }

  function MainRank(m: MainPc): nat {
    match m
    case AwaitHello => 7
    case ServerHandshake => 6
    case SendState => 5
    case AwaitClient => 4
    case CloseClient => 3
    case CloseServer => 2
    case SendErr2 => 1
    case Serve => 1
    case MainDone => 0
  }

  function ClientRank(c: ClientPc): nat {
    match c
    case Handshaking => 6
    case SendHello => 5
    case AwaitServer => 4
    case MakeConfig => 3
    case Finishing => 2
    case SendErr1 => 1
    case CloseDone => 1
    case ClientDone => 0
  }

  function Rank(s: State): nat { MainRank(s.main) + ClientRank(s.client) }

  lemma StepIsPossible(s: State)
    requires Inv(s) && !Finished(s)
    ensures Enabled(SomeStep(s), s)
  {
  }

  lemma StepLowersRank(t: Step, s: State)
    requires Inv(s) && Enabled(t, s)
    ensures Rank(Do(t, s)) < Rank(s)
  {
  }

  lemma NothingAfterEnd(t: Step, s: State)
    requires Inv(s) && Finished(s)
    ensures !Enabled(t, s)
  {
  }

  /** Neither goroutine ever waits for ever: in every reachable state that is not finished some step is
      possible, each step brings the end nearer, and at the end no step is left. */
  lemma NoDeadlock(steps: seq<Step>, s: State)
    requires Run(steps, s)
    ensures !Finished(s) ==> Enabled(SomeStep(s), s)
    ensures forall t | Enabled(t, s) :: Rank(Do(t, s)) < Rank(s)
    ensures Finished(s) ==> forall t :: !Enabled(t, s)
  {
    RunKeepsInv(steps, s);
    hide Inv;
    hide Enabled;
    hide Do;
    hide Rank;
    hide SomeStep;
    forall t | Enabled(t, s) ensures Rank(Do(t, s)) < Rank(s) {
      StepLowersRank(t, s);
    }
    if Finished(s) {
      forall t ensures !Enabled(t, s) {
        NothingAfterEnd(t, s);
      }
    } else {
      StepIsPossible(s);
    }
  }

  lemma {:induction false} RunsAreShort(steps: seq<Step>, s: State)
    requires Run(steps, s)
    ensures |steps| + Rank(s) <= Rank(INIT) == 13
    decreases |steps|
  {
    if steps != [] {
      var n := |steps| - 1;
      var p := After(steps[..n]).value;
      RunsAreShort(steps[..n], p);
      RunKeepsInv(steps[..n], p);
      StepLowersRank(steps[n], p);
      hide Do;
    }
  }

  // ----- what a run guarantees

  /** The client is configured only after the server handshake succeeded, and is offered exactly what
      that handshake negotiated. */
  lemma OfferFollowsServer(steps: seq<Step>, s: State)
    requires Run(steps, s) && s.offered.Some?
    ensures s.serverOk && (s.offered.value == if s.negotiated == "" then [] else [s.negotiated])
  {
    RunKeepsInv(steps, s);
  }

  /** When both goroutines have ended, the connection was served exactly when both handshakes
      succeeded, and otherwise both connections are closed. */
  lemma FinishedOutcome(steps: seq<Step>, s: State)
    requires Run(steps, s) && Finished(s)
    ensures s.served <==> s.serverOk && s.clientOk
    ensures s.served ==> !s.clientClosed && !s.serverClosed
    ensures !s.served ==> s.clientClosed && s.serverClosed
    ensures s.served ==> s.offered.Some?
  {
    RunKeepsInv(steps, s);
  }

  // ----- what was decided

  /** A handshake or the certificate authority gave an error. */
  predicate Fails(t: Step) {
    t == HandshakeFailsEarly || (t.ServerHandshakeEnds? && !t.ok) || t == ConfigMade(false) || t == HandshakeEnds(false)
  }

  /** The flags say which steps were taken. */
  ghost predicate Recorded(steps: seq<Step>, s: State) {
    ServerRecorded(steps, s) && FailureRecorded(steps, s) &&
    (s.clientOk <==> HandshakeEnds(true) in steps) && (s.offered.Some? <==> ConfigMade(true) in steps) &&
    (s.clientClosed <==> ClientConnClosed in steps) && (s.serverClosed <==> ServerConnClosed in steps) &&
    (s.served <==> ConnServed in steps)
  }

  ghost predicate ServerRecorded(steps: seq<Step>, s: State) {
    (s.serverOk <==> ServerHandshakeEnds(true, s.negotiated) in steps) &&
    forall p :: ServerHandshakeEnds(true, p) in steps ==> p == s.negotiated && s.serverOk
  }

  ghost predicate FailureRecorded(steps: seq<Step>, s: State) { Failed(s) <==> exists t :: t in steps && Fails(t) }

  predicate Failed(s: State) {
    s.afterFailure || s.client == SendErr1 || (s.client == ClientDone && !s.clientOk)
  }

  lemma InAppend(steps: seq<Step>, t: Step)
    ensures forall x :: x in steps + [t] <==> x in steps || x == t
  {
  }

  lemma FailuresAppend(steps: seq<Step>, t: Step)
    ensures (exists x :: x in steps + [t] && Fails(x)) <==> (exists x :: x in steps && Fails(x)) || Fails(t)
  {
    InAppend(steps, t);
    hide Fails;
    assert t in steps + [t];
  }

  lemma StepFails(t: Step, s: State)
    requires Inv(s) && Enabled(t, s)
    ensures Failed(Do(t, s)) <==> Failed(s) || Fails(t)
  {
  }

  lemma StepRecordsServer(steps: seq<Step>, s: State, t: Step)
    requires Inv(s) && ServerRecorded(steps, s) && Enabled(t, s)
    ensures ServerRecorded(steps + [t], Do(t, s))
  {
    InAppend(steps, t);
  }

  lemma StepRecords(steps: seq<Step>, s: State, t: Step)
    requires Inv(s) && Recorded(steps, s) && Enabled(t, s)
    ensures Recorded(steps + [t], Do(t, s))
  {
    StepRecordsServer(steps, s, t);
    StepFails(t, s);
    FailuresAppend(steps, t);
    InAppend(steps, t);
    hide ServerRecorded;
    hide Failed;
    hide Fails;
    hide Together;
  }

  lemma {:induction false} RunRecords(steps: seq<Step>, s: State)
    requires Run(steps, s)
    ensures Recorded(steps, s)
    decreases |steps|
  {
    if steps != [] {
      var n := |steps| - 1;
      var p := After(steps[..n]).value;
      RunRecords(steps[..n], p);
      RunKeepsInv(steps[..n], p);
      hide Inv;
      hide Recorded;
      hide Do;
      StepRecords(steps[..n], p, steps[n]);
      assert steps == steps[..n] + [steps[n]];
    }
  }

  /** When both goroutines have ended, the connection was served exactly when the server handshake, the
      certificate and the client handshake succeeded, and that is exactly when nothing failed on the way;
      otherwise both connections have been closed. */
  lemma ServedExactly(steps: seq<Step>, s: State)
    requires Run(steps, s) && Finished(s)
    ensures
      ConnServed in steps <==> (exists p :: ServerHandshakeEnds(true, p) in steps) && HandshakeEnds(true) in steps
    ensures ConnServed in steps ==> ConfigMade(true) in steps
    ensures ConnServed in steps <==> !exists t :: t in steps && Fails(t)
    ensures ConnServed !in steps <==> ClientConnClosed in steps && ServerConnClosed in steps
    ensures ConnServed in steps ==> ClientConnClosed !in steps && ServerConnClosed !in steps
    ensures s.served <==> ConnServed in steps
  {
    RunKeepsInv(steps, s);
    RunRecords(steps, s);
    hide Fails;
  }

  /** The client is offered just the protocol that the server handshake of the run negotiated, and nothing
      before there is one. */
  lemma OfferIsNegotiated(steps: seq<Step>, s: State)
    requires Run(steps, s)
    ensures s.offered.Some? ==> exists p :: ServerHandshakeEnds(true, p) in steps
    ensures
      forall p :: ServerHandshakeEnds(true, p) in steps ==>
        s.offered.None? || s.offered == Some(if p == "" then [] else [p])
    ensures s.offered.Some? <==> ConfigMade(true) in steps
  {
    RunKeepsInv(steps, s);
    RunRecords(steps, s);
    hide Fails;
  }

  /** From every reachable state the steps that are possible lead to the end. */
  lemma {:induction false} CanFinish(steps: seq<Step>, s: State) returns (more: seq<Step>, last: State)
    requires Run(steps, s)
    ensures Run(steps + more, last) && Finished(last)
    decreases Rank(s)
  {
    NoDeadlock(steps, s);
    hide Enabled;
    hide Do;
    hide SomeStep;
    hide Finished;
    hide Rank;
    if Finished(s) {
      more, last := [], s;
      assert steps + [] == steps;
    } else {
      var t := SomeStep(s);
      var longer := steps + [t];
      assert longer[..|longer| - 1] == steps;
      assert After(longer) == Some(Do(t, s));
      var rest, end := CanFinish(longer, Do(t, s));
      more, last := [t] + rest, end;
      assert steps + more == longer + rest;
    }
  }
}
