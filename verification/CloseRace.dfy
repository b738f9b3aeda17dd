/** The Close methods of proxy/entry.go called by any number of goroutines at once. A step is what one
    goroutine does between two points where others can run; what happens under a mutex is one step. */
module CloseRace {
  import opened Wrappers

  type Error = Option<string>

  /** Where a call is. `ClientReturn` remembers whether it had seen an attached server. */
  datatype Frame =
    | ClientEnter | ClientChan | ClientHooks(next: nat) | ClientServer | ClientReturn(sawServer: bool)
    | ServerEnter | ServerHooks(next: nat) | ServerBack | ServerReturn

  datatype Return = ClientReturned(won: bool, sawServer: bool, err: Error) | ServerReturned(won: bool, err: Error)

  /** The fields of the two connections and of their context. `clientWinner` and `serverWinner` say which
      call (goroutine, depth) found the connection open. */
  datatype Shared = Shared(
    addons: nat, attached: bool,
    clientClosed: bool, clientErr: Error, clientCloses: nat, chanCloses: nat, clientHooks: seq<nat>,
    clientWinner: Option<(nat, nat)>,
    serverClosed: bool, serverErr: Error, serverCloses: nat, serverHooks: seq<nat>,
    serverWinner: Option<(nat, nat)>)

  /** A goroutine is its stack of calls, the running one last. */
  datatype State = State(shared: Shared, threads: seq<seq<Frame>>, returned: seq<Return>)

  function Start(addons: nat): State {
    State(Shared(addons, false, false, None, 0, 0, [], None, false, None, 0, [], None), [], [])
  }

  /** `result` is what the underlying Close returns, `back` whether the server side closes the client. */
  datatype Step =
    | CallsClient
    | CallsServer
    | Attaches
    | Moves(thread: nat, result: Error, back: bool)

  predicate Enabled(t: Step, s: State) {
    match t
    case CallsServer => s.shared.attached
    case Moves(i, _, _) => i < |s.threads| && s.threads[i] != []
    case _ => true
  }

  function Top(st: seq<Frame>): Frame
    requires st != []
  {
    st[|st| - 1]
  }

  function Below(st: seq<Frame>): seq<Frame>
    requires st != []
  {
    st[..|st| - 1]
  }

  /** What a running call does next: the frames it turns into, the shared fields after it, and what it
      returns when it ends. `at` is its goroutine and depth. */
  datatype Turned = Turned(made: seq<Frame>, shared: Shared, ret: Option<Return>)

  function Turn(f: Frame, sh: Shared, at: (nat, nat), result: Error, back: bool): Turned {
    match f
    case ClientEnter =>
      if sh.clientClosed then Turned([], sh, Some(ClientReturned(false, false, sh.clientErr)))
      else Turned([ClientChan], sh.(clientClosed := true, clientErr := result, clientCloses := sh.clientCloses + 1,
                                    clientWinner := Some(at)), None)
    case ClientChan => Turned([ClientHooks(0)], sh.(chanCloses := sh.chanCloses + 1), None)
    case ClientHooks(k) =>
      if k < sh.addons then Turned([ClientHooks(k + 1)], sh.(clientHooks := sh.clientHooks + [k]), None)
      else Turned([ClientServer], sh, None)
    case ClientServer =>
      Turned(if sh.attached then [ClientReturn(true), ServerEnter] else [ClientReturn(false)], sh, None)
    case ClientReturn(saw) => Turned([], sh, Some(ClientReturned(true, saw, sh.clientErr)))
    case ServerEnter =>
      if sh.serverClosed then Turned([], sh, Some(ServerReturned(false, sh.serverErr)))
      else Turned([ServerHooks(0)], sh.(serverClosed := true, serverErr := result, serverCloses := sh.serverCloses + 1,
                                        serverWinner := Some(at)), None)
    case ServerHooks(k) =>
      if k < sh.addons then Turned([ServerHooks(k + 1)], sh.(serverHooks := sh.serverHooks + [k]), None)
      else Turned([ServerBack], sh, None)
    case ServerBack => Turned(if back then [ServerReturn, ClientEnter] else [ServerReturn], sh, None)
    case ServerReturn => Turned([], sh, Some(ServerReturned(true, sh.serverErr)))
  }

  function Move(s: State, i: nat, result: Error, back: bool): State
    requires i < |s.threads| && s.threads[i] != []
  {
    var st, f := Below(s.threads[i]), Top(s.threads[i]);
    var t := Turn(f, s.shared, (i, |st|), result, back);
    State(t.shared, s.threads[i := st + t.made], if t.ret.Some? then s.returned + [t.ret.value] else s.returned)
  }

  function Do(t: Step, s: State): State
    requires Enabled(t, s)
  {
    match t
    case CallsClient => s.(threads := s.threads + [[ClientEnter]])
    case CallsServer => s.(threads := s.threads + [[ServerEnter]])
    case Attaches => s.(shared := s.shared.(attached := true))
    case Moves(i, result, back) => Move(s, i, result, back)
  }

  /** The state after `steps`; None when one of them was not possible. */
  function After(addons: nat, steps: seq<Step>): Option<State> {
    if steps == [] then Some(Start(addons)) else
      var p, t := After(addons, steps[..|steps| - 1]), steps[|steps| - 1];
      if p.Some? && Enabled(t, p.value) then Some(Do(t, p.value)) else None
  }

  // ----- the invariant

  predicate ClientWins(f: Frame) { f.ClientChan? || f.ClientHooks? || f.ClientServer? || f.ClientReturn? }

  predicate ServerWins(f: Frame) { f.ServerHooks? || f.ServerBack? || f.ServerReturn? }

  function UpTo(n: nat): seq<nat> { seq(n, i requires 0 <= i < n => i) }

  /** The winner of the client side has closed the channel and told every addon. */
  predicate ClientDone(sh: Shared) { sh.chanCloses == 1 && |sh.clientHooks| == sh.addons }

  /** The winner of the server side has told every addon. */
  predicate ServerDone(sh: Shared) { |sh.serverHooks| == sh.addons }

  /** What the shared fields owe a call `f` at `at`. */
  predicate Owed(sh: Shared, at: (nat, nat), f: Frame) {
    (ClientWins(f) ==> sh.clientWinner == Some(at)) &&
    (ServerWins(f) ==> sh.serverWinner == Some(at)) &&
    (f.ClientChan? ==> sh.chanCloses == 0 && sh.clientHooks == []) &&
    (f.ClientHooks? ==> sh.chanCloses == 1 && |sh.clientHooks| == f.next) &&
    (f.ServerHooks? ==> |sh.serverHooks| == f.next) &&
    (f.ClientServer? || f.ClientReturn? ==> ClientDone(sh)) &&
    (f.ServerBack? || f.ServerReturn? ==> ServerDone(sh))
  }

  /** A client Close that saw a server has the server's Close right above it until the server is closed. */
  predicate Covered(sh: Shared, st: seq<Frame>, d: nat)
    requires d < |st|
  {
    st[d] == ClientReturn(true) ==> sh.serverClosed || (d + 1 < |st| && st[d + 1] == ServerEnter)
  }

  predicate SharedInv(sh: Shared) {
    sh.clientCloses == (if sh.clientClosed then 1 else 0) &&
    sh.serverCloses == (if sh.serverClosed then 1 else 0) &&
    sh.chanCloses <= 1 &&
    (!sh.clientClosed ==> sh.chanCloses == 0 && sh.clientHooks == [] && sh.clientWinner == None) &&
    (!sh.serverClosed ==> sh.serverHooks == [] && sh.serverWinner == None) &&
    |sh.clientHooks| <= sh.addons && sh.clientHooks == UpTo(|sh.clientHooks|) &&
    |sh.serverHooks| <= sh.addons && sh.serverHooks == UpTo(|sh.serverHooks|)
  }

  predicate ReturnInv(sh: Shared, r: Return) {
    match r
    case ClientReturned(won, saw, err) =>
      sh.clientClosed && err == sh.clientErr && (saw ==> sh.serverClosed) && (won ==> ClientDone(sh))
    case ServerReturned(won, err) => sh.serverClosed && err == sh.serverErr && (won ==> ServerDone(sh))
  }

  predicate FrameInv(s: State, i: nat, d: nat)
    requires i < |s.threads| && d < |s.threads[i]|
  {
    Owed(s.shared, (i, d), s.threads[i][d]) && Covered(s.shared, s.threads[i], d)
  }

  predicate Inv(s: State) {
    SharedInv(s.shared) &&
    (forall i, d :: 0 <= i < |s.threads| && 0 <= d < |s.threads[i]| ==> FrameInv(s, i, d)) &&
    (forall r :: r in s.returned ==> ReturnInv(s.shared, r))
  }

  /** What is closed stays closed, with its error, and what its winner has done stays done. */
  predicate Keeps(sh: Shared, sh': Shared) {
    sh'.addons == sh.addons &&
    (sh.clientClosed ==> sh'.clientClosed && sh'.clientErr == sh.clientErr) &&
    (sh.serverClosed ==> sh'.serverClosed && sh'.serverErr == sh.serverErr) &&
    (sh.clientClosed && ClientDone(sh) ==> ClientDone(sh')) && (sh.serverClosed && ServerDone(sh) ==> ServerDone(sh'))
  }

  lemma UpToStep(n: nat)
    ensures UpTo(n) + [n] == UpTo(n + 1) && |UpTo(n)| == n
  {
  }

  lemma TurnKeepsShared(f: Frame, sh: Shared, at: (nat, nat), result: Error, back: bool)
    requires SharedInv(sh) && Owed(sh, at, f)
    ensures SharedInv(Turn(f, sh, at, result, back).shared) && Keeps(sh, Turn(f, sh, at, result, back).shared)
  {
    UpToStep(|sh.clientHooks|);
    UpToStep(|sh.serverHooks|);
    hide UpTo;
  }

  /** Another call is still owed what it was: two calls cannot both have won. */
  lemma TurnKeepsOther(f: Frame, sh: Shared, at: (nat, nat), result: Error, back: bool, at2: (nat, nat), g: Frame)
    requires SharedInv(sh) && Owed(sh, at, f) && Owed(sh, at2, g) && at != at2
    ensures Owed(Turn(f, sh, at, result, back).shared, at2, g)
  {
    hide UpTo;
  }

  lemma TurnMakes(f: Frame, sh: Shared, at: (nat, nat), result: Error, back: bool, k: nat)
    requires SharedInv(sh) && Owed(sh, at, f)
    requires k < |Turn(f, sh, at, result, back).made|
    ensures Owed(Turn(f, sh, at, result, back).shared, (at.0, at.1 + k), Turn(f, sh, at, result, back).made[k])
  {
    hide UpTo;
  }

  /** What is returned is the stored error; a client Close that saw a server leaves it closed. */
  lemma TurnReturns(f: Frame, sh: Shared, at: (nat, nat), result: Error, back: bool)
    requires SharedInv(sh) && Owed(sh, at, f) && (f == ClientReturn(true) ==> sh.serverClosed)
    requires Turn(f, sh, at, result, back).ret.Some?
    ensures ReturnInv(Turn(f, sh, at, result, back).shared, Turn(f, sh, at, result, back).ret.value)
  {
    hide UpTo;
  }

  lemma TurnCovers(st: seq<Frame>, f: Frame, sh: Shared, at: (nat, nat), result: Error, back: bool, d: nat)
    requires d < |st + Turn(f, sh, at, result, back).made|
    requires d < |st| ==> Covered(sh, st + [f], d)
    ensures Covered(Turn(f, sh, at, result, back).shared, st + Turn(f, sh, at, result, back).made, d)
  {
    var t := Turn(f, sh, at, result, back);
    var after := st + t.made;
    if d < |st| {
      assert after[d] == st[d] == (st + [f])[d];
      if d + 1 < |st| {
        assert after[d + 1] == st[d + 1] == (st + [f])[d + 1];
      }
    } else {
      assert after[d] == t.made[d - |st|];
      if d + 1 < |after| {
        assert after[d + 1] == t.made[d + 1 - |st|];
      }
    }
  }

  lemma MoveKeepsFrame(s: State, i: nat, result: Error, back: bool, j: nat, d: nat)
    requires Inv(s) && i < |s.threads| && s.threads[i] != []
    requires j < |s.threads| && d < |Move(s, i, result, back).threads[j]|
    ensures FrameInv(Move(s, i, result, back), j, d)
  {
    var st, f, s' := Below(s.threads[i]), Top(s.threads[i]), Move(s, i, result, back);
    var at := (i, |st|);
    assert FrameInv(s, i, |st|);
    TurnKeepsShared(f, s.shared, at, result, back);
    hide SharedInv;
    hide Turn;
    hide Owed;
    if j != i {
      assert s'.threads[j] == s.threads[j] && FrameInv(s, j, d);
      TurnKeepsOther(f, s.shared, at, result, back, (j, d), s.threads[j][d]);
    } else {
      assert s.threads[i] == st + [f];
      if d < |st| {
        assert FrameInv(s, i, d);
        TurnKeepsOther(f, s.shared, at, result, back, (i, d), s.threads[i][d]);
      } else {
        TurnMakes(f, s.shared, at, result, back, d - |st|);
      }
      TurnCovers(st, f, s.shared, at, result, back, d);
    }
  }

  lemma MoveKeepsInv(s: State, i: nat, result: Error, back: bool)
    requires Inv(s) && i < |s.threads| && s.threads[i] != []
    ensures Inv(Move(s, i, result, back))
  {
    var st, f, s' := Below(s.threads[i]), Top(s.threads[i]), Move(s, i, result, back);
    assert FrameInv(s, i, |st|);
    TurnKeepsShared(f, s.shared, (i, |st|), result, back);
    var t := Turn(f, s.shared, (i, |st|), result, back);
    if t.ret.Some? {
      TurnReturns(f, s.shared, (i, |st|), result, back);
    }
    hide SharedInv;
    hide Turn;
    hide FrameInv;
    forall j, d | 0 <= j < |s'.threads| && 0 <= d < |s'.threads[j]| ensures FrameInv(s', j, d) {
      MoveKeepsFrame(s, i, result, back, j, d);
    }
    forall r | r in s'.returned ensures ReturnInv(s'.shared, r) {
      if r in s.returned {
        assert ReturnInv(s.shared, r);
      }
    }
  }

  lemma StepKeepsInv(t: Step, s: State)
    requires Inv(s) && Enabled(t, s)
    ensures Inv(Do(t, s))
  {
    if t.Moves? {
      MoveKeepsInv(s, t.thread, t.result, t.back);
    } else {
      hide Move;
      var s' := Do(t, s);
      forall j, d | 0 <= j < |s'.threads| && 0 <= d < |s'.threads[j]| ensures FrameInv(s', j, d) {
        if j < |s.threads| {
          assert s'.threads[j] == s.threads[j] && FrameInv(s, j, d);
        }
      }
      forall r | r in s'.returned ensures ReturnInv(s'.shared, r) {
        assert ReturnInv(s.shared, r);
      }
    }
  }

  lemma {:induction false} RunKeepsInv(addons: nat, steps: seq<Step>)
    requires After(addons, steps).Some?
    ensures Inv(After(addons, steps).value)
    decreases |steps|
  {
    if steps == [] {
      assert UpTo(0) == [];
    } else {
      RunKeepsInv(addons, steps[..|steps| - 1]);
      StepKeepsInv(steps[|steps| - 1], After(addons, steps[..|steps| - 1]).value);
      hide Inv;
    }
  }

  // ----- what every interleaving guarantees

  /** However many goroutines call Close on either side, in whatever order their steps come: each
      underlying connection is closed at most once, closeChan at most once, each addon is told at most
      once per side and in order, every returned error is the stored one, and a client Close that won and
      then saw a server returns only with the server closed. Once a call that won has returned, its connection
      is closed, the channel too if it is the client's, and every addon has been told. */
  lemma EverythingOnce(addons: nat, steps: seq<Step>)
    requires After(addons, steps).Some?
    ensures
      var s, sh := After(addons, steps).value, After(addons, steps).value.shared;
      sh.clientCloses <= 1 && sh.serverCloses <= 1 && sh.chanCloses <= 1 &&
      (exists n :: 0 <= n <= sh.addons && sh.clientHooks == UpTo(n)) &&
      (exists n :: 0 <= n <= sh.addons && sh.serverHooks == UpTo(n)) &&
      (forall r :: r in s.returned && r.ClientReturned? ==>
         r.err == sh.clientErr && (r.sawServer ==> sh.serverClosed)) &&
      (forall r :: r in s.returned && r.ServerReturned? ==> r.err == sh.serverErr && sh.serverClosed) &&
      (forall r :: r in s.returned && r.ClientReturned? && r.won ==>
         sh.clientCloses == 1 && sh.chanCloses == 1 && sh.clientHooks == UpTo(sh.addons)) &&
      (forall r :: r in s.returned && r.ServerReturned? && r.won ==>
         sh.serverCloses == 1 && sh.serverHooks == UpTo(sh.addons))
  {
    RunKeepsInv(addons, steps);
    var s := After(addons, steps).value;
    forall r | r in s.returned ensures ReturnInv(s.shared, r) {
    }
  }

  /** What the underlying Close returned in the step that closed the connection, of the client or the server. */
  function ClosingResult(addons: nat, steps: seq<Step>, client: bool): Option<Error> {
    if steps == [] then None else
      var before, t := steps[..|steps| - 1], steps[|steps| - 1];
      if ClosingResult(addons, before, client).Some? then ClosingResult(addons, before, client)
      else if t.Moves? && !IsClosed(addons, before, client) && IsClosed(addons, steps, client) then Some(t.result)
      else None
  }

  predicate IsClosed(addons: nat, steps: seq<Step>, client: bool) {
    After(addons, steps).Some? &&
    if client then After(addons, steps).value.shared.clientClosed else After(addons, steps).value.shared.serverClosed
  }

  /** In every interleaving the stored and returned error of a side is what the underlying Close returned when it
      was closed. */
  lemma {:induction false} ErrorsAreResults(addons: nat, steps: seq<Step>)
    requires After(addons, steps).Some?
    ensures
      var sh := After(addons, steps).value.shared;
      (sh.clientClosed ==> ClosingResult(addons, steps, true) == Some(sh.clientErr)) &&
      (!sh.clientClosed ==> ClosingResult(addons, steps, true) == None && sh.clientErr == None) &&
      (sh.serverClosed ==> ClosingResult(addons, steps, false) == Some(sh.serverErr)) &&
      (!sh.serverClosed ==> ClosingResult(addons, steps, false) == None && sh.serverErr == None)
    decreases |steps|
  {
    if steps != [] {
      var before, t := steps[..|steps| - 1], steps[|steps| - 1];
      var s := After(addons, before).value;
      ErrorsAreResults(addons, before);
      StepErrors(t, s);
      hide Do;
      hide Enabled;
    }
  }

  lemma StepErrors(t: Step, s: State)
    requires Enabled(t, s)
    ensures
      var sh, sh' := s.shared, Do(t, s).shared;
      (if sh'.clientClosed == sh.clientClosed then sh'.clientErr == sh.clientErr
       else sh'.clientClosed && t.Moves? && sh'.clientErr == t.result) &&
      (if sh'.serverClosed == sh.serverClosed then sh'.serverErr == sh.serverErr
       else sh'.serverClosed && t.Moves? && sh'.serverErr == t.result)
  {
  }

  // ----- every call ends

  function Weight(f: Frame, addons: nat): nat {
    match f
    case ClientEnter => 1
    case ClientChan => addons + 5
    case ClientHooks(k) => (if k <= addons then addons - k else 0) + 4
    case ClientServer => 3
    case ClientReturn(_) => 1
    case ServerEnter => 1
    case ServerHooks(k) => (if k <= addons then addons - k else 0) + 4
    case ServerBack => 3
    case ServerReturn => 1
  }

  function StackWeight(st: seq<Frame>, addons: nat): nat {
    if st == [] then 0 else StackWeight(Below(st), addons) + Weight(Top(st), addons)
  }

  function ThreadsWeight(ts: seq<seq<Frame>>, addons: nat): nat {
    if ts == [] then 0 else ThreadsWeight(ts[..|ts| - 1], addons) + StackWeight(ts[|ts| - 1], addons)
  }

  function Unclosed(sh: Shared): nat {
    (if sh.clientClosed then 0 else sh.addons + 6) + (if sh.serverClosed then 0 else sh.addons + 6)
  }

  /** The steps that the calls made so far can still take. */
  function Work(s: State): nat { Unclosed(s.shared) + ThreadsWeight(s.threads, s.shared.addons) }

  lemma StackPush(st: seq<Frame>, f: Frame, addons: nat)
    ensures StackWeight(st + [f], addons) == StackWeight(st, addons) + Weight(f, addons)
  {
    assert Below(st + [f]) == st;
  }

  lemma {:induction false} ThreadsUpdate(ts: seq<seq<Frame>>, i: nat, st: seq<Frame>, addons: nat)
    requires i < |ts|
    ensures
      ThreadsWeight(ts[i := st], addons) + StackWeight(ts[i], addons) ==
      ThreadsWeight(ts, addons) + StackWeight(st, addons)
    decreases |ts|
  {
    var n := |ts| - 1;
    if i == n {
      assert ts[i := st][..n] == ts[..n];
    } else {
      assert ts[i := st][..n] == ts[..n][i := st];
      ThreadsUpdate(ts[..n], i, st, addons);
    }
  }

  lemma TurnLowersWork(f: Frame, sh: Shared, at: (nat, nat), result: Error, back: bool)
    requires SharedInv(sh) && Owed(sh, at, f)
    ensures
      var t := Turn(f, sh, at, result, back);
      t.shared.addons == sh.addons && |t.made| <= 2 &&
      Unclosed(t.shared) + (if |t.made| > 0 then Weight(t.made[0], sh.addons) else 0) +
      (if |t.made| > 1 then Weight(t.made[1], sh.addons) else 0) < Unclosed(sh) + Weight(f, sh.addons)
  {
    hide UpTo;
  }

  lemma StackPushAll(st: seq<Frame>, made: seq<Frame>, addons: nat)
    requires |made| <= 2
    ensures
      StackWeight(st + made, addons) ==
      StackWeight(st, addons) + (if |made| > 0 then Weight(made[0], addons) else 0) +
      (if |made| > 1 then Weight(made[1], addons) else 0)
  {
    hide Weight;
    if |made| == 0 {
      assert st + made == st;
    } else if |made| == 1 {
      assert made == [made[0]];
      StackPush(st, made[0], addons);
    } else {
      assert st + made == (st + [made[0]]) + [made[1]];
      StackPush(st, made[0], addons);
      StackPush(st + [made[0]], made[1], addons);
    }
  }

  /** Every move of a goroutine lowers the work that is left, so every call returns after finitely many
      moves, whatever the others do; and a goroutine in a call can always move. */
  lemma MoveLowersWork(s: State, i: nat, result: Error, back: bool)
    requires Inv(s) && i < |s.threads| && s.threads[i] != []
    ensures Work(Move(s, i, result, back)) < Work(s)
  {
    var st, f := Below(s.threads[i]), Top(s.threads[i]);
    assert FrameInv(s, i, |st|);
    var t := Turn(f, s.shared, (i, |st|), result, back);
    TurnLowersWork(f, s.shared, (i, |st|), result, back);
    hide Turn;
    hide Weight;
    hide Unclosed;
    hide SharedInv;
    hide Owed;
    StackPushAll(st, t.made, s.shared.addons);
    StackPush(st, f, s.shared.addons);
    assert s.threads[i] == st + [f];
    ThreadsUpdate(s.threads, i, st + t.made, s.shared.addons);
  }
}
