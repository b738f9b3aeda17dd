/** What the caller of the client Close can rely on when it returns (proxy/entry.go): whether the server is
    closed then, decided by what holds when the call takes the lock. */
module CloseReturn {
  import opened Wrappers
  import opened CloseRace

  /** The state after `steps`, starting anywhere. */
  function Then(s: State, steps: seq<Step>): Option<State> {
    if steps == [] then Some(s) else
      var p, t := Then(s, steps[..|steps| - 1]), steps[|steps| - 1];
      if p.Some? && Enabled(t, p.value) then Some(Do(t, p.value)) else None
  }

  /** Goroutine `i` has called the client Close and not taken the lock yet. */
  predicate AtEntry(s: State, i: nat) { i < |s.threads| && s.threads[i] == [ClientEnter] }

  /** A continuation that ends with the return of the call of `i`. */
  predicate Returning(s: State, i: nat, rest: seq<Step>) {
    rest != [] && rest[|rest| - 1].Moves? && rest[|rest| - 1].thread == i &&
    Then(s, rest).Some? && i < |Then(s, rest).value.threads| && Then(s, rest).value.threads[i] == []
  }

  /** One that moreover begins with the step in which the call takes the lock. */
  predicate LockedReturning(s: State, i: nat, rest: seq<Step>) {
    Returning(s, i, rest) && rest[0].Moves? && rest[0].thread == i
  }

  lemma ThenAppend(s: State, steps: seq<Step>, t: Step)
    requires Then(s, steps).Some? && Enabled(t, Then(s, steps).value)
    ensures Then(s, steps + [t]) == Some(Do(t, Then(s, steps).value))
  {
    assert (steps + [t])[..|steps|] == steps;
  }

  /** What no step takes back. */
  lemma StepGrows(t: Step, s: State)
    requires Inv(s) && Enabled(t, s)
    ensures |Do(t, s).threads| >= |s.threads| && Do(t, s).shared.addons == s.shared.addons
    ensures s.shared.attached ==> Do(t, s).shared.attached
    ensures s.shared.serverClosed ==> Do(t, s).shared.serverClosed
  {
    if t.Moves? {
      var d := |s.threads[t.thread]| - 1;
      assert FrameInv(s, t.thread, d);
    }
    hide UpTo;
  }

  lemma {:induction false} ClosedStays(s: State, steps: seq<Step>)
    requires Inv(s) && Then(s, steps).Some?
    ensures Inv(Then(s, steps).value) && |Then(s, steps).value.threads| >= |s.threads|
    ensures s.shared.serverClosed ==> Then(s, steps).value.shared.serverClosed
    decreases |steps|
  {
    hide Inv;
    if steps != [] {
      ClosedStays(s, steps[..|steps| - 1]);
      StepKeepsInv(steps[|steps| - 1], Then(s, steps[..|steps| - 1]).value);
      StepGrows(steps[|steps| - 1], Then(s, steps[..|steps| - 1]).value);
      hide Do;
    }
  }

  // ----- the call that wins with a server attached

  /** The call of `i` has won, a server is attached, and the call is on its way to it or has seen it; or it
      has returned with the server closed. */
  predicate OnItsWay(s: State, i: nat) {
    i < |s.threads| && s.shared.attached &&
    if s.threads[i] == [] then s.shared.serverClosed
    else var f := s.threads[i][0]; f.ClientChan? || f.ClientHooks? || f.ClientServer? || f == ClientReturn(true)
  }

  lemma OwnMoveKeepsWay(s: State, i: nat, result: Error, back: bool)
    requires Inv(s) && OnItsWay(s, i) && s.threads[i] != []
    ensures OnItsWay(Move(s, i, result, back), i)
  {
    var st := s.threads[i];
    assert FrameInv(s, i, 0);
    assert FrameInv(s, i, |st| - 1);
    hide UpTo;
    hide SharedInv;
    if |st| == 1 {
      assert Below(st) == [] && Top(st) == st[0];
    } else {
      assert (Below(st) + Turn(Top(st), s.shared, (i, |st| - 1), result, back).made)[0] == st[0];
    }
  }

  lemma StepKeepsWay(t: Step, s: State, i: nat)
    requires Inv(s) && OnItsWay(s, i) && Enabled(t, s)
    ensures OnItsWay(Do(t, s), i)
  {
    if t.Moves? && t.thread == i {
      OwnMoveKeepsWay(s, i, t.result, t.back);
    } else {
      StepGrows(t, s);
      assert Do(t, s).threads[i] == s.threads[i];
    }
  }

  lemma {:induction false} RunKeepsWay(s: State, i: nat, rest: seq<Step>)
    requires Inv(s) && AtEntry(s, i) && s.shared.attached && !s.shared.clientClosed
    requires rest != [] && rest[0].Moves? && rest[0].thread == i && Then(s, rest).Some?
    ensures OnItsWay(Then(s, rest).value, i)
    decreases |rest|
  {
    var before, t := rest[..|rest| - 1], rest[|rest| - 1];
    if before == [] {
      assert Then(s, before) == Some(s);
      assert Below([ClientEnter]) == [] && Top([ClientEnter]) == ClientEnter;
    } else {
      RunKeepsWay(s, i, before);
      ClosedStays(s, before);
      StepKeepsWay(t, Then(s, before).value, i);
      hide Do;
    }
  }

  // ----- the two ways to return too early

  /** The call that finds the connection closed returns at once, whatever the server does. */
  lemma LoserReturnsAtOnce(s: State, i: nat) returns (rest: seq<Step>)
    requires AtEntry(s, i) && s.shared.clientClosed
    ensures LockedReturning(s, i, rest) && Then(s, rest).value.shared == s.shared
    ensures forall other :: LockedReturning(s, i, other) ==> Then(s, other).value.shared == s.shared
  {
    rest := [Moves(i, None, false)];
    assert [Moves(i, None, false)][..0] == [];
    assert Then(s, []) == Some(s);
    assert Below([ClientEnter]) == [] && Top([ClientEnter]) == ClientEnter;
    forall other | LockedReturning(s, i, other) ensures Then(s, other).value.shared == s.shared {
      LoserIsGone(s, i, other);
    }
  }

  /** After its first step it has returned, so no later step is its own. */
  lemma {:induction false} LoserStaysGone(s: State, i: nat, rest: seq<Step>)
    requires AtEntry(s, i) && s.shared.clientClosed
    requires rest != [] && rest[0].Moves? && rest[0].thread == i && Then(s, rest).Some?
    ensures i < |Then(s, rest).value.threads| && Then(s, rest).value.threads[i] == []
    decreases |rest|
  {
    var before := rest[..|rest| - 1];
    if before == [] {
      assert Then(s, before) == Some(s);
      assert Below([ClientEnter]) == [] && Top([ClientEnter]) == ClientEnter;
    } else {
      LoserStaysGone(s, i, before);
      hide Turn;
    }
  }

  lemma LoserIsGone(s: State, i: nat, rest: seq<Step>)
    requires AtEntry(s, i) && s.shared.clientClosed && LockedReturning(s, i, rest)
    ensures Then(s, rest).value.shared == s.shared
  {
    var before := rest[..|rest| - 1];
    if before == [] {
      assert Then(s, before) == Some(s);
      assert Below([ClientEnter]) == [] && Top([ClientEnter]) == ClientEnter;
    } else {
      LoserStaysGone(s, i, before);
    }
  }

  /** Thread `i` alone moves on by one frame. */
  lemma LoneMove(s: State, steps: seq<Step>, i: nat, f: Frame, made: seq<Frame>)
    requires Then(s, steps).Some?
    requires i < |Then(s, steps).value.threads| && Then(s, steps).value.threads[i] == [f]
    requires Turn(f, Then(s, steps).value.shared, (i, 0), None, false).made == made
    ensures
      var c, next := Then(s, steps).value, Then(s, steps + [Moves(i, None, false)]);
      next.Some? && next.value.threads == c.threads[i := made] &&
      next.value.shared == Turn(f, c.shared, (i, 0), None, false).shared
  {
    ThenAppend(s, steps, Moves(i, None, false));
    assert Below([f]) == [] && Top([f]) == f && [] + made == made;
    hide Turn;
  }

  /** The call that wins before a server is attached may have passed the place where it looks for one. */
  lemma WinnerMissesServer(s: State, i: nat) returns (rest: seq<Step>)
    requires AtEntry(s, i) && !s.shared.clientClosed && !s.shared.attached && !s.shared.serverClosed
    ensures LockedReturning(s, i, rest)
    ensures Then(s, rest).value.shared.attached && !Then(s, rest).value.shared.serverClosed
  {
    var mine := Moves(i, None, false);
    rest := [];
    LoneMove(s, rest, i, ClientEnter, [ClientChan]);
    rest := [mine];
    assert [] + [mine] == rest;
    LoneMove(s, rest, i, ClientChan, [ClientHooks(0)]);
    rest := rest + [mine];
    var k := 0;
    while k < s.shared.addons
      invariant k <= s.shared.addons && rest != [] && rest[0] == mine && Then(s, rest).Some?
      invariant
        var c := Then(s, rest).value;
        i < |c.threads| && c.threads[i] == [ClientHooks(k)] && c.shared.addons == s.shared.addons &&
        !c.shared.attached && !c.shared.serverClosed
    {
      LoneMove(s, rest, i, ClientHooks(k), [ClientHooks(k + 1)]);
      rest, k := rest + [mine], k + 1;
    }
    LoneMove(s, rest, i, ClientHooks(k), [ClientServer]);
    rest := rest + [mine];
    LoneMove(s, rest, i, ClientServer, [ClientReturn(false)]);
    rest := rest + [mine];
    ThenAppend(s, rest, Attaches);
    rest := rest + [Attaches];
    LoneMove(s, rest, i, ClientReturn(false), []);
    rest := rest + [mine];
  }

  // ----- exactly when

  /** The server is sure to be closed when a client Close returns exactly if, when the call takes the lock,
      the server is closed already or it is attached and the client connection still open. */
  lemma ClosedAtReturnExactly(addons: nat, before: seq<Step>, i: nat)
    requires After(addons, before).Some? && AtEntry(After(addons, before).value, i)
    ensures
      var s := After(addons, before).value;
      (forall rest :: LockedReturning(s, i, rest) ==> Then(s, rest).value.shared.serverClosed) <==>
      s.shared.serverClosed || (s.shared.attached && !s.shared.clientClosed)
  {
    var s := After(addons, before).value;
    RunKeepsInv(addons, before);
    if s.shared.serverClosed || (s.shared.attached && !s.shared.clientClosed) {
      forall rest | LockedReturning(s, i, rest) ensures Then(s, rest).value.shared.serverClosed {
        ClosedStays(s, rest);
        if !s.shared.serverClosed {
          RunKeepsWay(s, i, rest);
        }
      }
    } else if s.shared.clientClosed {
      var rest := LoserReturnsAtOnce(s, i);
    } else {
      var rest := WinnerMissesServer(s, i);
    }
  }

  /** No attached server is left open at the return exactly if, when the call takes the lock, the server is
      closed already, or just one of these holds: it is attached, the client connection is closed. */
  lemma AttachedIsClosedExactly(addons: nat, before: seq<Step>, i: nat)
    requires After(addons, before).Some? && AtEntry(After(addons, before).value, i)
    ensures
      var s := After(addons, before).value;
      (forall rest :: LockedReturning(s, i, rest) && Then(s, rest).value.shared.attached ==>
         Then(s, rest).value.shared.serverClosed) <==>
      s.shared.serverClosed || s.shared.attached != s.shared.clientClosed
  {
    var s := After(addons, before).value;
    ClosedAtReturnExactly(addons, before, i);
    if s.shared.clientClosed {
      var rest := LoserReturnsAtOnce(s, i);
    } else if !s.shared.attached && !s.shared.serverClosed {
      var rest := WinnerMissesServer(s, i);
    }
  }

  /** Before the call has taken the lock only a closed server is sure: another Close may come first. */
  lemma UnlockedExactly(addons: nat, before: seq<Step>, i: nat)
    requires After(addons, before).Some? && AtEntry(After(addons, before).value, i)
    ensures
      var s := After(addons, before).value;
      (forall rest :: Returning(s, i, rest) ==> Then(s, rest).value.shared.serverClosed) <==> s.shared.serverClosed
  {
    var s := After(addons, before).value;
    RunKeepsInv(addons, before);
    if s.shared.serverClosed {
      forall rest | Returning(s, i, rest) ensures Then(s, rest).value.shared.serverClosed {
        ClosedStays(s, rest);
      }
    } else {
      var n := |s.threads|;
      assert Then(s, []) == Some(s);
      ThenAppend(s, [], CallsClient);
      var rest := [] + [CallsClient];
      var c := Then(s, rest).value;
      LoneMove(s, rest, n, ClientEnter, Turn(ClientEnter, c.shared, (n, 0), None, false).made);
      rest := rest + [Moves(n, None, false)];
      LoneMove(s, rest, i, ClientEnter, []);
      rest := rest + [Moves(i, None, false)];
      assert Returning(s, i, rest) && !Then(s, rest).value.shared.serverClosed;
    }
  }

  // ----- the server's Close that goes on to the client

  /** The goroutine is about to take the lock of the client, if that is not closed already. */
  predicate AtClient(s: State, i: nat) {
    s.shared.clientClosed || (i < |s.threads| && s.threads[i] != [] && Top(s.threads[i]) == ClientEnter)
  }

  lemma StepKeepsAtClient(t: Step, s: State, i: nat)
    requires Inv(s) && AtClient(s, i) && Enabled(t, s)
    ensures AtClient(Do(t, s), i)
  {
    if t.Moves? && t.thread == i && !s.shared.clientClosed {
      assert Do(t, s).shared.clientClosed;
    }
  }

  lemma {:induction false} RunKeepsAtClient(s: State, i: nat, steps: seq<Step>)
    requires Inv(s) && AtClient(s, i) && Then(s, steps).Some?
    ensures AtClient(Then(s, steps).value, i)
    decreases |steps|
  {
    hide Inv;
    hide AtClient;
    if steps != [] {
      var before := steps[..|steps| - 1];
      RunKeepsAtClient(s, i, before);
      ClosedStays(s, before);
      StepKeepsAtClient(steps[|steps| - 1], Then(s, before).value, i);
      hide Do;
    }
  }

  /** A server Close on TLS without an ending response goes on to the client's: whatever else runs, the client is
      closed when the goroutine is done. Otherwise its next step is its return, with the client as it is. */
  lemma GoingBackCloses(addons: nat, before: seq<Step>, i: nat, result: Error, back: bool, rest: seq<Step>)
    requires After(addons, before).Some?
    requires
      var s := After(addons, before).value;
      i < |s.threads| && s.threads[i] != [] && Top(s.threads[i]) == ServerBack &&
      Then(Do(Moves(i, result, back), s), rest).Some?
    ensures
      var s := Do(Moves(i, result, back), After(addons, before).value);
      var s' := Then(s, rest).value;
      (back && i < |s'.threads| && s'.threads[i] == [] ==> s'.shared.clientClosed) &&
      (!back ==>
         i < |s.threads| && s.threads[i] != [] && Top(s.threads[i]) == ServerReturn &&
         s.shared == After(addons, before).value.shared)
  {
    RunKeepsInv(addons, before);
    var s := After(addons, before).value;
    var went := Do(Moves(i, result, back), s);
    StepKeepsInv(Moves(i, result, back), s);
    var stack := went.threads[i];
    assert stack[|stack| - 1] == if back then ClientEnter else ServerReturn;
    hide Inv;
    if back {
      RunKeepsAtClient(went, i, rest);
    }
  }
}
