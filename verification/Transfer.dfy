/** Copying both directions of a tunnel (proxy/helper.go, transfer): two copying goroutines, the
    unbuffered errChan, and the done channel that lets a late goroutine leave. */
module Transfer {
  import opened Wrappers

  datatype Side = ToServer | ToClient

  /** `failed` is whether the copy ended with an error. */
  datatype CopyPc = Copying | Closing(failed: bool) | Sending(failed: bool) | Exited(failed: bool)

  datatype Reason = Clean | Failure | Timeout

  datatype MainPc = Waiting(received: nat) | Returning(reason: Reason) | Returned(reason: Reason)

  /** `delivered` lists what the main loop received; `closed` the ends that were closed. */
  datatype State = State(
    main: MainPc, up: CopyPc, down: CopyPc, delivered: seq<(Side, bool)>, closed: set<Side>, doneClosed: bool)
  {
    /** The goroutine that copies to `d`. */
    function Copier(d: Side): CopyPc { if d == ToServer then up else down }

    function WithCopier(d: Side, c: CopyPc): State { if d == ToServer then this.(up := c) else this.(down := c) }
  }

  const INIT := State(Waiting(0), Copying, Copying, [], {}, false)

  datatype Step =
    | CopyEnds(side: Side, failed: bool)
    | PeerCloses(side: Side)         // server.Close() or client.Close()
    | Delivers(side: Side)           // errChan <- err meets the receive in the loop
    | SeesDone(side: Side)           // <-done in the goroutine's select
    | TimesOut
    | DoneCloses                     // the deferred close(done)

  predicate Enabled(t: Step, s: State)
  {
    match t
    case CopyEnds(d, _) => s.Copier(d) == Copying
    case PeerCloses(d) => s.Copier(d).Closing?
    case Delivers(d) => s.Copier(d).Sending? && s.main.Waiting?
    case SeesDone(d) => s.Copier(d).Sending? && s.doneClosed
    case TimesOut => s.main.Waiting?
    case DoneCloses => s.main.Returning?
  }

  function Do(t: Step, s: State): State
    requires Enabled(t, s)
  {
    match t
    case CopyEnds(d, failed) => s.WithCopier(d, Closing(failed))
    case PeerCloses(d) => s.WithCopier(d, Sending(s.Copier(d).failed)).(closed := s.closed + {d})
    case Delivers(d) =>
      var failed := s.Copier(d).failed;
      s.WithCopier(d, Exited(failed)).(
        delivered := s.delivered + [(d, failed)],
        main := if failed then Returning(Failure)
                else if s.main.received == 1 then Returning(Clean) else Waiting(s.main.received + 1))
    case SeesDone(d) => s.WithCopier(d, Exited(s.Copier(d).failed))
    case TimesOut => s.(main := Returning(Timeout))
    case DoneCloses => s.(main := Returned(s.main.reason), doneClosed := true)
  }

  /** The state after `steps`, taken one after the other from the start; None when one was not possible. */
  function After(steps: seq<Step>): Option<State> {
    if steps == [] then Some(INIT) else
      var p, t := After(steps[..|steps| - 1]), steps[|steps| - 1];
      if p.Some? && Enabled(t, p.value) then Some(Do(t, p.value)) else None
  }

  ghost predicate Run(steps: seq<Step>, s: State) { After(steps) == Some(s) }

  /** The main loop has received the result of the copy to `d`, and it was `failed`. */
  predicate Got(s: State, d: Side, failed: bool) {
    (|s.delivered| >= 1 && s.delivered[0] == (d, failed)) || (|s.delivered| >= 2 && s.delivered[1] == (d, failed))
  }

  predicate CopierInv(s: State, d: Side) {
    var c := s.Copier(d);
    (c.Sending? || c.Exited? ==> d in s.closed) &&
    (Got(s, d, true) ==> c == Exited(true)) &&
    (Got(s, d, false) ==> c == Exited(false)) &&
    (c.Exited? && !s.doneClosed ==> Got(s, d, c.failed))
  }

  predicate ReasonInv(s: State, reason: Reason) {
    match reason
    case Clean => |s.delivered| == 2 && !s.delivered[0].1 && !s.delivered[1].1
    case Failure => 1 <= |s.delivered| && s.delivered[|s.delivered| - 1].1
    case Timeout => |s.delivered| <= 1 && (|s.delivered| == 1 ==> !s.delivered[0].1)
  }

  predicate Inv(s: State) {
    |s.delivered| <= 2 &&
    (|s.delivered| == 2 ==> s.delivered[0].0 != s.delivered[1].0) &&
    (s.doneClosed <==> s.main.Returned?) &&
    CopierInv(s, ToServer) && CopierInv(s, ToClient) &&
    match s.main
    case Waiting(n) => |s.delivered| == n <= 1 && (n == 1 ==> !s.delivered[0].1)
    case Returning(reason) => ReasonInv(s, reason)
    case Returned(reason) => ReasonInv(s, reason)
  }

  lemma StepKeepsCopier(t: Step, s: State, d: Side)
    requires Inv(s) && Enabled(t, s)
    ensures CopierInv(Do(t, s), d)
  {
    assert CopierInv(s, d) by { assert d == ToServer || d == ToClient; }
    hide ReasonInv;
  }

  lemma StepKeepsInv(t: Step, s: State)
    requires Inv(s) && Enabled(t, s)
    ensures Inv(Do(t, s))
  {
    StepKeepsCopier(t, s, ToServer);
    StepKeepsCopier(t, s, ToClient);
    assert t.Delivers? && |s.delivered| == 1 ==> s.delivered[0].0 != t.side by {
      if t.Delivers? && |s.delivered| == 1 { assert Got(s, s.delivered[0].0, s.delivered[0].1); }
    }
    hide CopierInv;
  }

  lemma {:induction false} RunKeepsInv(steps: seq<Step>, s: State)
    requires Run(steps, s)
    ensures Inv(s)
    decreases |steps|
  {
    if steps != [] {
      var n := |steps| - 1;
      var p := After(steps[..n]).value;
      RunKeepsInv(steps[..n], p);
      StepKeepsInv(steps[n], p);
    }
  }

  // ----- progress

  predicate Finished(s: State)
  {
    s.main.Returned? && s.Copier(ToServer).Exited? && s.Copier(ToClient).Exited?
  }

  function CopyRank(c: CopyPc): nat {
    match c
    case Copying => 3
    case Closing(_) => 2
    case Sending(_) => 1
    case Exited(_) => 0
  }

  function MainRank(m: MainPc): nat {
    match m
    case Waiting(_) => 2
    case Returning(_) => 1
    case Returned(_) => 0
  }

  function Rank(s: State): nat
  {
    MainRank(s.main) + CopyRank(s.Copier(ToServer)) + CopyRank(s.Copier(ToClient))
  }

  /** Every step brings the end nearer; before the end a step is possible even without a timeout, and
      once transfer has returned a goroutine that has finished copying can leave at once. */
  lemma NoGoroutineStuck(steps: seq<Step>, s: State)
    requires Run(steps, s)
    ensures forall t | Enabled(t, s) :: Rank(Do(t, s)) < Rank(s)
    ensures !Finished(s) ==> exists t :: t != TimesOut && Enabled(t, s)
    ensures s.main.Returned? ==> forall d: Side :: s.Copier(d).Sending? ==> Enabled(SeesDone(d), s)
    ensures Finished(s) ==> forall t :: !Enabled(t, s)
  {
    RunKeepsInv(steps, s);
    forall t | Enabled(t, s) ensures Rank(Do(t, s)) < Rank(s) {
      StepRank(t, s);
    }
    if !Finished(s) {
      var t := NextStep(s);
      assert Enabled(t, s);
    }
  }

  lemma StepRank(t: Step, s: State)
    requires Inv(s) && Enabled(t, s)
    ensures Rank(Do(t, s)) < Rank(s)
  {
    hide Inv;
  }

  function StepOf(d: Side, c: CopyPc, returned: bool): Step {
    match c
    case Copying => CopyEnds(d, false)
    case Closing(_) => PeerCloses(d)
    case _ => if returned then SeesDone(d) else Delivers(d)
  }

  /** A step that is possible in an unfinished state. */
  lemma NextStep(s: State) returns (t: Step)
    requires Inv(s) && !Finished(s)
    ensures t != TimesOut && Enabled(t, s)
  {
    if s.main.Returning? {
      t := DoneCloses;
    } else if !s.Copier(ToServer).Exited? {
      t := StepOf(ToServer, s.Copier(ToServer), s.main.Returned?);
    } else if !s.Copier(ToClient).Exited? {
      t := StepOf(ToClient, s.Copier(ToClient), s.main.Returned?);
    } else {
      BothDelivered(s);
    }
  }

  /** Both goroutines cannot have left while the main loop still waits. */
  lemma BothDelivered(s: State)
    requires Inv(s) && s.Copier(ToServer).Exited? && s.Copier(ToClient).Exited?
    ensures !s.main.Waiting?
  {
  }

  // ----- outcomes

  /** At most two receives; returning without error or timeout means that both copies ended cleanly and
      both ends were closed; an error return follows a failed copy. */
  lemma ReturnMeans(steps: seq<Step>, s: State)
    requires Run(steps, s) && s.main.Returned?
    ensures |s.delivered| <= 2
    ensures
      s.main.reason == Clean ==> s.up == Exited(false) && s.down == Exited(false) && s.closed == {ToServer, ToClient}
    ensures s.main.reason == Failure ==> s.up == Exited(true) || s.down == Exited(true)
  {
    RunKeepsInv(steps, s);
    if s.main.reason == Clean {
      var a, b := s.delivered[0], s.delivered[1];
      assert Got(s, a.0, false) && Got(s, b.0, false);
      if a.0 == ToServer {
        assert b.0 == ToClient;
      } else {
        assert b.0 == ToServer;
      }
      assert ToServer in s.closed && ToClient in s.closed;
      assert forall d :: d in s.closed ==> d == ToServer || d == ToClient;
    } else if s.main.reason == Failure {
      var l := s.delivered[|s.delivered| - 1];
      assert Got(s, l.0, true);
      if l.0 == ToServer {
      } else {
        assert l.0 == ToClient;
      }
    }
  }

  // ----- what was decided

  /** The state says which steps were taken by the goroutine that copies to `d`. */
  predicate CopierRecorded(steps: seq<Step>, s: State, d: Side) {
    var c := s.Copier(d);
    (forall failed: bool :: CopyEnds(d, failed) in steps <==> c != Copying && c.failed == failed) &&
    (PeerCloses(d) in steps <==> d in s.closed) &&
    (Delivers(d) in steps <==> Got(s, d, false) || Got(s, d, true))
  }

  predicate Recorded(steps: seq<Step>, s: State) {
    CopierRecorded(steps, s, ToServer) && CopierRecorded(steps, s, ToClient) &&
    (TimesOut in steps <==> (s.main.Returning? || s.main.Returned?) && s.main.reason == Timeout)
  }

  lemma InAppend(steps: seq<Step>, t: Step)
    ensures forall x :: x in steps + [t] <==> x in steps || x == t
  {
  }

  lemma StepRecordsCopier(steps: seq<Step>, s: State, t: Step, d: Side)
    requires Inv(s) && CopierRecorded(steps, s, d) && Enabled(t, s)
    ensures CopierRecorded(steps + [t], Do(t, s), d)
  {
    InAppend(steps, t);
    assert CopierInv(s, d) by { assert d == ToServer || d == ToClient; }
    GotStep(s, t, d);
    hide ReasonInv;
    hide Got;
  }

  /** Only a receive changes what was received. */
  lemma GotStep(s: State, t: Step, d: Side)
    requires Inv(s) && Enabled(t, s)
    ensures
      forall failed: bool ::
        Got(Do(t, s), d, failed) <==> Got(s, d, failed) || (t == Delivers(d) && failed == s.Copier(d).failed)
  {
    hide CopierInv;
    hide ReasonInv;
  }

  lemma StepRecords(steps: seq<Step>, s: State, t: Step)
    requires Inv(s) && Recorded(steps, s) && Enabled(t, s)
    ensures Recorded(steps + [t], Do(t, s))
  {
    StepRecordsCopier(steps, s, t, ToServer);
    StepRecordsCopier(steps, s, t, ToClient);
    InAppend(steps, t);
    hide CopierRecorded;
    hide CopierInv;
    hide ReasonInv;
  }

  lemma {:induction false} RunRecords(steps: seq<Step>, s: State)
    requires Run(steps, s)
    ensures Recorded(steps, s)
    decreases |steps|
  {
    if steps != [] {
      var n := |steps| - 1;
      var p := After(steps[..n]).value;
      RunRecords(steps[..n], p);
      RunKeepsInv(steps[..n], p);
      hide Inv;
      hide Recorded;
      hide Do;
      StepRecords(steps[..n], p, steps[n]);
      assert steps == steps[..n] + [steps[n]];
    }
  }

  lemma BothGot(s: State)
    requires Inv(s) && |s.delivered| == 2 && !s.delivered[0].1 && !s.delivered[1].1
    ensures forall d: Side :: Got(s, d, false)
  {
    forall d: Side ensures Got(s, d, false) {
      assert d == ToServer || d == ToClient;
      if s.delivered[0].0 == ToServer {
        assert s.delivered[1].0 == ToClient;
      } else {
        assert s.delivered[1].0 == ToServer;
      }
    }
  }

  /** transfer returns cleanly exactly when both copies ended without error, closed what they copied to, and were
      received; it returns for a failure exactly when a copy that ended with an error was received; and for the
      timeout exactly when it ran out. */
  lemma ReturnsExactly(steps: seq<Step>, s: State)
    requires Run(steps, s) && s.main.Returned?
    ensures
      s.main.reason == Clean <==>
        forall d: Side :: CopyEnds(d, false) in steps && PeerCloses(d) in steps && Delivers(d) in steps
    ensures s.main.reason == Failure <==> exists d: Side :: CopyEnds(d, true) in steps && Delivers(d) in steps
    ensures s.main.reason == Timeout <==> TimesOut in steps
  {
    RunKeepsInv(steps, s);
    RunRecords(steps, s);
    ReturnMeans(steps, s);
    forall d: Side ensures CopierInv(s, d) && CopierRecorded(steps, s, d) {
      assert d == ToServer || d == ToClient;
    }
    if s.main.reason == Failure {
      var l := s.delivered[|s.delivered| - 1];
      assert Got(s, l.0, true);
      assert CopierInv(s, l.0) && CopierRecorded(steps, s, l.0);
      assert CopyEnds(l.0, true) in steps && Delivers(l.0) in steps && CopyEnds(l.0, false) !in steps;
    } else {
      forall d: Side | Delivers(d) in steps ensures CopyEnds(d, true) !in steps {
        assert CopierInv(s, d) && CopierRecorded(steps, s, d);
        assert Got(s, d, false);
      }
      if s.main.reason == Clean {
        BothGot(s);
        forall d: Side ensures CopyEnds(d, false) in steps && PeerCloses(d) in steps && Delivers(d) in steps {
          assert CopierInv(s, d) && CopierRecorded(steps, s, d) && Got(s, d, false);
        }
      } else {
        var other := if |s.delivered| == 1 && s.delivered[0].0 == ToServer then ToClient else ToServer;
        assert !Got(s, other, false) && !Got(s, other, true);
        assert CopierRecorded(steps, s, other);
        assert Delivers(other) !in steps;
      }
    }
  }
}
