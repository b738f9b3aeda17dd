/** Which messages the web addon sends about each flow (web/web.go): those of sendMessageUntil and those at
    break points, with any number of flows in progress at the same time. */
module UiProgress {
  import opened Wrappers

  type Flow = nat

  /** A messageType is a byte; 255 is never asked for, so the loop variable does not wrap. */
  type Kind = k: nat | k < 255

  /** What newMessageFlow finds in a flow: whether the request body decodes, and, when there is a response,
      whether its body does. */
  datatype Contents = Contents(requestDecodes: bool, response: Option<bool>)

  /** Whether newMessageFlow makes the message of a type, or returns an error. */
  predicate Builds(kind: nat, c: Contents) {
    kind <= 1 || (kind == 2 && c.requestDecodes) || (kind == 3 && c.response.Some?) ||
    (kind == 4 && c.response == Some(true))
  }

  /** One sendFlow of the loop, or, `atStop`, one sendFlowMayWait at a break point. */
  datatype Turn = Turn(flow: Flow, kind: nat, atStop: bool, connected: bool, contents: Contents)
  {
    /** A message is made and sent only if there is a connection and it can be built. */
    predicate Made() { connected && Builds(kind, contents) }
  }

  /** A running call: the loop variable and the type it goes up to. */
  datatype Call = Call(next: nat, until: nat)

  /** `asked` is the largest type asked for so far of every flow ever registered; `stopped` are the types
      whose turn came at a break point. */
  datatype State = State(
    flowMessageState: map<Flow, nat>, running: map<Flow, Call>, turns: seq<Turn>, asked: map<Flow, nat>,
    stopped: set<(Flow, nat)>)

  const START := State(map[], map[], [], map[], {})

  /** A step is a critical section or one turn of a loop; other flows may take theirs in between. */
  datatype Step =
    | Registers(flow: Flow)            // Requestheaders
    | Begins(flow: Flow, kind: Kind)
    | Sends(flow: Flow, connected: bool, contents: Contents)
    | Ends(flow: Flow)
    | Stops(flow: Flow, kind: Kind, connected: bool, contents: Contents)  // Request or Response, intercepted
    | Deletes(flow: Flow)              // after the flow is done

  /** A flow is registered once, and its hooks come one after the other, each once: Request before the call
      for type 2 in Responseheaders, Response before the call for type 4 at the end. */
  predicate Enabled(t: Step, s: State) {
    match t
    case Registers(f) => f !in s.asked
    case Begins(f, _) => f in s.flowMessageState && f in s.asked && f !in s.running
    case Sends(f, _, _) => f in s.running && s.running[f].next <= s.running[f].until
    case Ends(f) => f in s.running && s.running[f].next > s.running[f].until
    case Stops(f, k, _, _) =>
      f in s.flowMessageState && f in s.asked && f !in s.running && (f, k) !in s.stopped && 1 <= k <= 4 &&
      s.asked[f] <= if k <= 2 then 0 else 2
    case Deletes(f) => f in s.flowMessageState && f !in s.running
  }

  function Do(t: Step, s: State): State
    requires Enabled(t, s)
  {
    match t
    case Registers(f) => s.(flowMessageState := s.flowMessageState[f := 0], asked := s.asked[f := 0])
    case Begins(f, kind) =>
      if s.flowMessageState[f] >= kind then s
      else s.(running := s.running[f := Call(s.flowMessageState[f] + 1, kind)], asked := s.asked[f := kind])
    case Sends(f, connected, contents) =>
      var c := s.running[f];
      s.(turns := s.turns + [Turn(f, c.next, false, connected, contents)],
         running := s.running[f := c.(next := c.next + 1)])
    case Ends(f) =>
      s.(flowMessageState := s.flowMessageState[f := s.running[f].until], running := s.running - {f})
    case Stops(f, k, connected, contents) =>
      s.(turns := s.turns + [Turn(f, k, true, connected, contents)], stopped := s.stopped + {(f, k)})
    case Deletes(f) => s.(flowMessageState := s.flowMessageState - {f})
  }

  function After(s: State, steps: seq<Step>): Option<State> {
    if steps == [] then Some(s) else
      var before := After(s, steps[..|steps| - 1]);
      if before.None? || !Enabled(steps[|steps| - 1], before.value) then None
      else Some(Do(steps[|steps| - 1], before.value))
  }

  /** The types whose turn came in the loops for one flow, in order. */
  function Kinds(turns: seq<Turn>, f: Flow): seq<nat> {
    if turns == [] then [] else
      var t := turns[|turns| - 1];
      var before := Kinds(turns[..|turns| - 1], f);
      if t.flow == f && !t.atStop then before + [t.kind] else before
  }

  /** The types of the messages that these turns made. */
  function Made(turns: seq<Turn>, f: Flow): seq<nat> {
    if turns == [] then [] else
      var t := turns[|turns| - 1];
      var before := Made(turns[..|turns| - 1], f);
      if t.flow == f && !t.atStop && t.Made() then before + [t.kind] else before
  }

  function OneTo(n: nat): seq<nat> { seq(n, i => i + 1) }

  // ----- the invariant

  /** How far the messages of a flow have got. */
  function Reached(s: State, f: Flow): int
    requires f in s.asked
  {
    if f in s.running then s.running[f].next - 1 else s.asked[f]
  }

  ghost predicate FlowInv(s: State, f: Flow)
    requires f in s.asked
  {
    (f in s.running ==>
       f in s.flowMessageState && s.running[f].until == s.asked[f] &&
       s.flowMessageState[f] < s.running[f].next <= s.running[f].until + 1) &&
    (f in s.flowMessageState && f !in s.running ==> s.flowMessageState[f] == s.asked[f]) &&
    Reached(s, f) >= 0 && Kinds(s.turns, f) == OneTo(Reached(s, f))
  }

  ghost predicate Inv(s: State) {
    (forall f :: f in s.asked ==> FlowInv(s, f)) &&
    (forall f :: f in s.running || f in s.flowMessageState ==> f in s.asked) &&
    (forall f :: f !in s.asked ==> Kinds(s.turns, f) == [])
  }

  lemma KindsAppend(turns: seq<Turn>, t: Turn, f: Flow)
    ensures Kinds(turns + [t], f) == if t.flow == f && !t.atStop then Kinds(turns, f) + [t.kind] else Kinds(turns, f)
    ensures
      Made(turns + [t], f) ==
      if t.flow == f && !t.atStop && t.Made() then Made(turns, f) + [t.kind] else Made(turns, f)
  {
    assert (turns + [t])[..|turns|] == turns;
  }

  lemma OneToNext(n: nat)
    ensures OneTo(n) + [n + 1] == OneTo(n + 1) && OneTo(0) == []
  {
  }

  lemma StepKeepsFlow(t: Step, s: State, f: Flow)
    requires Inv(s) && Enabled(t, s) && f in Do(t, s).asked
    ensures FlowInv(Do(t, s), f)
  {
    hide OneTo;
    hide Kinds;
    if f in s.asked {
      assert FlowInv(s, f);
    }
    if t.Sends? {
      var c := s.running[t.flow];
      KindsAppend(s.turns, Turn(t.flow, c.next, false, t.connected, t.contents), f);
      if t.flow == f {
        OneToNext(c.next - 1);
      }
    } else if t.Stops? {
      KindsAppend(s.turns, Turn(t.flow, t.kind, true, t.connected, t.contents), f);
    }
    OneToNext(0);
  }

  lemma StepKeepsInv(t: Step, s: State)
    requires Inv(s) && Enabled(t, s)
    ensures Inv(Do(t, s))
  {
    hide Kinds;
    var s' := Do(t, s);
    forall f | f in s'.asked ensures FlowInv(s', f) {
      StepKeepsFlow(t, s, f);
    }
    forall f | f !in s'.asked ensures Kinds(s'.turns, f) == [] {
      if t.Sends? {
        KindsAppend(s.turns, Turn(t.flow, s.running[t.flow].next, false, t.connected, t.contents), f);
      } else if t.Stops? {
        KindsAppend(s.turns, Turn(t.flow, t.kind, true, t.connected, t.contents), f);
      }
    }
    hide FlowInv;
  }

  lemma {:induction false} RunKeepsInv(steps: seq<Step>)
    requires After(START, steps).Some?
    ensures Inv(After(START, steps).value)
    decreases |steps|
  {
    if steps != [] {
      RunKeepsInv(steps[..|steps| - 1]);
      StepKeepsInv(steps[|steps| - 1], After(START, steps[..|steps| - 1]).value);
      hide Inv;
    }
  }

  // ----- what every run guarantees

  /** Whenever no call for a flow is running, the types whose turn came are exactly 1 up to the largest type
      asked for, each once and in ascending order, and that is the stored state; while one is running they
      are a prefix of that. */
  lemma TypesInOrder(steps: seq<Step>, f: Flow)
    requires After(START, steps).Some? && f in After(START, steps).value.asked
    ensures
      var s := After(START, steps).value;
      (f !in s.running ==>
         Kinds(s.turns, f) == OneTo(s.asked[f]) &&
         (f in s.flowMessageState ==> s.flowMessageState[f] == s.asked[f])) &&
      (exists n: nat :: n <= s.asked[f] && Kinds(s.turns, f) == OneTo(n))
  {
    RunKeepsInv(steps);
    var s := After(START, steps).value;
    assert FlowInv(s, f);
    hide Kinds;
    hide OneTo;
    var n: nat := Reached(s, f);
    assert n <= s.asked[f] && Kinds(s.turns, f) == OneTo(n);
  }

  /** The steps that ask for a type of a flow. */
  function Asked(steps: seq<Step>, f: Flow): nat {
    if steps == [] then 0 else
      var before, t := Asked(steps[..|steps| - 1], f), steps[|steps| - 1];
      if t.Begins? && t.flow == f && t.kind > before then t.kind else before
  }

  /** `asked` is the largest type of the calls made. */
  lemma {:induction false} AskedIsLargest(steps: seq<Step>, f: Flow)
    requires After(START, steps).Some?
    ensures
      var s := After(START, steps).value;
      if f in s.asked then s.asked[f] == Asked(steps, f) else Asked(steps, f) == 0
    decreases |steps|
  {
    if steps != [] {
      var before, t := steps[..|steps| - 1], steps[|steps| - 1];
      AskedIsLargest(before, f);
      RunKeepsInv(before);
      var s := After(START, before).value;
      if f in s.asked {
        assert FlowInv(s, f);
      }
      hide Kinds;
      hide OneTo;
    }
  }

  /** A state is stored for a flow from its registration until it is deleted. */
  lemma {:induction false} StoredExactly(steps: seq<Step>, f: Flow)
    requires After(START, steps).Some?
    ensures
      var s := After(START, steps).value;
      (f in s.asked <==> Registers(f) in steps) &&
      (f in s.flowMessageState <==> Registers(f) in steps && Deletes(f) !in steps) &&
      (Deletes(f) in steps ==> Registers(f) in steps)
    decreases |steps|
  {
    if steps != [] {
      var before, t := steps[..|steps| - 1], steps[|steps| - 1];
      StoredExactly(before, f);
      RunKeepsInv(before);
      assert steps == before + [t];
      assert forall x :: x in steps <==> x in before || x == t;
      hide FlowInv;
    }
  }

  /** How many turns of its loops a flow has taken. */
  function SendsOf(steps: seq<Step>, f: Flow): nat {
    if steps == [] then 0 else
      SendsOf(steps[..|steps| - 1], f) +
      if steps[|steps| - 1].Sends? && steps[|steps| - 1].flow == f then 1 else 0
  }

  /** One turn for each send, as it found connections and contents: in the loops the types count up, at a break point
      it is the given one. */
  function TurnsOf(steps: seq<Step>): seq<Turn> {
    if steps == [] then [] else
      var before, t := steps[..|steps| - 1], steps[|steps| - 1];
      match t
      case Sends(f, connected, contents) =>
        TurnsOf(before) + [Turn(f, SendsOf(before, f) + 1, false, connected, contents)]
      case Stops(f, k, connected, contents) => TurnsOf(before) + [Turn(f, k, true, connected, contents)]
      case _ => TurnsOf(before)
  }

  /** The turns are those of the steps taken, and the types of a flow's loops count its sends. */
  lemma {:induction false} TurnsFollowSteps(steps: seq<Step>)
    requires After(START, steps).Some?
    ensures After(START, steps).value.turns == TurnsOf(steps)
    ensures forall f :: Kinds(After(START, steps).value.turns, f) == OneTo(SendsOf(steps, f))
    decreases |steps|
  {
    if steps != [] {
      var before, t := steps[..|steps| - 1], steps[|steps| - 1];
      var s, s' := After(START, before).value, After(START, steps).value;
      TurnsFollowSteps(before);
      RunKeepsInv(before);
      forall f ensures Kinds(s'.turns, f) == OneTo(SendsOf(steps, f)) {
        TurnKinds(t, s, f);
        OneToNext(SendsOf(before, f));
        hide Kinds;
        hide OneTo;
        hide Inv;
      }
      if t.Sends? {
        assert FlowInv(s, t.flow);
        OneToLength(Reached(s, t.flow), SendsOf(before, t.flow));
      }
    } else {
      assert forall f :: Kinds([], f) == OneTo(0);
    }
  }

  lemma OneToLength(m: nat, n: nat)
    ensures OneTo(m) == OneTo(n) <==> m == n
  {
    assert |OneTo(m)| == m && |OneTo(n)| == n;
  }

  lemma TurnKinds(t: Step, s: State, f: Flow)
    requires Inv(s) && Enabled(t, s)
    ensures
      Kinds(Do(t, s).turns, f) ==
      if t.Sends? && t.flow == f then Kinds(s.turns, f) + [s.running[f].next] else Kinds(s.turns, f)
    ensures t.Sends? && t.flow == f ==> f in s.asked && Kinds(s.turns, f) == OneTo(s.running[f].next - 1)
  {
    if t.Sends? {
      assert FlowInv(s, t.flow);
      KindsAppend(s.turns, Turn(t.flow, s.running[t.flow].next, false, t.connected, t.contents), f);
    } else if t.Stops? {
      KindsAppend(s.turns, Turn(t.flow, t.kind, true, t.connected, t.contents), f);
    }
    hide Kinds;
    hide OneTo;
  }

  /** Every turn of the loops for a flow found a connection and could be built. */
  predicate AllMade(turns: seq<Turn>, f: Flow) {
    forall i :: 0 <= i < |turns| && turns[i].flow == f && !turns[i].atStop ==> turns[i].Made()
  }

  /** All types whose turn came are made exactly when every turn found a connection and could be built. */
  lemma {:induction false} MadeExactly(turns: seq<Turn>, f: Flow)
    ensures Made(turns, f) == Kinds(turns, f) <==> AllMade(turns, f)
    ensures |Made(turns, f)| <= |Kinds(turns, f)|
  {
    if turns != [] {
      var before, t := turns[..|turns| - 1], turns[|turns| - 1];
      MadeExactly(before, f);
      assert turns == before + [t];
      AllMadeAppend(before, t, f);
      KindsAppend(before, t, f);
      hide Made;
      hide Kinds;
      hide AllMade;
      if t.flow == f && !t.atStop {
        SameAppend(Made(before, f), Kinds(before, f), t.kind);
      }
    }
  }

  lemma AllMadeAppend(turns: seq<Turn>, t: Turn, f: Flow)
    ensures AllMade(turns + [t], f) <==> AllMade(turns, f) && (t.flow == f && !t.atStop ==> t.Made())
  {
    assert (turns + [t])[|turns|] == t;
    assert forall i :: 0 <= i < |turns| ==> (turns + [t])[i] == turns[i];
  }

  lemma SameAppend(a: seq<nat>, b: seq<nat>, x: nat)
    ensures a + [x] == b + [x] <==> a == b
    ensures |a| <= |b| ==> a != b + [x]
  {
    if a + [x] == b + [x] {
      assert a == (a + [x])[..|a|] == (b + [x])[..|b|] == b;
    }
  }

  /** A flow that had a connection at every turn of its loops, and these contents. */
  predicate SeenAs(turns: seq<Turn>, f: Flow, c: Contents) {
    forall i :: 0 <= i < |turns| && turns[i].flow == f && !turns[i].atStop ==>
      turns[i].connected && turns[i].contents == c
  }

  function Buildable(kinds: seq<nat>, c: Contents): seq<nat> {
    if kinds == [] then [] else
      var before, k := Buildable(kinds[..|kinds| - 1], c), kinds[|kinds| - 1];
      if Builds(k, c) then before + [k] else before
  }

  lemma {:induction false} MadeAreBuildable(turns: seq<Turn>, f: Flow, c: Contents)
    requires SeenAs(turns, f, c)
    ensures Made(turns, f) == Buildable(Kinds(turns, f), c)
  {
    if turns != [] {
      var before, t := turns[..|turns| - 1], turns[|turns| - 1];
      MadeAreBuildable(before, f, c);
      assert (Kinds(before, f) + [t.kind])[..|Kinds(before, f)|] == Kinds(before, f);
      hide Builds;
    }
  }

  lemma FourBuildable(c: Contents)
    ensures
      Buildable(OneTo(4), c) ==
      [1] + (if c.requestDecodes then [2] else []) + (if c.response.Some? then [3] else []) +
      if c.response == Some(true) then [4] else []
  {
    assert OneTo(0) == [] && forall n: nat | n < 4 :: OneTo(n + 1)[..n] == OneTo(n);
    assert Buildable(OneTo(1), c) == [1];
    assert Buildable(OneTo(2), c) == [1] + if c.requestDecodes then [2] else [];
    assert Buildable(OneTo(3), c) == Buildable(OneTo(2), c) + if c.response.Some? then [3] else [];
    assert Buildable(OneTo(4), c) == Buildable(OneTo(3), c) + if c.response == Some(true) then [4] else [];
  }

  /** When the flow is over and had a connection and the same contents at every turn, its messages are those
      that can be built: all four exactly when both bodies decode and there is a response; without a
      response just those of types 1 and 2 that can. */
  lemma FinishedFlowMakes(steps: seq<Step>, f: Flow, c: Contents)
    requires After(START, steps).Some?
    requires
      var s := After(START, steps).value;
      f in s.asked && f !in s.running && s.asked[f] == 4 && SeenAs(s.turns, f, c)
    ensures
      var made := Made(After(START, steps).value.turns, f);
      (made == [1, 2, 3, 4] <==> c.requestDecodes && c.response == Some(true)) &&
      (c.response.None? ==> made == if c.requestDecodes then [1, 2] else [1]) &&
      made == Buildable(OneTo(4), c)
  {
    TypesInOrder(steps, f);
    MadeAreBuildable(After(START, steps).value.turns, f, c);
    FourBuildable(c);
    hide Made;
    hide Kinds;
    hide Buildable;
    hide OneTo;
    hide SeenAs;
    hide After;
  }

  // ----- break points

  /** How often a type of a flow came to its turn, in the loops or at break points. */
  function Turns(turns: seq<Turn>, f: Flow, k: nat, atStop: bool): nat {
    if turns == [] then 0 else
      var t := turns[|turns| - 1];
      Turns(turns[..|turns| - 1], f, k, atStop) + if t.flow == f && t.kind == k && t.atStop == atStop then 1 else 0
  }

  /** How many messages of a type were sent about a flow. */
  function Sent(turns: seq<Turn>, f: Flow, k: nat): nat {
    if turns == [] then 0 else
      var t := turns[|turns| - 1];
      Sent(turns[..|turns| - 1], f, k) + if t.flow == f && t.kind == k && t.Made() then 1 else 0
  }

  predicate MadeAt(turns: seq<Turn>, i: nat, f: Flow, k: nat, atStop: bool) {
    i < |turns| && turns[i].flow == f && turns[i].kind == k && turns[i].atStop == atStop && turns[i].Made()
  }

  lemma TurnsAppend(turns: seq<Turn>, t: Turn, f: Flow, k: nat, atStop: bool)
    ensures
      Turns(turns + [t], f, k, atStop) ==
      Turns(turns, f, k, atStop) + if t.flow == f && t.kind == k && t.atStop == atStop then 1 else 0
  {
    assert (turns + [t])[..|turns|] == turns;
  }

  lemma {:induction false} NoTurn(turns: seq<Turn>, f: Flow, k: nat, atStop: bool)
    ensures
      Turns(turns, f, k, atStop) == 0 <==>
      forall i :: 0 <= i < |turns| ==> !(turns[i].flow == f && turns[i].kind == k && turns[i].atStop == atStop)
  {
    if turns != [] {
      var before, t := turns[..|turns| - 1], turns[|turns| - 1];
      NoTurn(before, f, k, atStop);
      assert forall i :: 0 <= i < |before| ==> turns[i] == before[i];
    }
  }

  /** Turns at break points come before the turns of loops, type by type. */
  predicate StopsFirst(turns: seq<Turn>) {
    forall i, j ::
      0 <= i < j < |turns| && turns[j].atStop && turns[i].flow == turns[j].flow && turns[i].kind == turns[j].kind
      ==> turns[i].atStop
  }

  /** Each type has its turn at most once in the loops and at most once at a break point, and there first. */
  ghost predicate StopInv(s: State) {
    (forall f: Flow, k: nat :: Turns(s.turns, f, k, true) == if (f, k) in s.stopped then 1 else 0) &&
    (forall f: Flow, k: nat ::
       Turns(s.turns, f, k, false) == if f in s.asked && 1 <= k <= Reached(s, f) then 1 else 0) &&
    StopsFirst(s.turns)
  }

  lemma StepKeepsOrder(t: Step, s: State)
    requires Inv(s) && StopInv(s) && Enabled(t, s)
    ensures StopsFirst(Do(t, s).turns)
  {
    hide Kinds;
    hide OneTo;
    if t.Stops? {
      assert FlowInv(s, t.flow);
      NoTurn(s.turns, t.flow, t.kind, false);
    }
    hide Turns;
  }

  lemma StepKeepsStops(t: Step, s: State)
    requires Inv(s) && StopInv(s) && Enabled(t, s)
    ensures StopInv(Do(t, s))
  {
    hide Kinds;
    hide OneTo;
    StepKeepsOrder(t, s);
    var s' := Do(t, s);
    forall f: nat, k: nat
      ensures Turns(s'.turns, f, k, true) == if (f, k) in s'.stopped then 1 else 0
      ensures Turns(s'.turns, f, k, false) == if f in s'.asked && 1 <= k <= Reached(s', f) then 1 else 0
    {
      StepKeepsTurns(t, s, f, k);
    }
  }

  lemma StepKeepsTurns(t: Step, s: State, f: Flow, k: nat)
    requires Inv(s) && Enabled(t, s)
    requires Turns(s.turns, f, k, true) == if (f, k) in s.stopped then 1 else 0
    requires Turns(s.turns, f, k, false) == if f in s.asked && 1 <= k <= Reached(s, f) then 1 else 0
    ensures
      var s' := Do(t, s);
      Turns(s'.turns, f, k, true) == (if (f, k) in s'.stopped then 1 else 0) &&
      Turns(s'.turns, f, k, false) == if f in s'.asked && 1 <= k <= Reached(s', f) then 1 else 0
  {
    hide Kinds;
    hide OneTo;
    hide Turns;
    if f in s.asked {
      assert FlowInv(s, f);
    }
    if t.Sends? {
      var turn := Turn(t.flow, s.running[t.flow].next, false, t.connected, t.contents);
      TurnsAppend(s.turns, turn, f, k, true);
      TurnsAppend(s.turns, turn, f, k, false);
    } else if t.Stops? {
      var turn := Turn(t.flow, t.kind, true, t.connected, t.contents);
      TurnsAppend(s.turns, turn, f, k, true);
      TurnsAppend(s.turns, turn, f, k, false);
    }
  }

  lemma {:induction false} RunKeepsStops(steps: seq<Step>)
    requires After(START, steps).Some?
    ensures StopInv(After(START, steps).value)
    decreases |steps|
  {
    if steps != [] {
      RunKeepsStops(steps[..|steps| - 1]);
      RunKeepsInv(steps[..|steps| - 1]);
      StepKeepsStops(steps[|steps| - 1], After(START, steps[..|steps| - 1]).value);
      hide StopInv;
      hide Inv;
    }
  }

  /** Sending is counted where it happened. */
  lemma {:induction false} SentWhere(turns: seq<Turn>, f: Flow, k: nat)
    requires Turns(turns, f, k, true) <= 1 && Turns(turns, f, k, false) <= 1
    ensures
      Sent(turns, f, k) ==
      (if exists i: nat :: MadeAt(turns, i, f, k, true) then 1 else 0) +
      if exists j: nat :: MadeAt(turns, j, f, k, false) then 1 else 0
  {
    if turns != [] {
      var n, before, t := |turns| - 1, turns[..|turns| - 1], turns[|turns| - 1];
      SentWhere(before, f, k);
      NoTurn(before, f, k, true);
      NoTurn(before, f, k, false);
      assert forall i: nat, b: bool :: i < n ==> (MadeAt(turns, i, f, k, b) <==> MadeAt(before, i, f, k, b));
      assert forall b: bool :: MadeAt(turns, n, f, k, b) <==> t.flow == f && t.kind == k && t.atStop == b && t.Made();
      hide Builds;
      MadeIn(turns, f, k, true);
      MadeIn(turns, f, k, false);
    }
  }

  lemma MadeIn(turns: seq<Turn>, f: Flow, k: nat, b: bool)
    requires turns != []
    ensures
      var before := turns[..|turns| - 1];
      (exists i: nat :: MadeAt(turns, i, f, k, b)) <==>
      (exists i: nat :: MadeAt(before, i, f, k, b)) || MadeAt(turns, |turns| - 1, f, k, b)
  {
    var before := turns[..|turns| - 1];
    if i: nat :| MadeAt(before, i, f, k, b) {
      assert MadeAt(turns, i, f, k, b);
    }
    if i: nat :| MadeAt(turns, i, f, k, b) {
      assert i < |before| ==> MadeAt(before, i, f, k, b);
    }
  }

  /** No type is sent more than twice about a flow, and twice exactly when it was sent at a break point and
      a later turn of a loop made it too. */
  lemma SentTwiceExactly(steps: seq<Step>, f: Flow, k: nat)
    requires After(START, steps).Some?
    ensures
      var turns := After(START, steps).value.turns;
      Sent(turns, f, k) <= 2 &&
      (Sent(turns, f, k) == 2 <==>
       exists i: nat, j: nat :: i < j && MadeAt(turns, i, f, k, true) && MadeAt(turns, j, f, k, false))
  {
    RunKeepsStops(steps);
    var s := After(START, steps).value;
    SentWhere(s.turns, f, k);
    hide Turns;
    hide Sent;
    if i: nat, j: nat :| MadeAt(s.turns, i, f, k, true) && MadeAt(s.turns, j, f, k, false) {
      assert i != j;
      assert !(j < i);
    }
  }

  // ----- the addon as an object

  /** The steps of one call that nothing interrupts. */
  function CallSteps(f: Flow, from: nat, kind: Kind, connected: bool, c: Contents): seq<Step> {
    if from >= kind then [Begins(f, kind)] else Sending(f, kind, kind - from, connected, c) + [Ends(f)]
  }

  /** A call up to its `n`th turn. */
  function Sending(f: Flow, kind: Kind, n: nat, connected: bool, c: Contents): seq<Step> {
    [Begins(f, kind)] + seq(n, _ => Sends(f, connected, c))
  }

  lemma SendingNext(f: Flow, kind: Kind, n: nat, connected: bool, c: Contents)
    ensures Sending(f, kind, n, connected, c) + [Sends(f, connected, c)] == Sending(f, kind, n + 1, connected, c)
    ensures Sending(f, kind, 0, connected, c) == [Begins(f, kind)]
  {
  }

  lemma AfterAppend(s: State, steps: seq<Step>, t: Step)
    requires After(s, steps).Some? && Enabled(t, After(s, steps).value)
    ensures After(s, steps + [t]) == Some(Do(t, After(s, steps).value))
  {
    assert (steps + [t])[..|steps|] == steps;
  }

  class WebAddon {
    var flowMessageState: map<Flow, nat>
    var connected: bool  // len(conns) != 0
    ghost var running: map<Flow, Call>
    ghost var turns: seq<Turn>
    ghost var asked: map<Flow, nat>
    ghost var stopped: set<(Flow, nat)>

    constructor ()
      ensures Now() == START && !connected
    {
      flowMessageState, connected := map[], false;
      running, turns, asked, stopped := map[], [], map[], {};
    }

    ghost function Now(): State
      reads this
    {
      State(flowMessageState, running, turns, asked, stopped)
    }

    method Requestheaders(f: Flow)
      requires Enabled(Registers(f), Now())
      modifies this
      ensures Now() == Do(Registers(f), old(Now())) && connected == old(connected)
    {
      flowMessageState := flowMessageState[f := 0];
      asked := asked[f := 0];
    }

    /** sendFlowMayWait about an intercepted flow, in the Request or the Response hook; the stored state is
        not touched. */
    method SendFlowMayWait(f: Flow, kind: Kind, c: Contents) returns (made: bool)
      requires Enabled(Stops(f, kind, connected, c), Now())
      modifies this
      ensures Now() == Do(Stops(f, kind, connected, c), old(Now())) && connected == old(connected)
      ensures flowMessageState == old(flowMessageState) && made == (connected && Builds(kind, c))
    {
      turns := turns + [Turn(f, kind, true, connected, c)];
      stopped := stopped + {(f, kind)};
      made := connected && Builds(kind, c);
    }

    /** sendMessageUntil is one uninterrupted run of its steps; what it does among other flows is said above. */
    method SendMessageUntil(f: Flow, kind: Kind, ghost c: Contents)
      requires Inv(Now()) && Enabled(Begins(f, kind), Now())
      modifies this
      ensures
        After(old(Now()), CallSteps(f, old(flowMessageState)[f], kind, connected, c)) == Some(Now())
      ensures Inv(Now()) && f !in running && connected == old(connected)
      ensures Kinds(turns, f) == OneTo(if old(asked)[f] >= kind then old(asked)[f] else kind)
    {
      hide Kinds;
      hide OneTo;
      hide Inv;
      hide FlowInv;
      hide Sending;
      hide After;
      ghost var was := Now();
      BeginsAt(was, f, kind, connected);
      if flowMessageState[f] >= kind {
        InvAt(was, f);
        return;
      }
      var state := flowMessageState[f] + 1;
      running := running[f := Call(state, kind)];
      asked := asked[f := kind];
      SendingNext(f, kind, 0, connected, c);
      ghost var from, n := state - 1, 0;
      assert After(was, Sending(f, kind, n, connected, c)) == Some(Now());
      while state <= kind
        invariant was.flowMessageState == flowMessageState && connected == old(connected)
        invariant flowMessageState[f] == from && state == from + 1 + n <= kind + 1
        invariant f in running && running[f] == Call(state, kind) && f in asked && asked[f] == kind
        invariant Inv(Now())
        invariant After(was, Sending(f, kind, n, connected, c)) == Some(Now())
      {
        // sendFlow
        StepKeepsInv(Sends(f, connected, c), Now());
        AfterAppend(was, Sending(f, kind, n, connected, c), Sends(f, connected, c));
        SendingNext(f, kind, n, connected, c);
        turns := turns + [Turn(f, state, false, connected, c)];
        running := running[f := Call(state + 1, kind)];
        state, n := state + 1, n + 1;
      }
      StepKeepsInv(Ends(f), Now());
      AfterAppend(was, Sending(f, kind, n, connected, c), Ends(f));
      running := running - {f};
      flowMessageState := flowMessageState[f := kind];
      InvAt(Now(), f);
    }
  }

  lemma BeginsAt(s: State, f: Flow, kind: Kind, connected: bool)
    requires Inv(s) && Enabled(Begins(f, kind), s)
    ensures s.flowMessageState[f] == s.asked[f]
    ensures Inv(Do(Begins(f, kind), s)) && After(s, [Begins(f, kind)]) == Some(Do(Begins(f, kind), s))
  {
    assert FlowInv(s, f);
    StepKeepsInv(Begins(f, kind), s);
    assert After(s, []) == Some(s);
    assert [] + [Begins(f, kind)] == [Begins(f, kind)];
    AfterAppend(s, [], Begins(f, kind));
  }

  lemma InvAt(s: State, f: Flow)
    requires Inv(s) && f in s.asked && f !in s.running
    ensures Kinds(s.turns, f) == OneTo(s.asked[f])
  {
    assert FlowInv(s, f);
  }
}
