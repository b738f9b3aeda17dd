/** How edits made in the UI reach the flows that wait for them (web/conn.go): one unbuffered channel for
    each flow id, a goroutine for each edit that arrives, and the addon goroutines that wait. */
module UiEdits {
  import opened Wrappers

  type Id = string
  type Body = seq<int>

  /** A request and a response as far as an edit changes them. */
  datatype Request = Request(verb: string, url: string, header: string, body: Body)

  datatype Response = Response(statusCode: int, header: Option<string>, body: Option<Body>)

  datatype Edit =
    | ChangeRequest(id: Id, request: Request)
    | ChangeResponse(id: Id, response: Response)
    | DropRequest(id: Id)
    | DropResponse(id: Id)

  /** What parseMessage makes of one websocket message. Rules that do not decode come back as a nil pointer
      inside a message that is not nil. */
  datatype Incoming = EditMessage(edit: Edit) | RulesMessage(rules: seq<string>) | NilRules | Unusable

  datatype Flow = Flow(id: Id, request: Request, response: Option<Response>)

  /** The end of waitIntercept: None when the code dereferences a missing response. */
  function Apply(m: Edit, f: Flow): (r: Option<Flow>)
    ensures r.None? <==> m.ChangeResponse? && f.response.None?
    ensures r.Some? ==> r.value.id == f.id
    ensures r.Some? ==> r.value.request == if m.ChangeRequest? then m.request else f.request
    ensures
      r.Some? ==>
        if m.ChangeRequest? then r.value.response == f.response
        else if m.ChangeResponse? then r.value.response == Some(m.response)
        else r.value.response.Some? && r.value.response.value == Response(502, None, None)
  {
    match m
    case DropRequest(_) => Some(f.(response := Some(Response(502, None, None))))
    case DropResponse(_) => Some(f.(response := Some(Response(502, None, None))))
    case ChangeRequest(_, q) => Some(f.(request := q))
    case ChangeResponse(_, r) => if f.response.None? then None else Some(f.(response := Some(r)))
  }

  // ----- the steps of one connection

  /** A wait that has ended: which one, with which edit, and the flow it left. */
  datatype Met = Met(wait: nat, edit: nat, flow: Option<Flow>)

  /** Channels are numbered as they are made; edits and waits as they come. `pending` and `waiting` say at
      which channel an edit's goroutine and a wait are. */
  datatype State = State(
    waitChans: map<Id, nat>, made: nat,
    received: seq<Edit>, pending: map<nat, nat>,
    started: seq<Flow>, waiting: map<nat, nat>,
    done: seq<Met>)

  const START := State(map[], 0, [], map[], [], map[], [])

  datatype Step = Reads(msg: Incoming) | Waits(flow: Flow) | Meets(edit: nat, wait: nat)

  /** A send and a receive on an unbuffered channel happen together. */
  predicate Enabled(t: Step, s: State) {
    t.Meets? ==>
      t.edit in s.pending && t.wait in s.waiting && s.pending[t.edit] == s.waiting[t.wait] &&
      t.edit < |s.received| && t.wait < |s.started|
  }

  /** The channel of an id, made when it is first asked for. */
  function ChannelFor(s: State, key: Id): (State, nat) {
    if key in s.waitChans then (s, s.waitChans[key])
    else (s.(waitChans := s.waitChans[key := s.made], made := s.made + 1), s.made)
  }

  function Do(t: Step, s: State): State
    requires Enabled(t, s)
  {
    match t
    case Reads(EditMessage(m)) =>
      var (s', ch) := ChannelFor(s, m.id);
      s'.(received := s.received + [m], pending := s.pending[|s.received| := ch])
    case Reads(_) => s
    case Waits(f) =>
      var (s', ch) := ChannelFor(s, f.id);
      s'.(started := s.started + [f], waiting := s.waiting[|s.started| := ch])
    case Meets(e, w) =>
      s.(pending := s.pending - {e}, waiting := s.waiting - {w},
         done := s.done + [Met(w, e, Apply(s.received[e], s.started[w]))])
  }

  /** The state after a run; None if some step was not possible. */
  function After(s: State, steps: seq<Step>): Option<State> {
    if steps == [] then Some(s) else
      var before := After(s, steps[..|steps| - 1]);
      if before.None? || !Enabled(steps[|steps| - 1], before.value) then None
      else Some(Do(steps[|steps| - 1], before.value))
  }

  // ----- the invariant

  ghost predicate ChansInv(s: State) {
    (forall k :: k in s.waitChans ==> s.waitChans[k] < s.made) &&
    (forall k, l :: k in s.waitChans && l in s.waitChans && s.waitChans[k] == s.waitChans[l] ==> k == l)
  }

  ghost predicate PendingInv(s: State) {
    forall e :: e in s.pending ==>
      e < |s.received| && s.received[e].id in s.waitChans && s.pending[e] == s.waitChans[s.received[e].id]
  }

  ghost predicate WaitingInv(s: State) {
    forall w :: w in s.waiting ==>
      w < |s.started| && s.started[w].id in s.waitChans && s.waiting[w] == s.waitChans[s.started[w].id]
  }

  ghost predicate MetInv(s: State, d: Met) {
    d.edit < |s.received| && d.edit !in s.pending && d.wait < |s.started| && d.wait !in s.waiting &&
    s.received[d.edit].id == s.started[d.wait].id && d.flow == Apply(s.received[d.edit], s.started[d.wait])
  }

  ghost predicate MetsInv(s: State) { forall i :: 0 <= i < |s.done| ==> MetInv(s, s.done[i]) }

  ghost predicate Distinct(done: seq<Met>) {
    forall i, j :: 0 <= i < j < |done| ==> done[i].edit != done[j].edit && done[i].wait != done[j].wait
  }

  ghost predicate EditDone(done: seq<Met>, e: nat) { exists i :: 0 <= i < |done| && done[i].edit == e }

  ghost predicate WaitDone(done: seq<Met>, w: nat) { exists i :: 0 <= i < |done| && done[i].wait == w }

  /** Every edit and every wait is either still there or has ended in a meeting. */
  ghost predicate Settled(s: State) {
    (forall e :: 0 <= e < |s.received| ==> e in s.pending || EditDone(s.done, e)) &&
    (forall w :: 0 <= w < |s.started| ==> w in s.waiting || WaitDone(s.done, w))
  }

  ghost predicate Inv(s: State) {
    AtOwn(s) && MetsInv(s) && Distinct(s.done) && Settled(s)
  }

  ghost predicate AtOwn(s: State) { ChansInv(s) && PendingInv(s) && WaitingInv(s) }

  /** Asking for a channel only adds to the table. */
  lemma ChannelForAdds(s: State, key: Id)
    requires AtOwn(s)
    ensures
      var (s', ch) := ChannelFor(s, key);
      AtOwn(s') && key in s'.waitChans && s'.waitChans[key] == ch &&
      s' == s.(waitChans := s'.waitChans, made := s'.made)
  {
    var s' := ChannelFor(s, key).0;
    assert forall k :: k in s.waitChans ==> k in s'.waitChans && s'.waitChans[k] == s.waitChans[k];
    assert PendingInv(s') && WaitingInv(s');
  }

  lemma AddPending(s: State, m: Edit)
    requires AtOwn(s) && m.id in s.waitChans
    ensures AtOwn(s.(received := s.received + [m], pending := s.pending[|s.received| := s.waitChans[m.id]]))
  {
    hide ChansInv;
    var s' := s.(received := s.received + [m], pending := s.pending[|s.received| := s.waitChans[m.id]]);
    assert s'.received[|s.received|] == m;
    assert forall e :: 0 <= e < |s.received| ==> s'.received[e] == s.received[e];
    assert ChansInv(s) ==> ChansInv(s') by {
      SameChans(s, s');
    }
    assert WaitingInv(s');
  }

  lemma AddWaiting(s: State, f: Flow)
    requires AtOwn(s) && f.id in s.waitChans
    ensures AtOwn(s.(started := s.started + [f], waiting := s.waiting[|s.started| := s.waitChans[f.id]]))
  {
    hide ChansInv;
    var s' := s.(started := s.started + [f], waiting := s.waiting[|s.started| := s.waitChans[f.id]]);
    assert s'.started[|s.started|] == f;
    assert forall w :: 0 <= w < |s.started| ==> s'.started[w] == s.started[w];
    assert ChansInv(s) ==> ChansInv(s') by {
      SameChans(s, s');
    }
    assert PendingInv(s');
  }

  lemma SameChans(s: State, s': State)
    requires ChansInv(s) && s'.waitChans == s.waitChans && s'.made == s.made
    ensures ChansInv(s')
  {
  }

  lemma ArrivalKeepsOwn(t: Step, s: State)
    requires AtOwn(s) && !t.Meets?
    ensures AtOwn(Do(t, s))
  {
    hide Apply;
    hide AtOwn;
    if t.Waits? {
      ChannelForAdds(s, t.flow.id);
      AddWaiting(ChannelFor(s, t.flow.id).0, t.flow);
    } else if t.msg.EditMessage? {
      ChannelForAdds(s, t.msg.edit.id);
      AddPending(ChannelFor(s, t.msg.edit.id).0, t.msg.edit);
    }
    hide ChannelFor;
  }

  lemma StepKeepsChans(t: Step, s: State)
    requires AtOwn(s) && Enabled(t, s)
    ensures AtOwn(Do(t, s))
  {
    hide Apply;
    if !t.Meets? {
      ArrivalKeepsOwn(t, s);
    } else {
      hide ChannelFor;
    }
  }

  lemma StepKeepsMets(t: Step, s: State)
    requires MetsInv(s) && Enabled(t, s)
    requires t.Meets? ==> s.received[t.edit].id == s.started[t.wait].id
    ensures MetsInv(Do(t, s))
  {
    hide Apply;
    var s' := Do(t, s);
    forall i | 0 <= i < |s'.done| ensures MetInv(s', s'.done[i]) {
      if i < |s.done| {
        assert s'.done[i] == s.done[i] && MetInv(s, s.done[i]);
      }
    }
  }

  lemma StepKeepsDistinct(t: Step, s: State)
    requires MetsInv(s) && Distinct(s.done) && Enabled(t, s)
    ensures Distinct(Do(t, s).done)
  {
    hide Apply;
    if t.Meets? {
      forall i | 0 <= i < |s.done| ensures s.done[i].edit != t.edit && s.done[i].wait != t.wait {
        assert MetInv(s, s.done[i]);
      }
    }
  }

  lemma DoneGrows(done: seq<Met>, d: Met)
    ensures EditDone(done + [d], d.edit) && WaitDone(done + [d], d.wait)
    ensures forall e :: EditDone(done, e) ==> EditDone(done + [d], e)
    ensures forall w :: WaitDone(done, w) ==> WaitDone(done + [d], w)
  {
    assert (done + [d])[|done|] == d;
    forall e | EditDone(done, e) ensures EditDone(done + [d], e) {
      var i :| 0 <= i < |done| && done[i].edit == e;
      assert (done + [d])[i] == done[i];
    }
    forall w | WaitDone(done, w) ensures WaitDone(done + [d], w) {
      var i :| 0 <= i < |done| && done[i].wait == w;
      assert (done + [d])[i] == done[i];
    }
  }

  lemma StepKeepsSettled(t: Step, s: State)
    requires Settled(s) && Enabled(t, s)
    ensures Settled(Do(t, s))
  {
    if t.Meets? {
      DoneGrows(s.done, Met(t.wait, t.edit, Apply(s.received[t.edit], s.started[t.wait])));
    }
    hide Apply;
    hide EditDone;
    hide WaitDone;
  }

  lemma OwnChannel(s: State, e: nat, w: nat)
    requires AtOwn(s) && e in s.pending && w in s.waiting
    ensures e < |s.received| && w < |s.started|
    ensures Enabled(Meets(e, w), s) <==> s.received[e].id == s.started[w].id
  {
  }

  lemma StepKeepsInv(t: Step, s: State)
    requires Inv(s) && Enabled(t, s)
    ensures Inv(Do(t, s))
  {
    hide Do;
    StepKeepsChans(t, s);
    if t.Meets? {
      OwnChannel(s, t.edit, t.wait);
    }
    StepKeepsMets(t, s);
    StepKeepsDistinct(t, s);
    StepKeepsSettled(t, s);
    hide *;
  }

  lemma {:induction false} RunKeepsInv(steps: seq<Step>)
    requires After(START, steps).Some?
    ensures Inv(After(START, steps).value)
    decreases |steps|
  {
    if steps != [] {
      RunKeepsInv(steps[..|steps| - 1]);
      StepKeepsInv(steps[|steps| - 1], After(START, steps[..|steps| - 1]).value);
      hide Inv;
    }
  }

  // ----- what every run guarantees

  /** A channel once given to an id stays its channel, and no other id ever has it. */
  lemma {:induction false} ChannelForEver(s: State, steps: seq<Step>, k: Id)
    requires Inv(s) && After(s, steps).Some? && k in s.waitChans
    ensures
      var s' := After(s, steps).value;
      Inv(s') && k in s'.waitChans && s'.waitChans[k] == s.waitChans[k] &&
      forall l :: l in s'.waitChans && s'.waitChans[l] == s.waitChans[k] ==> l == k
    decreases |steps|
  {
    if steps != [] {
      ChannelForEver(s, steps[..|steps| - 1], k);
      StepKeepsInv(steps[|steps| - 1], After(s, steps[..|steps| - 1]).value);
      hide Do;
      hide MetsInv;
      hide Distinct;
      hide Settled;
    }
  }

  /** An edit reaches only a wait of its own flow, at most once, and leaves that flow as the edit says. */
  lemma EditReachesOneWait(steps: seq<Step>)
    requires After(START, steps).Some?
    ensures
      var s := After(START, steps).value;
      (forall i :: 0 <= i < |s.done| ==>
         var d := s.done[i];
         d.edit < |s.received| && d.wait < |s.started| && s.received[d.edit].id == s.started[d.wait].id &&
         d.flow == Apply(s.received[d.edit], s.started[d.wait])) &&
      (forall i, j :: 0 <= i < j < |s.done| ==> s.done[i].edit != s.done[j].edit && s.done[i].wait != s.done[j].wait)
  {
    RunKeepsInv(steps);
    var s := After(START, steps).value;
    forall i | 0 <= i < |s.done| ensures MetInv(s, s.done[i]) {
    }
    hide Apply;
  }

  /** The edits, the waiting flows and the meetings of the steps, in order. */
  function EditsOf(steps: seq<Step>): seq<Edit> {
    if steps == [] then [] else
      var before, t := EditsOf(steps[..|steps| - 1]), steps[|steps| - 1];
      if t.Reads? && t.msg.EditMessage? then before + [t.msg.edit] else before
  }

  function WaitsOf(steps: seq<Step>): seq<Flow> {
    if steps == [] then [] else
      var before, t := WaitsOf(steps[..|steps| - 1]), steps[|steps| - 1];
      if t.Waits? then before + [t.flow] else before
  }

  function MeetsOf(steps: seq<Step>): seq<(nat, nat)> {
    if steps == [] then [] else
      var before, t := MeetsOf(steps[..|steps| - 1]), steps[|steps| - 1];
      if t.Meets? then before + [(t.edit, t.wait)] else before
  }

  /** What was received, started and done is what the steps read, began and brought together. */
  lemma {:induction false} RecordsAreSteps(steps: seq<Step>)
    requires After(START, steps).Some?
    ensures
      var s := After(START, steps).value;
      s.received == EditsOf(steps) && s.started == WaitsOf(steps) && |s.done| == |MeetsOf(steps)| &&
      forall i :: 0 <= i < |s.done| ==> (s.done[i].edit, s.done[i].wait) == MeetsOf(steps)[i]
    decreases |steps|
  {
    if steps != [] {
      RecordsAreSteps(steps[..|steps| - 1]);
      hide Apply;
    }
  }

  // counting, for one id

  function ReceivedOf(s: State, id: Id): set<nat> { set e: nat | e < |s.received| && s.received[e].id == id }

  function PendingOf(s: State, id: Id): set<nat> { set e | e in ReceivedOf(s, id) && e in s.pending }

  function StartedOf(s: State, id: Id): set<nat> { set w: nat | w < |s.started| && s.started[w].id == id }

  function WaitingOf(s: State, id: Id): set<nat> { set w | w in StartedOf(s, id) && w in s.waiting }

  /** The meetings of one id. */
  function MetOf(s: State, id: Id): set<nat> {
    set i: nat | i < |s.done| && s.done[i].edit < |s.received| && s.received[s.done[i].edit].id == id
  }

  /** Two sets that `f` puts into one-to-one correspondence have the same size. */
  lemma {:induction false} SameSize(a: set<nat>, b: set<nat>, f: nat -> nat)
    requires forall x :: x in a ==> f(x) in b
    requires forall x, y :: x in a && y in a && f(x) == f(y) ==> x == y
    requires forall y :: y in b ==> exists x :: x in a && f(x) == y
    ensures |a| == |b|
    decreases |a|
  {
    if a == {} {
      assert b == {};
    } else {
      var x :| x in a;
      forall y | y in b - {f(x)} ensures exists z :: z in a - {x} && f(z) == y {
        var z :| z in a && f(z) == y;
        assert z in a - {x};
      }
      SameSize(a - {x}, b - {f(x)}, f);
    }
  }

  function EditAt(done: seq<Met>, i: nat): nat { if i < |done| then done[i].edit else 0 }

  function WaitAt(done: seq<Met>, i: nat): nat { if i < |done| then done[i].wait else 0 }

  lemma MetMatchesEdits(s: State, id: Id)
    requires MetsInv(s) && Distinct(s.done) && Settled(s)
    ensures |MetOf(s, id)| == |ReceivedOf(s, id) - PendingOf(s, id)|
  {
    hide Apply;
    hide WaitDone;
    var gone, met := ReceivedOf(s, id) - PendingOf(s, id), MetOf(s, id);
    forall i | i in met ensures EditAt(s.done, i) in gone {
      assert MetInv(s, s.done[i]);
    }
    forall e | e in gone ensures exists i :: i in met && EditAt(s.done, i) == e {
      assert EditDone(s.done, e);
      var i: nat :| i < |s.done| && s.done[i].edit == e;
      assert i in met && EditAt(s.done, i) == e;
    }
    SameSize(met, gone, i => EditAt(s.done, i));
  }

  lemma MetMatchesWaits(s: State, id: Id)
    requires MetsInv(s) && Distinct(s.done) && Settled(s)
    ensures |MetOf(s, id)| == |StartedOf(s, id) - WaitingOf(s, id)|
  {
    hide Apply;
    hide EditDone;
    var gone, met := StartedOf(s, id) - WaitingOf(s, id), MetOf(s, id);
    forall i | i in met ensures WaitAt(s.done, i) in gone {
      assert MetInv(s, s.done[i]);
    }
    forall w | w in gone ensures exists i :: i in met && WaitAt(s.done, i) == w {
      assert WaitDone(s.done, w);
      var i: nat :| i < |s.done| && s.done[i].wait == w;
      assert MetInv(s, s.done[i]);
      assert i in met && WaitAt(s.done, i) == w;
    }
    SameSize(met, gone, i => WaitAt(s.done, i));
  }

  lemma TakeAway(a: set<nat>, b: set<nat>)
    requires b <= a
    ensures |a| == |a - b| + |b|
  {
    assert a == (a - b) + b;
  }

  /** For every id, received edits are the consumed ones and the pending ones, and as many waits have ended
      as edits were consumed. */
  lemma EditsConserved(steps: seq<Step>, id: Id)
    requires After(START, steps).Some?
    ensures
      var s := After(START, steps).value;
      |ReceivedOf(s, id)| == |MetOf(s, id)| + |PendingOf(s, id)| &&
      |StartedOf(s, id)| == |MetOf(s, id)| + |WaitingOf(s, id)|
  {
    RunKeepsInv(steps);
    var s := After(START, steps).value;
    MetMatchesEdits(s, id);
    MetMatchesWaits(s, id);
    TakeAway(ReceivedOf(s, id), PendingOf(s, id));
    TakeAway(StartedOf(s, id), WaitingOf(s, id));
  }

  /** While an edit and a wait of the same flow are both there, they can meet; of different flows, never. */
  lemma MeetExactlyOwn(steps: seq<Step>, e: nat, w: nat)
    requires After(START, steps).Some?
    requires e in After(START, steps).value.pending && w in After(START, steps).value.waiting
    ensures
      var s := After(START, steps).value;
      e < |s.received| && w < |s.started| &&
      (Enabled(Meets(e, w), s) <==> s.received[e].id == s.started[w].id)
  {
    RunKeepsInv(steps);
    OwnChannel(After(START, steps).value, e, w);
  }

  /** It does not matter whether the edit or the wait is there first. */
  lemma OrderIsIrrelevant(s: State, m: Edit, f: Flow)
    requires m.id == f.id
    ensures After(s, [Reads(EditMessage(m)), Waits(f)]) == After(s, [Waits(f), Reads(EditMessage(m))])
  {
    var r, w := Reads(EditMessage(m)), Waits(f);
    assert [r, w][..1] == [r] && [w, r][..1] == [w] && [r][..0] == [] && [w][..0] == [];
    assert After(s, [r]) == Some(Do(r, s)) && After(s, [w]) == Some(Do(w, s));
    assert Do(w, Do(r, s)) == Do(r, Do(w, s));
  }

  // ----- the connection as an object

  class Conn {
    var waitChans: map<Id, nat>
    var made: nat
    var breakPointRules: seq<string>
    // the goroutines around it
    var received: seq<Edit>
    var pending: map<nat, nat>
    var started: seq<Flow>
    var waiting: map<nat, nat>
    var done: seq<Met>

    constructor ()
      ensures Now() == START && breakPointRules == []
    {
      waitChans, made, breakPointRules := map[], 0, [];
      received, pending, started, waiting, done := [], map[], [], map[], [];
    }

    function Now(): State
      reads this
    {
      State(waitChans, made, received, pending, started, waiting, done)
    }

    method InitWaitChan(key: Id) returns (ch: nat)
      modifies this`waitChans, this`made
      ensures (Now(), ch) == ChannelFor(old(Now()), key)
    {
      if key in waitChans {
        return waitChans[key];
      }
      ch := made;
      made := made + 1;
      waitChans := waitChans[key := ch];
    }

    /** One round of readloop; false when it dereferences nil rules and ends with a panic. */
    method ReadOne(msg: Incoming) returns (alive: bool)
      modifies this
      ensures Now() == Do(Reads(msg), old(Now()))
      ensures alive <==> !msg.NilRules?
      ensures breakPointRules == if msg.RulesMessage? then msg.rules else old(breakPointRules)
    {
      match msg {
        case EditMessage(m) =>
          var ch := InitWaitChan(m.id);
          // go func() { ch <- m }()
          pending := pending[|received| := ch];
          received := received + [m];
        case RulesMessage(rules) =>
          breakPointRules := rules;
        case NilRules =>
          return false;
        case Unusable =>
      }
      return true;
    }

    /** waitIntercept up to its blocking receive */
    method StartWait(f: Flow) returns (w: nat)
      modifies this
      ensures Now() == Do(Waits(f), old(Now())) && w == |old(started)|
      ensures breakPointRules == old(breakPointRules)
    {
      var ch := InitWaitChan(f.id);
      w := |started|;
      waiting := waiting[w := ch];
      started := started + [f];
    }

    /** The receive, and waitIntercept after it. */
    method Meet(e: nat, w: nat) returns (f: Option<Flow>)
      requires Enabled(Meets(e, w), Now())
      modifies this
      ensures Now() == Do(Meets(e, w), old(Now()))
      ensures f == Apply(old(received)[e], old(started)[w]) && breakPointRules == old(breakPointRules)
    {
      f := WaitIntercept(received[e], started[w]);
      pending, waiting := pending - {e}, waiting - {w};
      done := done + [Met(w, e, f)];
    }

    /** waitIntercept with the message it received: the flow's fields are overwritten one by one. */
    method WaitIntercept(msg: Edit, f0: Flow) returns (r: Option<Flow>)
      ensures r == Apply(msg, f0)
    {
      var f := f0;
      if msg.DropRequest? || msg.DropResponse? {
        f := f.(response := Some(Response(502, None, None)));
        return Some(f);
      }
      if msg.ChangeRequest? {
        f := f.(request := f.request.(verb := msg.request.verb));
        f := f.(request := f.request.(url := msg.request.url));
        f := f.(request := f.request.(header := msg.request.header));
        f := f.(request := f.request.(body := msg.request.body));
      } else if msg.ChangeResponse? {
        if f.response.None? {
          return None;
        }
        f := f.(response := Some(f.response.value.(statusCode := msg.response.statusCode)));
        f := f.(response := Some(f.response.value.(header := msg.response.header)));
        f := f.(response := Some(f.response.value.(body := msg.response.body)));
      }
      return Some(f);
    }
  }
}
