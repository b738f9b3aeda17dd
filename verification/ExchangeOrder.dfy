/** What every run of the exchange machine keeps (proxy/attacker.go, attack and reply): the order of its
    events, how often they happen, and why it ends. */
module ExchangeOrder {
  import opened Wrappers
  import opened BodyBuffer
  import opened ExchangeLog
  import opened ExchangeRun

  // ----- points

  /** The phase of the next event. */
  function PointPhase(p: Point): nat {
    match p
    case Headers(_, _) => REQUESTHEADERS
    case ReadRequest(_) => READ_REQUEST
    case Requests(_, _) => REQUEST
    case ModifyRequest(_, _, _) => MODIFY_REQUEST
    case Dial(_, _) => DIAL
    case Contact(_, _) => CONTACT
    case ResponseHeaders(_, _, _) => RESPONSEHEADERS
    case ReadResponse(_, _) => READ_RESPONSE
    case Responses(_, _) => RESPONSE
    case ModifyResponse(_, _, _) => MODIFY_RESPONSE
    case Replying(rest) => if rest == [] then FINISH else Phase(rest[0])
    case Crashed => FINISH
    case Over => FINISH
  }

  /** The flows and indices a point can have, and the events a reply can. */
  predicate Sound(c: Config, p: Point) {
    match p
    case Headers(i, f) => i < c.addons && f.response.None?
    case ReadRequest(f) => f.response.None?
    case Requests(i, f) => i < c.addons && f.response.None?
    case ModifyRequest(i, _, _) => i < c.addons
    case ResponseHeaders(i, f, _) => i < c.addons && f.response.Some? && f.response.value.body.None?
    case ReadResponse(f, _) => f.response.Some? && f.response.value.body.None?
    case Responses(i, _) => i < c.addons
    case ModifyResponse(i, _, _) => i < c.addons
    case Replying(rest) =>
      forall i :: 0 <= i < |rest| ==> rest[i].Wrote? || (i == 0 && rest[i].WroteHeader?)
    case _ => true
  }

  lemma ReplySound(c: Config, r: FlowResponse, body: Option<Stream>)
    ensures Sound(c, Replying(ReplyLog(r, body))) && ReplyLog(r, body)[0] == WroteHeader(r.statusCode)
  {
  }

  lemma NextSound(c: Config, log: Log, p: Point)
    requires Sound(c, p) && EventAt(c, log, p).Some?
    ensures Sound(c, Next(c, log + [EventAt(c, log, p).value], p, EventAt(c, log, p).value))
  {
    hide Buffer;
    hide ReplyLog;
    var e := EventAt(c, log, p).value;
    if e.Called? && e.effect.Leaves? && e.effect.flow.response.Some? {
      ReplySound(c, e.effect.flow.response.value, None);
    }
    if e.Modified? && e.gave.Gives? && e.gave.flow.response.Some? {
      ReplySound(c, e.gave.flow.response.value, e.gave.reader);
    }
    if p.ReadResponse? {
      ReplySound(c, p.flow.response.value, Some(p.answer.body));
      ReplySound(c, WithBody(p.flow, MemoryBody(Kept(c, p.answer.body, p.answer.together))).response.value, None);
    }
    if p.Responses? && e.effect.Leaves? && e.effect.flow.response.Some? {
      ReplySound(c, e.effect.flow.response.value, None);
    }
  }

  lemma StartSound(c: Config)
    ensures Sound(c, EnterHeaders(c, 0, c.Start()))
  {
    hide Buffer;
  }

  lemma {:induction false} RunIsSound(c: Config, log: Log)
    requires PointOf(c, log).Some?
    ensures Sound(c, PointOf(c, log).value)
  {
    hide Sound;
    hide Next;
    hide EventAt;
    hide EnterHeaders;
    if log == [] {
      StartSound(c);
    } else {
      var before := log[..|log| - 1];
      RunIsSound(c, before);
      NextSound(c, before, PointOf(c, before).value);
      assert log == before + [log[|log| - 1]];
    }
  }

  // ----- order

  /** Phases an exchange comes to at most once. */
  predicate Once(phase: nat) { phase in {READ_REQUEST, DIAL, CONTACT, READ_RESPONSE, HEADER, FINISH} }

  lemma EventPhase(c: Config, log: Log, p: Point)
    requires EventAt(c, log, p).Some?
    ensures Phase(EventAt(c, log, p).value) == PointPhase(p)
  {
  }

  /** The next phase is not an earlier one, and a later one after a phase that comes only once. */
  lemma NextPhase(c: Config, log: Log, p: Point)
    requires Sound(c, p) && EventAt(c, log, p).Some?
    ensures
      var e := EventAt(c, log, p).value;
      var q := Next(c, log + [e], p, e);
      PointPhase(p) <= PointPhase(q) && (q.Over? || (Once(PointPhase(q)) ==> PointPhase(p) < PointPhase(q)))
  {
    hide Buffer;
    hide ReplyLog;
    var e := EventAt(c, log, p).value;
    if e.Called? && e.effect.Leaves? && e.effect.flow.response.Some? {
      ReplySound(c, e.effect.flow.response.value, None);
    }
    if e.Modified? && e.gave.Gives? && e.gave.flow.response.Some? {
      ReplySound(c, e.gave.flow.response.value, e.gave.reader);
    }
    if p.ReadResponse? {
      ReplySound(c, p.flow.response.value, Some(p.answer.body));
      ReplySound(c, WithBody(p.flow, MemoryBody(Kept(c, p.answer.body, p.answer.together))).response.value, None);
    }
  }

  lemma {:induction false} CountBelow(log: Log, q: nat)
    requires Ordered(log) && (log != [] ==> Phase(log[|log| - 1]) < q)
    ensures CountPhase(log, q) == 0
  {
    if log != [] {
      var before := log[..|log| - 1];
      if before != [] {
        assert Phase(log[|log| - 2]) <= Phase(log[|log| - 1]);
      }
      CountBelow(before, q);
      hide Phase;
    }
  }

  lemma OrderedAppend(log: Log, e: Event)
    ensures Ordered(log + [e]) <==> Ordered(log) && (log == [] || Phase(log[|log| - 1]) <= Phase(e))
  {
    hide Phase;
    var log' := log + [e];
    assert log'[|log|] == e && forall k :: 0 <= k < |log| ==> log'[k] == log[k];
    if Ordered(log') && log != [] {
      assert Phase(log'[|log| - 1]) <= Phase(log'[|log|]);
    }
  }

  lemma CountAppend(log: Log, e: Event, q: nat)
    ensures CountPhase(log + [e], q) == CountPhase(log, q) + if Phase(e) == q then 1 else 0
  {
    assert (log + [e])[..|log|] == log;
  }

  /** The events come in order, and nothing of a phase that comes once has come before its point. */
  ghost predicate OrderInv(log: Log, p: Point) {
    Ordered(log) && (log != [] ==> Phase(log[|log| - 1]) <= PointPhase(p)) &&
    (log != [] && Once(PointPhase(p)) && !p.Over? ==> Phase(log[|log| - 1]) < PointPhase(p)) &&
    forall q :: Once(q) ==> CountPhase(log, q) <= 1
  }

  lemma {:induction false} RunIsOrdered(c: Config, log: Log)
    requires PointOf(c, log).Some?
    ensures OrderInv(log, PointOf(c, log).value)
  {
    hide EventAt;
    hide Next;
    hide Sound;
    hide Once;
    if log != [] {
      var before, e := log[..|log| - 1], log[|log| - 1];
      var p := PointOf(c, before).value;
      assert log == before + [e];
      RunIsOrdered(c, before);
      RunIsSound(c, before);
      EventPhase(c, before, p);
      NextPhase(c, before, p);
      OrderedAppend(before, e);
      forall q | Once(q) ensures CountPhase(log, q) <= 1 {
        CountAppend(before, e, q);
        OverIsLast(c, before);
        if Phase(e) == q {
          CountBelow(before, q);
        }
      }
    }
  }

  lemma OverIsLast(c: Config, log: Log)
    ensures EventAt(c, log, Over).None?
  {
  }
}
