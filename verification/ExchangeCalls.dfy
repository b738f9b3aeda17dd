/** The addons and the bodies in a run of the exchange machine (proxy/attacker.go, attack): which hooks are called,
    in what order and on what, and when bodies are streamed. */
module ExchangeCalls {
  import opened Wrappers
  import opened BodyBuffer
  import opened ExchangeLog
  import opened ExchangeRun
  import opened ExchangeOrder

  // ----- who sees what

  /** How the event before a point ties its flow and reader. */
  predicate Linked(c: Config, prev: Option<Event>, q: Point) {
    match q
    case Headers(i, f) =>
      if i == 0 then prev.None? && f == c.Start() else LeftOf(prev, Requestheaders, i - 1, f)
    case ReadRequest(f) => prev.Some? && prev.value.Called? ==> prev.value.effect == Leaves(f)
    case Requests(i, f) =>
      if i == 0 then FirstSees(c.Start(), Request, prev, f) else LeftOf(prev, Request, i - 1, f)
    case ModifyRequest(i, f, r) => if i == 0 then FirstModifies(prev, f) else GaveOf(prev, true, i - 1, f, r)
    case Dial(r, f) => true
    case Contact(r, f) => prev.Some? && prev.value.Modified? ==> prev.value.gave == Gives(f, r)
    case ResponseHeaders(i, f, _) =>
      if i == 0 then FirstSees(c.Start(), Responseheaders, prev, f) else LeftOf(prev, Responseheaders, i - 1, f)
    case ReadResponse(f, _) => prev.Some? && prev.value.Called? ==> prev.value.effect == Leaves(f)
    case Responses(i, f) =>
      if i == 0 then FirstSees(c.Start(), Response, prev, f) else LeftOf(prev, Response, i - 1, f)
    case ModifyResponse(i, f, r) => if i == 0 then FirstModifies(prev, f) else GaveOf(prev, false, i - 1, f, r)
    case Replying(rest) => rest != [] && rest[0].WroteHeader? ==> RightCode(prev, rest[0].code)
    case _ => true
  }

  predicate LeftOf(prev: Option<Event>, h: Hook, i: nat, f: Flow) {
    prev.Some? && prev.value.Called? && prev.value.hook == h && prev.value.addon == i && prev.value.effect == Leaves(f)
  }

  predicate GaveOf(prev: Option<Event>, request: bool, i: nat, f: Flow, r: Option<Stream>) {
    prev.Some? && prev.value.Modified? && prev.value.request == request && prev.value.addon == i &&
    prev.value.gave == Gives(f, r)
  }

  predicate FirstModifies(prev: Option<Event>, f: Flow) {
    prev.Some? && prev.value.Called? ==> prev.value.effect == Leaves(f)
  }

  lemma ReplyLinked(c: Config, e: Event, r: FlowResponse, body: Option<Stream>)
    requires RightCode(Some(e), r.statusCode)
    ensures Linked(c, Some(e), Replying(ReplyLog(r, body)))
  {
    ReplySound(c, r, body);
  }

  lemma NextLinked(c: Config, log: Log, p: Point)
    requires Sound(c, p) && EventAt(c, log, p).Some?
    ensures
      var e := EventAt(c, log, p).value;
      Linked(c, Some(e), Next(c, log + [e], p, e))
  {
    hide Buffer;
    hide ReplyLog;
    var e := EventAt(c, log, p).value;
    if e.Called? && e.effect.Leaves? && e.effect.flow.response.Some? && !p.Responses? {
      if EndsExchange(e) {
        ReplyLinked(c, e, e.effect.flow.response.value, None);
      }
    }
    if p.ModifyResponse? && e.gave.Gives? && e.gave.flow.response.Some? {
      ReplyLinked(c, e, e.gave.flow.response.value, e.gave.reader);
    }
    if p.ReadResponse? {
      ReplyLinked(c, e, p.flow.response.value, Some(p.answer.body));
      ReplyLinked(c, e, WithBody(p.flow, MemoryBody(Kept(c, p.answer.body, p.answer.together))).response.value, None);
    }
  }

  lemma LinkedThreads(c: Config, log: Log, prev: Option<Event>, p: Point)
    requires Sound(c, p) && Linked(c, prev, p) && EventAt(c, log, p).Some?
    ensures Threads(c.Start(), prev, EventAt(c, log, p).value)
  {
  }

  lemma StartLinked(c: Config)
    ensures Linked(c, None, EnterHeaders(c, 0, c.Start()))
  {
    hide Buffer;
  }

  lemma {:induction false} RunIsLinked(c: Config, log: Log)
    requires PointOf(c, log).Some?
    ensures Linked(c, Before(log, |log|), PointOf(c, log).value)
  {
    hide Linked;
    hide Next;
    hide EventAt;
    hide Sound;
    hide EnterHeaders;
    if log == [] {
      StartLinked(c);
    } else {
      var before := log[..|log| - 1];
      RunIsSound(c, before);
      NextLinked(c, before, PointOf(c, before).value);
      assert log == before + [log[|log| - 1]];
    }
  }

  /** In every run each addon is called in its turn and sees what the one before left, the first of a phase
      what the phase begins with, and the code written is that of the response that was left. */
  lemma RunIsThreaded(c: Config, log: Log)
    requires PointOf(c, log).Some?
    ensures Threaded(c.Start(), log)
  {
    forall k | 0 <= k < |log| ensures Threads(c.Start(), Before(log, k), log[k]) {
      PrefixRuns(c, log, k);
      RunIsSound(c, log[..k]);
      RunIsLinked(c, log[..k]);
      assert Before(log[..k], k) == Before(log, k);
      LinkedThreads(c, log[..k], Before(log, k), PointOf(c, log[..k]).value);
    }
  }

  // ----- bodies

  lemma KeptStreamed(c: Config, body: Stream, together: bool)
    requires !Kept(c, body, together).Failed?
    ensures Kept(c, body, together).Streamed? <==> Large(c.limit, |body.data|)
  {
  }

  ghost predicate HooksKept(log: Log, request: bool) {
    (exists e :: e in log && HookOn(e, request)) ==> InMemory(LastRead(log, request))
  }

  /** What has been read at a point: each body at most once, when its turn came; and hooks on a body come only
      after it was put into memory. */
  ghost predicate ReadsInv(c: Config, log: Log, p: Point) {
    var requestRead, responseRead, contact := LastRead(log, true), LastRead(log, false), LastContact(log);
    (p.Headers? || p.ReadRequest? ==> requestRead.None?) &&
    (p.ReadRequest? ==> p.flow.stream || !Kept(c, c.sent, c.together).Failed?) &&
    (p.Requests? ==> InMemory(requestRead)) && (p.Responses? ==> InMemory(responseRead)) &&
    (PointPhase(p) <= READ_RESPONSE ==> responseRead.None?) &&
    (p.ResponseHeaders? || p.ReadResponse? ==> contact.Some? && contact.value.answer == Some(p.answer)) &&
    (p.ReadResponse? ==> p.flow.stream || !Kept(c, p.answer.body, p.answer.together).Failed?) &&
    (p.Responses? || p.ModifyResponse? ==> responseRead.Some?) &&
    Sized(requestRead, c.limit, |c.sent.data|) &&
    (responseRead.Some? ==>
       contact.Some? && contact.value.answer.Some? &&
       Sized(responseRead, c.limit, |contact.value.answer.value.body.data|)) &&
    HooksKept(log, true) && HooksKept(log, false)
  }

  lemma ReadAppend(log: Log, e: Event, request: bool)
    ensures LastRead(log + [e], request) == if IsRead(e, request) then Some(e) else LastRead(log, request)
    ensures LastContact(log + [e]) == if e.Contacted? then Some(e) else LastContact(log)
  {
    assert (log + [e])[..|log|] == log;
  }

  lemma HooksAppend(log: Log, e: Event, request: bool)
    requires HooksKept(log, request)
    requires IsRead(e, request) ==> LastRead(log, request).None?
    requires HookOn(e, request) ==> InMemory(LastRead(log, request))
    ensures HooksKept(log + [e], request)
  {
    ReadAppend(log, e, request);
    hide LastRead;
    assert forall x :: x in log + [e] <==> x in log || x == e;
  }

  lemma NextReads(c: Config, log: Log, p: Point)
    requires Sound(c, p) && ReadsInv(c, log, p) && EventAt(c, log, p).Some?
    ensures
      var e := EventAt(c, log, p).value;
      ReadsInv(c, log + [e], Next(c, log + [e], p, e))
  {
    var e := EventAt(c, log, p).value;
    ReadAppend(log, e, true);
    ReadAppend(log, e, false);
    HooksAppend(log, e, true);
    HooksAppend(log, e, false);
    if p.ReadRequest? && !p.flow.stream {
      KeptStreamed(c, c.sent, c.together);
    }
    if p.ReadResponse? && !p.flow.stream {
      KeptStreamed(c, p.answer.body, p.answer.together);
    }
    NextReadsAt(c, log, p, e);
  }

  lemma NextReadsAt(c: Config, log: Log, p: Point, e: Event)
    requires Sound(c, p) && ReadsInv(c, log, p) && EventAt(c, log, p) == Some(e)
    requires
      forall b :: LastRead(log + [e], b) == if IsRead(e, b) then Some(e) else LastRead(log, b)
    requires LastContact(log + [e]) == if e.Contacted? then Some(e) else LastContact(log)
    requires HooksKept(log + [e], true) && HooksKept(log + [e], false)
    requires p.ReadRequest? ==> Sized(Some(e), c.limit, |c.sent.data|)
    requires p.ReadResponse? ==> Sized(Some(e), c.limit, |p.answer.body.data|)
    ensures ReadsInv(c, log + [e], Next(c, log + [e], p, e))
  {
    hide Buffer;
    hide LastRead;
    hide LastContact;
    hide HooksKept;
    hide Sized;
    NextPhase(c, log, p);
    NextSound(c, log, p);
    hide ReplyLog;
  }

  lemma StartReads(c: Config)
    ensures ReadsInv(c, [], EnterHeaders(c, 0, c.Start()))
  {
    hide Buffer;
  }

  lemma {:induction false} RunReads(c: Config, log: Log)
    requires PointOf(c, log).Some?
    ensures ReadsInv(c, log, PointOf(c, log).value)
  {
    hide ReadsInv;
    hide Next;
    hide EventAt;
    hide Sound;
    hide EnterHeaders;
    if log == [] {
      StartReads(c);
    } else {
      var before := log[..|log| - 1];
      RunReads(c, before);
      RunIsSound(c, before);
      NextReads(c, before, PointOf(c, before).value);
      assert log == before + [log[|log| - 1]];
    }
  }
}
