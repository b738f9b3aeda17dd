/** Runs of the exchange machine with addons that behave (proxy/attacker.go, attack): with addons that never panic
    and keep the response, attack replies; with addons that change nothing, both bodies pass through. */
module ExchangeQuiet {
  import opened Wrappers
  import opened BodyBuffer
  import opened ExchangeLog
  import opened ExchangeRun
  import opened ExchangeOrder
  import opened ExchangeCalls
  import opened ExchangeEnds
  import opened ExchangePlan

  // ----- addons that never panic

  predicate Decent(f: Flow) { f.response.Some? ==> ValidCode(f.response.value.statusCode) }

  /** `g` is what may be left of `f`: with a response if that had one, and a code that is one. */
  predicate Leavable(f: Flow, g: Flow) { (Decent(f) ==> Decent(g)) && (f.response.Some? ==> g.response.Some?) }

  /** Addons never panic, remove a response or set a code that is none; there is a server to ask, and its codes
      are codes. */
  ghost predicate Tame(w: World) {
    (forall log: Log, h: Hook, i: nat, f: Flow ::
       w.hook(log, h, i, f).Leaves? && Leavable(f, w.hook(log, h, i, f).flow)) &&
    (forall log: Log, b: bool, i: nat, f: Flow, r: Option<Stream> ::
       w.modifyStream(log, b, i, f, r).Gives? && Leavable(f, w.modifyStream(log, b, i, f, r).flow)) &&
    (w.hasServerConn || w.hasDial) &&
    (forall log: Log, r: Option<Stream> ::
       w.roundTrip(log, r).Some? ==> ValidCode(w.roundTrip(log, r).value.statusCode))
  }

  predicate TameAt(p: Point) {
    match p
    case Headers(_, f) => Decent(f)
    case ReadRequest(f) => Decent(f)
    case Requests(_, f) => Decent(f)
    case ModifyRequest(_, f, _) => Decent(f)
    case Dial(_, f) => Decent(f)
    case Contact(_, f) => Decent(f)
    case ResponseHeaders(_, f, _) => Decent(f) && f.response.Some?
    case ReadResponse(f, _) => Decent(f) && f.response.Some?
    case Responses(_, f) => Decent(f) && f.response.Some?
    case ModifyResponse(_, f, _) => Decent(f) && f.response.Some?
    case Replying(rest) => rest != [] && rest[0].WroteHeader? ==> ValidCode(rest[0].code)
    case Crashed => false
    case Over => true
  }

  lemma ReplyTame(r: FlowResponse, body: Option<Stream>)
    requires ValidCode(r.statusCode)
    ensures TameAt(Replying(ReplyLog(r, body)))
  {
  }

  lemma NextTame(c: Config, log: Log, p: Point, e: Event)
    requires Tame(c.w) && Sound(c, p) && TameAt(p) && EventAt(c, log, p) == Some(e)
    ensures TameAt(Next(c, log + [e], p, e))
  {
    hide Buffer;
    hide ReplyLog;
    if e.Called? && e.effect.flow.response.Some? && Decent(e.effect.flow) {
      ReplyTame(e.effect.flow.response.value, None);
    }
    if e.Modified? && e.gave.flow.response.Some? && Decent(e.gave.flow) {
      ReplyTame(e.gave.flow.response.value, e.gave.reader);
    }
    if p.ReadResponse? {
      ReplyTame(p.flow.response.value, Some(p.answer.body));
      ReplyTame(WithBody(p.flow, MemoryBody(Kept(c, p.answer.body, p.answer.together))).response.value, None);
    }
  }

  lemma StartTame(c: Config)
    ensures TameAt(EnterHeaders(c, 0, c.Start()))
  {
    hide Buffer;
  }

  lemma {:induction false} RunIsTame(c: Config, log: Log)
    requires Tame(c.w) && PointOf(c, log).Some?
    ensures TameAt(PointOf(c, log).value)
  {
    hide Tame;
    hide TameAt;
    hide Sound;
    hide Next;
    hide EventAt;
    hide EnterHeaders;
    if log == [] {
      StartTame(c);
    } else {
      var before, e := log[..|log| - 1], log[|log| - 1];
      RunIsTame(c, before);
      RunIsSound(c, before);
      NextTame(c, before, PointOf(c, before).value, e);
      assert log == before + [e];
    }
  }

  /** Addons that never panic, keep the response and set valid codes, and a server to ask: attack returns with
      one header written, whatever else they do and whatever fails. */
  lemma TameIsDone(c: Config, log: Log)
    requires Tame(c.w) && Complete(c, log)
    ensures !PanickedIn(c, log) && CountPhase(log, HEADER) == 1
  {
    hide Tame;
    EndsExactly(c, log);
    RunUptoLast(c, log);
    var done := log[..|log| - 1];
    RunIsTame(c, done);
    CrashedExactly(c, done);
    if BadHeaderLast(done) {
      var k := |done| - 1;
      PrefixRuns(c, done, k);
      RunIsTame(c, done[..k]);
      HeaderOnlyReplying(c, done[..k], PointOf(c, done[..k]).value);
    }
    hide PanicCause;
    hide CountPhase;
    hide EventAt;
  }

  // ----- addons that change nothing

  /** Addons that change nothing, and a dial and a request that work. */
  ghost predicate Quiet(w: World) {
    (forall log: Log, h: Hook, i: nat, f: Flow :: w.hook(log, h, i, f) == Leaves(f)) &&
    (forall log: Log, b: bool, i: nat, f: Flow, r: Option<Stream> :: w.modifyStream(log, b, i, f, r) == Gives(f, r)) &&
    (forall log: Log :: w.requestBuilds(log)) && (w.hasServerConn || w.hasDial) &&
    (forall log: Log :: w.dial(log) == Connected) &&
    (forall log: Log, r: Option<Stream> :: w.roundTrip(log, r).Some?)
  }

  /** What is left of a body: a negative limit loses it. */
  function Carry(c: Config, data: Bytes): Bytes { if c.limit < 0 then [] else data }

  function Sending(c: Config): Option<Stream> { Some(Stream(Carry(c, c.sent.data), false)) }

  predicate RequestLarge(c: Config) { Large(c.limit, |c.sent.data|) }

  predicate AnswerLarge(c: Config, a: ServerResponse) { RequestLarge(c) || Large(c.limit, |a.body.data|) }

  /** The flow once the request body has been read. */
  function SentFlow(c: Config): Flow {
    if RequestLarge(c) then c.Start().(stream := true)
    else c.Start().(request := c.Start().request.(body := Some(Carry(c, c.sent.data))))
  }

  function Headed(a: ServerResponse): FlowResponse { FlowResponse(a.statusCode, None, None, a.close) }

  /** The response and the reader that are written in the end. */
  function Answered(c: Config, a: ServerResponse): FlowResponse {
    if AnswerLarge(c, a) then Headed(a) else Headed(a).(body := Some(Carry(c, a.body.data)))
  }

  function AnswerReader(c: Config, a: ServerResponse): Option<Stream> {
    if AnswerLarge(c, a) then Some(a.body) else None
  }

  /** The server was asked with the client's body, and answered `a`. */
  predicate Asked(c: Config, log: Log, a: ServerResponse) {
    LastContact(log) == Some(Contacted(Sending(c), Some(a)))
  }

  predicate AskedSome(c: Config, log: Log) {
    LastContact(log).Some? && LastContact(log).value.answer.Some? && Asked(c, log, LastContact(log).value.answer.value)
  }

  /** The request and the response have been streamed as their sizes say. */
  predicate ReadAs(c: Config, log: Log, a: ServerResponse) {
    LastRead(log, false).Some? && Streams(LastRead(log, false)) == AnswerLarge(c, a)
  }

  predicate QuietAt(c: Config, log: Log, p: Point) {
    (PointPhase(p) > READ_REQUEST ==> Streams(LastRead(log, true)) == RequestLarge(c)) &&
    match p
    case Headers(_, f) => f == c.Start()
    case ReadRequest(f) => f == c.Start()
    case Requests(_, f) => f == SentFlow(c) && !RequestLarge(c)
    case ModifyRequest(_, f, r) => f == SentFlow(c) && r == Sending(c)
    case Dial(r, f) => f == SentFlow(c) && r == Sending(c)
    case Contact(r, f) => f == SentFlow(c) && r == Sending(c)
    case ResponseHeaders(_, f, a) => f == SentFlow(c).(response := Some(Headed(a))) && Asked(c, log, a)
    case ReadResponse(f, a) => f == SentFlow(c).(response := Some(Headed(a))) && Asked(c, log, a)
    case Responses(_, f) =>
      AskedSome(c, log) && f.response.Some? &&
      var a := LastContact(log).value.answer.value;
      !a.body.fails ==> ReadAs(c, log, a) && !AnswerLarge(c, a) && f.response == Some(Answered(c, a))
    case ModifyResponse(_, f, r) =>
      AskedSome(c, log) && f.response.Some? &&
      var a := LastContact(log).value.answer.value;
      !a.body.fails ==> ReadAs(c, log, a) && f.response == Some(Answered(c, a)) && r == AnswerReader(c, a)
    case Replying(rest) =>
      AskedSome(c, log) &&
      var a := LastContact(log).value.answer.value;
      !a.body.fails ==>
        ReadAs(c, log, a) &&
        (rest != [] && rest[0].WroteHeader? ==> rest == ReplyLog(Answered(c, a), AnswerReader(c, a)))
    case Crashed => false
    case Over => AskedSome(c, log) && (!LastContact(log).value.answer.value.body.fails ==>
                                         ReadAs(c, log, LastContact(log).value.answer.value))
  }

  lemma KeptBuffer(c: Config, body: Stream, together: bool)
    requires !body.fails
    ensures !Kept(c, body, together).Failed?
    ensures Kept(c, body, together).Streamed? <==> Large(c.limit, |body.data|)
    ensures !Large(c.limit, |body.data|) ==> MemoryBody(Kept(c, body, together)) == Carry(c, body.data)
  {
  }

  /** The steps before the answer of the server. */
  lemma NextQuietRequest(c: Config, log: Log, p: Point, e: Event)
    requires Quiet(c.w) && !c.sent.fails && QuietAt(c, log, p) && EventAt(c, log, p) == Some(e)
    requires PointPhase(p) < CONTACT && !p.Replying?
    requires LastRead(log + [e], true) == if IsRead(e, true) then Some(e) else LastRead(log, true)
    ensures QuietAt(c, log + [e], Next(c, log + [e], p, e))
  {
    hide LastRead;
    hide LastContact;
    KeptBuffer(c, c.sent, c.together);
    hide Buffer;
    hide ReplyLog;
    if p.ReadRequest? && RequestLarge(c) {
      assert Sending(c) == Some(c.sent);
    }
  }

  lemma NextQuietAnswer(c: Config, log: Log, p: Point, e: Event)
    requires Quiet(c.w) && QuietAt(c, log, p) && EventAt(c, log, p) == Some(e)
    requires CONTACT <= PointPhase(p) && !p.Replying? && !p.Crashed?
    requires LastRead(log + [e], true) == if IsRead(e, true) then Some(e) else LastRead(log, true)
    requires LastRead(log + [e], false) == if IsRead(e, false) then Some(e) else LastRead(log, false)
    requires LastContact(log + [e]) == if e.Contacted? then Some(e) else LastContact(log)
    ensures QuietAt(c, log + [e], Next(c, log + [e], p, e))
  {
    hide LastRead;
    hide LastContact;
    if p.ReadResponse? && !p.answer.body.fails {
      KeptBuffer(c, p.answer.body, p.answer.together);
    }
    hide Buffer;
    hide ReplyLog;
  }

  lemma NextQuietReply(c: Config, log: Log, p: Point, e: Event)
    requires Sound(c, p) && QuietAt(c, log, p) && EventAt(c, log, p) == Some(e) && p.Replying?
    requires LastRead(log + [e], true) == if IsRead(e, true) then Some(e) else LastRead(log, true)
    requires LastRead(log + [e], false) == if IsRead(e, false) then Some(e) else LastRead(log, false)
    requires LastContact(log + [e]) == if e.Contacted? then Some(e) else LastContact(log)
    requires PointPhase(p) > READ_REQUEST
    ensures QuietAt(c, log + [e], Next(c, log + [e], p, e))
  {
    hide LastRead;
    hide LastContact;
    hide ReplyLog;
  }

  lemma NextQuiet(c: Config, log: Log, p: Point, e: Event)
    requires Quiet(c.w) && !c.sent.fails && Sound(c, p) && QuietAt(c, log, p) && EventAt(c, log, p) == Some(e)
    ensures QuietAt(c, log + [e], Next(c, log + [e], p, e))
  {
    ReadAppend(log, e, true);
    ReadAppend(log, e, false);
    hide Quiet;
    hide QuietAt;
    hide Next;
    hide EventAt;
    if p.Replying? {
      ReplyPhase(c, p);
      NextQuietReply(c, log, p, e);
    } else if PointPhase(p) < CONTACT {
      NextQuietRequest(c, log, p, e);
    } else if p.Crashed? {
      NeverCrashed(c, log);
    } else {
      NextQuietAnswer(c, log, p, e);
    }
  }

  lemma ReplyPhase(c: Config, p: Point)
    requires Sound(c, p) && p.Replying?
    ensures PointPhase(p) > READ_REQUEST
  {
    if p.rest != [] {
      assert p.rest[0].Wrote? || p.rest[0].WroteHeader?;
    }
  }

  lemma NeverCrashed(c: Config, log: Log)
    ensures !QuietAt(c, log, Crashed)
  {
  }

  lemma StartQuiet(c: Config)
    requires Quiet(c.w) && !c.sent.fails
    ensures QuietAt(c, [], EnterHeaders(c, 0, c.Start()))
  {
    KeptBuffer(c, c.sent, c.together);
    hide Buffer;
  }

  lemma {:induction false} RunIsQuiet(c: Config, log: Log)
    requires Quiet(c.w) && !c.sent.fails && PointOf(c, log).Some?
    ensures QuietAt(c, log, PointOf(c, log).value)
  {
    hide Quiet;
    hide QuietAt;
    hide Sound;
    hide Next;
    hide EventAt;
    hide EnterHeaders;
    if log == [] {
      StartQuiet(c);
    } else {
      var before, e := log[..|log| - 1], log[|log| - 1];
      RunIsQuiet(c, before);
      RunIsSound(c, before);
      NextQuiet(c, before, PointOf(c, before).value, e);
      assert log == before + [e];
    }
  }

  // ----- the whole exchange

  lemma {:induction false} SomeEvent(log: Log, phase: nat) returns (k: nat)
    requires CountPhase(log, phase) >= 1
    ensures k < |log| && Phase(log[k]) == phase
  {
    k := |log| - 1;
    if Phase(log[k]) != phase {
      k := SomeEvent(log[..k], phase);
    }
  }

  lemma {:induction false} ContactCounts(log: Log)
    requires LastContact(log).Some?
    ensures CountPhase(log, CONTACT) >= 1
  {
    if !log[|log| - 1].Contacted? {
      ContactCounts(log[..|log| - 1]);
    }
  }

  lemma {:induction false} ContactBefore(log: Log, k: nat)
    requires k <= |log| && forall j :: k <= j < |log| ==> Phase(log[j]) != CONTACT
    ensures LastContact(log) == LastContact(log[..k])
    decreases |log|
  {
    if k == |log| {
      assert log[..k] == log;
    } else {
      var before := log[..|log| - 1];
      assert before[..k] == log[..k];
      assert Phase(log[|log| - 1]) != CONTACT;
      ContactBefore(before, k);
    }
  }

  lemma AnsweredBytes(c: Config, a: ServerResponse)
    ensures ReplyBytes(Answered(c, a), AnswerReader(c, a)) == Carry(c, a.body.data)
  {
    assert a.body.data + [] + [] == a.body.data;
    assert [] + [] + Carry(c, a.body.data) == Carry(c, a.body.data);
  }

  /** The last event before the end is a bad header exactly when the code of the reply is none. */
  lemma BadHeaderExactly(head: Log, r: FlowResponse, body: Option<Stream>)
    ensures BadHeaderLast(head + ReplyLog(r, body)) <==> !ValidCode(r.statusCode)
  {
    var rest := ReplyLog(r, body);
    var all := head + rest;
    assert all[|all| - 1] == rest[|rest| - 1];
  }

  /** The header and where it stands: what the client gets is the answer. */
  lemma QuietHeader(c: Config, log: Log) returns (head: Log)
    requires Quiet(c.w) && !c.sent.fails && Complete(c, log) && CountPhase(log, HEADER) == 1
    requires LastContact(log).Some? && LastContact(log).value.answer.Some?
    requires !LastContact(log).value.answer.value.body.fails
    ensures
      var a := LastContact(log).value.answer.value;
      log == head + ReplyLog(Answered(c, a), AnswerReader(c, a)) + [Finished] &&
      Ordered(head) && (head != [] ==> Phase(head[|head| - 1]) < HEADER)
  {
    hide *;
    OverPoint(c, log);
    var k := SomeHeader(log);
    head := log[..k];
    PrefixRuns(c, log, k);
    var q := PointOf(c, head).value;
    HeaderOnlyReplying(c, head, q);
    RunIsQuiet(c, head);
    RunIsOrdered(c, log);
    RunIsOrdered(c, head);
    AfterHeader(log, PointOf(c, log).value, k);
    ContactBefore(log, k);
    QuietRest(c, head, q);
    ReplyToEnd(c, log, k, q.rest);
    HeaderComesFirst(head, q, q.rest);
  }

  lemma SomeHeader(log: Log) returns (k: nat)
    requires CountPhase(log, HEADER) == 1
    ensures k < |log| && Phase(log[k]) == HEADER && log[k].WroteHeader?
  {
    k := SomeEvent(log, HEADER);
  }

  lemma AfterHeader(log: Log, p: Point, k: nat)
    requires OrderInv(log, p) && k < |log| && Phase(log[k]) == HEADER
    ensures forall j :: k <= j < |log| ==> Phase(log[j]) != CONTACT
  {
    hide Phase;
    hide CountPhase;
    forall j | k <= j < |log| ensures Phase(log[j]) != CONTACT {
      assert k < j ==> Phase(log[k]) <= Phase(log[j]);
    }
  }

  lemma QuietRest(c: Config, head: Log, q: Point)
    requires QuietAt(c, head, q) && q.Replying? && q.rest != [] && q.rest[0].WroteHeader?
    requires LastContact(head).Some? && LastContact(head).value.answer.Some?
    requires !LastContact(head).value.answer.value.body.fails
    ensures
      var a := LastContact(head).value.answer.value;
      q.rest == ReplyLog(Answered(c, a), AnswerReader(c, a))
  {
    hide ReplyLog;
  }

  lemma QuietReply(c: Config, log: Log)
    requires Quiet(c.w) && !c.sent.fails && Complete(c, log) && AskedSome(c, log)
    requires !LastContact(log).value.answer.value.body.fails
    ensures
      var a := LastContact(log).value.answer.value;
      CountPhase(log, HEADER) == 1 && (PanickedIn(c, log) <==> !ValidCode(a.statusCode)) &&
      Calls(log) == Plan(c.addons, RequestLarge(c), AnswerLarge(c, a)) &&
      WroteHeader(a.statusCode) in log && Written(log) == if ValidCode(a.statusCode) then Carry(c, a.body.data) else []
  {
    hide *;
    OverPoint(c, log);
    var a := QuietAnswer(c, log);
    RunUptoLast(c, log);
    var done := log[..|log| - 1];
    RunIsQuiet(c, done);
    NeverCrashed(c, done);
    CrashedExactly(c, done);
    EndsExactly(c, log);
    RunIsQuiet(c, log);
    OverRead(c, log);
    WholePlanCalled(c, log);
    var head := QuietHeader(c, log);
    var r, reader := Answered(c, a), AnswerReader(c, a);
    var rest := ReplyLog(r, reader);
    assert done == head + rest;
    BadHeaderExactly(head, r, reader);
    WrittenAll(head, rest);
    CodeWrites(r, reader);
    AnsweredBytes(c, a);
    ReplySound(c, r, reader);
    AnsweredCode(c, a);
    assert log[|head|] == rest[0];
  }

  lemma AnsweredCode(c: Config, a: ServerResponse)
    ensures Answered(c, a).statusCode == a.statusCode
    ensures ReplyLog(Answered(c, a), AnswerReader(c, a)) != []
  {
  }

  lemma QuietAnswer(c: Config, log: Log) returns (a: ServerResponse)
    requires AskedSome(c, log)
    ensures LastContact(log) == Some(Contacted(Sending(c), Some(a)))
  {
    a := LastContact(log).value.answer.value;
  }

  lemma OverRead(c: Config, log: Log)
    requires QuietAt(c, log, Over) && Complete(c, log)
    requires LastContact(log).Some? && LastContact(log).value.answer.Some?
    requires !LastContact(log).value.answer.value.body.fails
    ensures Streams(LastRead(log, true)) == RequestLarge(c)
    ensures LastRead(log, false).Some?
    ensures Streams(LastRead(log, false)) == AnswerLarge(c, LastContact(log).value.answer.value)
  {
    hide Streams;
  }

  /** Addons that change nothing, a dial and a request that work, and a client whose body arrives: the server is
      asked once, with that body. If the server's body arrives too, its code, its body are what the client gets,
      and the calls are the whole plan: body hooks are left out where a body reaches the limit. A negative limit
      loses the bodies. */
  lemma QuietCarries(c: Config, log: Log)
    requires Quiet(c.w) && !c.sent.fails && Complete(c, log)
    ensures CountPhase(log, CONTACT) == 1 && AskedSome(c, log)
    ensures
      var a := LastContact(log).value.answer.value;
      !a.body.fails ==>
        CountPhase(log, HEADER) == 1 && (PanickedIn(c, log) <==> !ValidCode(a.statusCode)) &&
        Calls(log) == Plan(c.addons, RequestLarge(c), AnswerLarge(c, a)) &&
        Written(log) == if ValidCode(a.statusCode) then Carry(c, a.body.data) else []
    ensures
      var a := LastContact(log).value.answer.value;
      !a.body.fails ==> WroteHeader(a.statusCode) in log
  {
    RunIsQuiet(c, log);
    RunIsOrdered(c, log);
    ContactCounts(log);
    var a := LastContact(log).value.answer.value;
    if !a.body.fails {
      QuietReply(c, log);
    }
  }

}
