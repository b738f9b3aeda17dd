/** What happens in one request through the proxy (proxy/attacker.go, attack and reply), event by event and without the
    machine: each event follows from the events before it, from the flow and the reader as they were last left, and
    from what the world answers. */
module ExchangeRules {
  import opened Wrappers
  import opened BodyBuffer
  import opened ExchangeLog
  import opened ExchangeRun
  import ExchangeOrder

  // ----- the flow and the reader as they were left

  /** The bytes of a body that is put into memory: a negative limit reads none. */
  function InMemoryBytes(c: Config, data: Bytes): Bytes { if c.limit < 0 then [] else data }

  /** The answer of the server, if the last exchange had one. */
  function AnswerIn(log: Log): Option<ServerResponse> {
    if log == [] then None
    else if log[|log| - 1].Contacted? then log[|log| - 1].answer
    else AnswerIn(log[..|log| - 1])
  }

  function BodyOf(c: Config, log: Log, request: bool): Stream {
    if request then c.sent else if AnswerIn(log).Some? then AnswerIn(log).value.body else Stream([], false)
  }

  /** The flow as addons, the reading of bodies and the answer of the server left it. */
  function LeftFlow(c: Config, log: Log): Flow {
    if log == [] then Flow(FlowRequest(c.host, c.scheme, None), None, false, false)
    else FlowAfter(c, log[..|log| - 1], log[|log| - 1], LeftFlow(c, log[..|log| - 1]))
  }

  function FlowAfter(c: Config, before: Log, e: Event, f: Flow): Flow {
    match e
    case Called(_, _, _, effect) => if effect.Leaves? then effect.flow else f
    case Modified(_, _, _, _, gave) => if gave.Gives? then gave.flow else f
    case BodyRead(request, g, _, streamed) =>
      if streamed then g.(stream := true) else WithRead(g, request, InMemoryBytes(c, BodyOf(c, before, request).data))
    case Contacted(_, answer) => if answer.Some? then f.(response := Some(HeaderOf(answer.value))) else f
    case _ => f
  }

  function HeaderOf(a: ServerResponse): FlowResponse { FlowResponse(a.statusCode, None, None, a.close) }

  function WithRead(f: Flow, request: bool, data: Bytes): Flow {
    if request then f.(request := f.request.(body := Some(data)))
    else if f.response.None? then f
    else f.(response := Some(f.response.value.(body := Some(data))))
  }

  /** The reader that is handed on: what the last modifier gave; the body itself where it is streamed; else the body
      that the Request hooks left in the flow, and none for a response. A dial does not touch it. */
  function LeftReader(c: Config, log: Log): Option<Stream> {
    if log == [] then None
    else ReaderAfter(c, log[..|log| - 1], log[|log| - 1], LeftReader(c, log[..|log| - 1]))
  }

  function ReaderAfter(c: Config, before: Log, e: Event, r: Option<Stream>): Option<Stream> {
    match e
    case Modified(_, _, _, _, gave) => if gave.Gives? then gave.reader else None
    case BodyRead(request, _, _, streamed) =>
      if streamed then Some(BodyOf(c, before, request))
      else if request then Some(Stream(InMemoryBytes(c, c.sent.data), false))
      else None
    case Called(h, _, _, effect) =>
      if h.Request? && effect.Leaves? then
        Some(Stream(if effect.flow.request.body.Some? then effect.flow.request.body.value else [], false))
      else None
    case Dialled => r
    case _ => None
  }

  // ----- whose turn it is

  /** The addon let the exchange go on: it answered nothing, or left the header of the answer as one. */
  predicate Passed(e: Event, h: Hook, i: nat) {
    e.Called? && e.hook == h && e.addon == i && e.effect.Leaves? &&
    match h
    case Requestheaders => e.effect.flow.response.None?
    case Request => e.effect.flow.response.None?
    case Responseheaders => e.effect.flow.response.Some? && e.effect.flow.response.value.body.None?
    case Response => true
  }

  /** Where the first addon is called for a hook. */
  predicate Begins(log: Log, h: Hook) {
    match h
    case Requestheaders => log == []
    case Request => log != [] && IsRead(log[|log| - 1], true) && !log[|log| - 1].streamed
    case Responseheaders => log != [] && log[|log| - 1].Contacted? && log[|log| - 1].answer.Some?
    case Response => log != [] && IsRead(log[|log| - 1], false) && !log[|log| - 1].streamed
  }

  /** The hook has been called of `i` addons and not yet of more. */
  predicate Turn(log: Log, h: Hook, i: nat) {
    if i == 0 then Begins(log, h) else log != [] && Passed(log[|log| - 1], h, i - 1)
  }

  /** All the hooks before the modifiers are done: those on the body, or none where it is streamed. */
  predicate ToModify(c: Config, log: Log, request: bool) {
    (log != [] && IsRead(log[|log| - 1], request) && log[|log| - 1].streamed) ||
    Turn(log, if request then Request else Response, c.addons)
  }

  predicate ModifyTurn(c: Config, log: Log, request: bool, i: nat) {
    if i == 0 then ToModify(c, log, request)
    else
      log != [] && log[|log| - 1].Modified? && log[|log| - 1].request == request && log[|log| - 1].addon == i - 1 &&
      log[|log| - 1].gave.Gives?
  }

  // ----- when a body is read and the server asked

  /** Reading the body into memory fails. */
  predicate Unreadable(c: Config, log: Log, request: bool) {
    var body := BodyOf(c, log, request);
    var together := if request then c.together else AnswerIn(log).Some? && AnswerIn(log).value.together;
    body.fails && (|body.data| < c.limit || (|body.data| == c.limit && together && c.limit > 0))
  }

  predicate ToRead(c: Config, log: Log, request: bool) {
    Turn(log, if request then Requestheaders else Responseheaders, c.addons)
  }

  predicate ReadFails(c: Config, log: Log, request: bool) {
    ToRead(c, log, request) && !LeftFlow(c, log).stream && Unreadable(c, log, request)
  }

  predicate ToSend(c: Config, log: Log) { ModifyTurn(c, log, true, c.addons) && c.w.requestBuilds(log) }

  /** The request goes where the client's connection goes, and there is no connection to the server. */
  predicate NeedsDial(c: Config, f: Flow) {
    !f.separateClient && f.request.host == c.host && f.request.scheme == c.scheme && !c.w.hasServerConn
  }

  predicate JustDialled(log: Log) { log != [] && log[|log| - 1].Dialled? }

  // ----- how it ends

  /** The last hook answered the request, or gave the response a body. */
  predicate GaveReply(e: Event) {
    e.Called? && e.effect.Leaves? && e.effect.flow.response.Some? &&
    (e.hook.Requestheaders? || e.hook.Request? ||
     (e.hook.Responseheaders? && e.effect.flow.response.value.body.Some?))
  }

  predicate ToReply(c: Config, log: Log) { ModifyTurn(c, log, false, c.addons) }

  /** The reply that is due after `log`, if one is. */
  function Due(c: Config, log: Log): Option<Log> {
    var f := LeftFlow(c, log);
    if log != [] && GaveReply(log[|log| - 1]) then Some(ReplyLog(f.response.value, None))
    else if ReadFails(c, log, true) || ReadFails(c, log, false) then Some([WroteHeader(502)])
    else if ModifyTurn(c, log, true, c.addons) && !c.w.requestBuilds(log) then Some([WroteHeader(502)])
    else if JustDialled(log) && c.w.dial(log) == ProxyAuthRequired then Some([WroteHeader(407), Wrote([10])])
    else if JustDialled(log) && c.w.dial(log) == DialFailed then Some([WroteHeader(502)])
    else if log != [] && log[|log| - 1].Contacted? && log[|log| - 1].answer.None? then Some([WroteHeader(502)])
    else if ToReply(c, log) && f.response.Some? then Some(ReplyLog(f.response.value, LeftReader(c, log)))
    else None
  }

  /** attack panics: an addon does, the response is gone where it is looked at, or there is no server to ask. */
  predicate Panicking(c: Config, log: Log) {
    (log != [] &&
     match log[|log| - 1]
     case Called(h, _, _, effect) => effect.Panics? || (h.Responseheaders? && effect.flow.response.None?)
     case Modified(_, _, _, _, gave) => gave.StreamPanics?
     case _ => false) ||
    (ToSend(c, log) && NeedsDial(c, LeftFlow(c, log)) && !c.w.hasDial) ||
    (ToReply(c, log) && LeftFlow(c, log).response.None?)
  }

  /** What came before the reply. */
  function HeadOf(log: Log): (head: Log)
    ensures head <= log
  {
    if log != [] && (log[|log| - 1].WroteHeader? || log[|log| - 1].Wrote?) then HeadOf(log[..|log| - 1]) else log
  }

  // ----- the rules

  /** When an event happens, on what, and with what outcome. */
  predicate Follows(c: Config, log: Log, e: Event) {
    match e
    case Called(h, i, before, effect) =>
      i < c.addons && Turn(log, h, i) && before == LeftFlow(c, log) && effect == c.w.hook(log, h, i, before)
    case Modified(request, i, before, given, gave) =>
      i < c.addons && ModifyTurn(c, log, request, i) && before == LeftFlow(c, log) && given == LeftReader(c, log) &&
      gave == c.w.modifyStream(log, request, i, before, given)
    case BodyRead(request, before, size, streamed) =>
      ToRead(c, log, request) && !ReadFails(c, log, request) && before == LeftFlow(c, log) &&
      size == |BodyOf(c, log, request).data| && (streamed <==> before.stream || Large(c.limit, size))
    case Dialled => ToSend(c, log) && NeedsDial(c, LeftFlow(c, log)) && c.w.hasDial
    case Contacted(sent, answer) =>
      (if JustDialled(log) then c.w.dial(log) == Connected
       else ToSend(c, log) && !NeedsDial(c, LeftFlow(c, log))) &&
      sent == LeftReader(c, log) && answer == c.w.roundTrip(log, sent)
    case _ =>
      var head := HeadOf(log);
      if head == log && Panicking(c, log) then e == Finished
      else Due(c, head).Some? && log[|head|..] + [e] <= Due(c, head).value + [Finished]
  }

  // ----- the points of the machine, read off the log

  predicate AtPoint(c: Config, log: Log, p: Point) {
    match p
    case Headers(i, f) => i < c.addons && Turn(log, Requestheaders, i) && f == LeftFlow(c, log)
    case ReadRequest(f) => ToRead(c, log, true) && !ReadFails(c, log, true) && f == LeftFlow(c, log)
    case Requests(i, f) => i < c.addons && Turn(log, Request, i) && f == LeftFlow(c, log)
    case ModifyRequest(i, f, r) =>
      i < c.addons && ModifyTurn(c, log, true, i) && f == LeftFlow(c, log) && r == LeftReader(c, log)
    case Dial(r, f) =>
      ToSend(c, log) && NeedsDial(c, f) && c.w.hasDial && f == LeftFlow(c, log) && r == LeftReader(c, log)
    case Contact(r, f) =>
      f == LeftFlow(c, log) && r == LeftReader(c, log) &&
      if JustDialled(log) then c.w.dial(log) == Connected else ToSend(c, log) && !NeedsDial(c, f)
    case ResponseHeaders(i, f, a) =>
      i < c.addons && Turn(log, Responseheaders, i) && f == LeftFlow(c, log) && AnswerIn(log) == Some(a)
    case ReadResponse(f, a) =>
      ToRead(c, log, false) && !ReadFails(c, log, false) && f == LeftFlow(c, log) && AnswerIn(log) == Some(a)
    case Responses(i, f) => i < c.addons && Turn(log, Response, i) && f == LeftFlow(c, log)
    case ModifyResponse(i, f, r) =>
      i < c.addons && ModifyTurn(c, log, false, i) && f == LeftFlow(c, log) && r == LeftReader(c, log)
    case Replying(rest) =>
      var head := HeadOf(log);
      !Panicking(c, head) && Due(c, head).Some? && log[|head|..] + rest == Due(c, head).value
    case Crashed => Panicking(c, log) && HeadOf(log) == log
    case Over => log != [] && log[|log| - 1].Finished?
  }

  // ----- the machine keeps to its points

  lemma KeptExactly(c: Config, body: Stream, together: bool)
    ensures
      var b := Kept(c, body, together);
      b == Buffer(body.data, body.fails, together, c.limit).0 &&
      (b.Failed? <==>
       body.fails && (|body.data| < c.limit || (|body.data| == c.limit && together && c.limit > 0))) &&
      (!b.Failed? ==>
         (b.Streamed? <==> Large(c.limit, |body.data|)) &&
         (b.Whole? ==> MemoryBody(b) == InMemoryBytes(c, body.data)))
  {
    BufferExactly(body.data, body.fails, together, c.limit);
  }

  lemma OneMore(done: Log, rest: Log, e: Event)
    requires e == if rest == [] then Finished else rest[0]
    ensures done + [e] <= done + rest + [Finished]
    ensures rest != [] ==> done + [e] + rest[1..] == done + rest
  {
  }

  lemma HeadStops(log: Log)
    ensures HeadOf(log) == log || (log[|log| - 1].WroteHeader? || log[|log| - 1].Wrote?)
    ensures log != [] && (log[|log| - 1].WroteHeader? || log[|log| - 1].Wrote?) ==> |HeadOf(log)| < |log|
  {
  }

  lemma ReplyShape(c: Config, r: FlowResponse, body: Option<Stream>)
    ensures
      var all := ReplyLog(r, body);
      all != [] && all[0].WroteHeader? && forall i :: 0 < i < |all| ==> all[i].Wrote?
  {
    ExchangeOrder.ReplySound(c, r, body);
  }

  /** A reply is a header and what is written after it. */
  lemma DueShape(c: Config, log: Log)
    requires Due(c, log).Some?
    ensures
      var all := Due(c, log).value;
      all != [] && all[0].WroteHeader? && forall i :: 0 < i < |all| ==> all[i].Wrote?
  {
    var f := LeftFlow(c, log);
    if f.response.Some? {
      ReplyShape(c, f.response.value, None);
      ReplyShape(c, f.response.value, LeftReader(c, log));
    }
    hide LeftFlow;
    hide LeftReader;
    hide ReplyLog;
    hide ReadFails;
    hide ModifyTurn;
    if log != [] && GaveReply(log[|log| - 1]) {
      LeftByHook(c, log);
    }
  }

  lemma LeftByHook(c: Config, log: Log)
    requires log != [] && log[|log| - 1].Called? && log[|log| - 1].effect.Leaves?
    ensures LeftFlow(c, log) == log[|log| - 1].effect.flow
  {
  }

  /** Before a reply nothing is due and nothing panics. */
  lemma NothingDue(c: Config, log: Log, p: Point)
    requires AtPoint(c, log, p) && !p.Replying? && !p.Crashed?
    ensures HeadOf(log) == log && Due(c, log) == None && !Panicking(c, log)
  {
    HeadStops(log);
    hide LeftFlow;
    hide LeftReader;
    hide HeadOf;
    hide AnswerIn;
    hide Unreadable;
    hide ReplyLog;
  }

  predicate InReply(e: Event) { e.WroteHeader? || e.Wrote? || e.Finished? }

  /** While a reply is due, or after a panic, only that follows. */
  lemma OnlyReply(c: Config, log: Log, e: Event)
    requires Follows(c, log, e) && (Due(c, HeadOf(log)).Some? || Panicking(c, HeadOf(log)))
    ensures InReply(e)
  {
    HeadStops(log);
    hide LeftFlow;
    hide LeftReader;
    hide HeadOf;
    hide AnswerIn;
    hide Unreadable;
    hide ReplyLog;
  }

  lemma NextOf(done: Log, rest: Log, e: Event)
    requires done + [e] <= done + rest + [Finished]
    ensures e == if rest == [] then Finished else rest[0]
  {
    var all := done + rest + [Finished];
    assert (done + [e])[|done|] == e == all[|done|];
  }

  /** The next event of a point follows. */
  lemma PointFollows(c: Config, log: Log, p: Point, e: Event)
    requires AtPoint(c, log, p) && EventAt(c, log, p) == Some(e)
    ensures Follows(c, log, e)
  {
    hide LeftFlow;
    hide LeftReader;
    hide HeadOf;
    hide Due;
    hide Panicking;
    hide AnswerIn;
    KeptExactly(c, c.sent, c.together);
    if p.ReadResponse? {
      KeptExactly(c, p.answer.body, p.answer.together);
    }
    if p.Replying? {
      var head := HeadOf(log);
      DueShape(c, head);
      OneMore(log[|head|..], p.rest, e);
      assert p.rest != [] ==> p.rest[0] == Due(c, head).value[|log| - |head|];
    }
    hide Kept;
    hide Buffer;
  }

  /** Only the next event of a point follows. */
  lemma FollowsPoint(c: Config, log: Log, p: Point, e: Event)
    requires AtPoint(c, log, p) && Follows(c, log, e)
    ensures EventAt(c, log, p) == Some(e)
  {
    if p.Replying? || p.Crashed? {
      OnlyReply(c, log, e);
      if p.Replying? {
        NextOf(log[|HeadOf(log)|..], p.rest, e);
      }
      hide *;
      ReplyingFollows(c, log, p, e);
    } else {
      NothingDue(c, log, p);
      OtherFollows(c, log, p, e);
    }
  }

  lemma ReplyingFollows(c: Config, log: Log, p: Point, e: Event)
    requires (p.Replying? && e == if p.rest == [] then Finished else p.rest[0]) || (p == Crashed && e == Finished)
    ensures EventAt(c, log, p) == Some(e)
  {
  }

  lemma OtherFollows(c: Config, log: Log, p: Point, e: Event)
    requires AtPoint(c, log, p) && Follows(c, log, e) && !p.Replying? && !p.Crashed?
    requires HeadOf(log) == log && Due(c, log) == None && !Panicking(c, log)
    ensures EventAt(c, log, p) == Some(e)
  {
    hide LeftFlow;
    hide LeftReader;
    hide HeadOf;
    hide AnswerIn;
    hide Due;
    hide Panicking;
    KeptExactly(c, c.sent, c.together);
    if p.ReadResponse? {
      KeptExactly(c, p.answer.body, p.answer.together);
    }
    hide Kept;
    hide Buffer;
  }

  // ----- entering a phase

  lemma ReplyBegins(c: Config, log: Log, all: Log)
    requires HeadOf(log) == log && Due(c, log) == Some(all) && !Panicking(c, log)
    ensures AtPoint(c, log, Replying(all))
  {
    hide Due;
    hide Panicking;
    assert log[|log|..] + all == all;
  }

  lemma EnterReadAt(c: Config, log: Log, request: bool, f: Flow, a: ServerResponse)
    requires ToRead(c, log, request) && f == LeftFlow(c, log) && HeadOf(log) == log
    requires !request ==> AnswerIn(log) == Some(a)
    ensures AtPoint(c, log, if request then EnterReadRequest(c, f) else EnterReadResponse(c, f, a))
  {
    hide LeftFlow;
    hide LeftReader;
    hide HeadOf;
    hide AnswerIn;
    KeptExactly(c, c.sent, c.together);
    KeptExactly(c, a.body, a.together);
    hide Kept;
    hide Buffer;
    hide ReplyLog;
    hide AtPoint;
    if ReadFails(c, log, request) {
      ReplyBegins(c, log, [WroteHeader(502)]);
    } else {
      EnterReadStays(c, log, request, f, a);
    }
  }

  lemma EnterReadStays(c: Config, log: Log, request: bool, f: Flow, a: ServerResponse)
    requires ToRead(c, log, request) && f == LeftFlow(c, log) && !ReadFails(c, log, request)
    requires !request ==> AnswerIn(log) == Some(a)
    ensures AtPoint(c, log, if request then ReadRequest(f) else ReadResponse(f, a))
  {
    hide ReadFails;
    hide ToRead;
    hide LeftFlow;
    hide AnswerIn;
  }

  lemma EnterHeadersAt(c: Config, log: Log, i: nat, f: Flow)
    requires i <= c.addons && Turn(log, Requestheaders, i) && f == LeftFlow(c, log) && HeadOf(log) == log
    ensures AtPoint(c, log, EnterHeaders(c, i, f))
  {
    hide LeftFlow;
    hide EnterReadRequest;
    if i == c.addons {
      EnterReadAt(c, log, true, f, ServerResponse(0, Stream([], false), false, false));
    }
    hide ToRead;
    hide ReadFails;
  }

  lemma EnterResponseHeadersAt(c: Config, log: Log, i: nat, f: Flow, a: ServerResponse)
    requires i <= c.addons && Turn(log, Responseheaders, i) && f == LeftFlow(c, log) && HeadOf(log) == log
    requires AnswerIn(log) == Some(a)
    ensures AtPoint(c, log, EnterResponseHeaders(c, i, f, a))
  {
    hide LeftFlow;
    hide AnswerIn;
    hide EnterReadResponse;
    if i == c.addons {
      EnterReadAt(c, log, false, f, a);
    }
    hide ToRead;
    hide ReadFails;
  }

  lemma EnterUpstreamAt(c: Config, log: Log, f: Flow, r: Option<Stream>)
    requires ModifyTurn(c, log, true, c.addons)
    requires f == LeftFlow(c, log) && r == LeftReader(c, log) && HeadOf(log) == log
    ensures AtPoint(c, log, EnterUpstream(c, log, f, r))
  {
    hide LeftFlow;
    hide LeftReader;
    hide HeadOf;
    hide AnswerIn;
    hide ReplyLog;
    hide Unreadable;
    if !c.w.requestBuilds(log) {
      ReplyBegins(c, log, [WroteHeader(502)]);
    }
  }

  lemma EnterModifyRequestAt(c: Config, log: Log, i: nat, f: Flow, r: Option<Stream>)
    requires i <= c.addons && ModifyTurn(c, log, true, i)
    requires f == LeftFlow(c, log) && r == LeftReader(c, log) && HeadOf(log) == log
    ensures AtPoint(c, log, EnterModifyRequest(c, log, i, f, r))
  {
    hide EnterUpstream;
    hide LeftFlow;
    hide LeftReader;
    hide ModifyTurn;
    if i == c.addons {
      EnterUpstreamAt(c, log, f, r);
    }
  }

  lemma EnterModifyResponseAt(c: Config, log: Log, i: nat, f: Flow, r: Option<Stream>)
    requires i <= c.addons && ModifyTurn(c, log, false, i)
    requires f == LeftFlow(c, log) && r == LeftReader(c, log) && HeadOf(log) == log
    ensures AtPoint(c, log, EnterModifyResponse(c, i, f, r))
  {
    hide LeftFlow;
    hide LeftReader;
    hide HeadOf;
    hide AnswerIn;
    hide ReplyLog;
    hide Unreadable;
    if i == c.addons && f.response.Some? {
      ReplyBegins(c, log, ReplyLog(f.response.value, r));
    }
  }

  lemma EnterRequestsAt(c: Config, log: Log, i: nat, f: Flow)
    requires i <= c.addons && Turn(log, Request, i) && f == LeftFlow(c, log) && HeadOf(log) == log
    requires LeftReader(c, log) == Some(Stream(if f.request.body.Some? then f.request.body.value else [], false))
    ensures AtPoint(c, log, EnterRequests(c, log, i, f))
  {
    hide EnterModifyRequest;
    hide LeftFlow;
    hide LeftReader;
    if i == c.addons {
      EnterModifyRequestAt(c, log, 0, f, LeftReader(c, log));
    }
  }

  lemma EnterResponsesAt(c: Config, log: Log, i: nat, f: Flow)
    requires i <= c.addons && Turn(log, Response, i) && f == LeftFlow(c, log) && HeadOf(log) == log
    requires LeftReader(c, log) == None
    ensures AtPoint(c, log, EnterResponses(c, i, f))
  {
    hide EnterModifyResponse;
    hide LeftFlow;
    hide LeftReader;
    if i == c.addons {
      EnterModifyResponseAt(c, log, 0, f, None);
    }
  }

  // ----- one step

  lemma LogAppend(c: Config, log: Log, e: Event)
    ensures
      AnswerIn(log + [e]) == (if e.Contacted? then e.answer else AnswerIn(log)) &&
      HeadOf(log + [e]) == (if e.WroteHeader? || e.Wrote? then HeadOf(log) else log + [e])
    ensures LeftFlow(c, log + [e]) == FlowAfter(c, log, e, LeftFlow(c, log))
    ensures LeftReader(c, log + [e]) == ReaderAfter(c, log, e, LeftReader(c, log))
  {
    assert (log + [e])[..|log|] == log;
  }

  lemma NextHook(c: Config, log: Log, p: Point, e: Event)
    requires AtPoint(c, log, p) && EventAt(c, log, p) == Some(e)
    requires p.Headers? || p.Requests? || p.ResponseHeaders? || p.Responses?
    ensures AtPoint(c, log + [e], Next(c, log + [e], p, e))
  {
    LogAppend(c, log, e);
    var log' := log + [e];
    assert log'[|log'| - 1] == e;
    hide LeftFlow;
    hide LeftReader;
    hide AnswerIn;
    hide HeadOf;
    hide EnterHeaders;
    hide EnterRequests;
    hide EnterResponseHeaders;
    hide EnterResponses;
    hide ReplyLog;
    if e.effect.Leaves? {
      var f := e.effect.flow;
      if GaveReply(e) {
        ReplyBegins(c, log', ReplyLog(f.response.value, None));
      } else {
        match p {
          case Headers(i, _) => EnterHeadersAt(c, log', i + 1, f);
          case Requests(i, _) => EnterRequestsAt(c, log', i + 1, f);
          case ResponseHeaders(i, _, a) =>
            if f.response.Some? {
              EnterResponseHeadersAt(c, log', i + 1, f, a);
            }
          case Responses(i, _) => EnterResponsesAt(c, log', i + 1, f);
        }
      }
    }
  }

  lemma NextRead(c: Config, log: Log, p: Point, e: Event)
    requires AtPoint(c, log, p) && EventAt(c, log, p) == Some(e) && (p.ReadRequest? || p.ReadResponse?)
    requires ExchangeOrder.Sound(c, p)
    ensures AtPoint(c, log + [e], Next(c, log + [e], p, e))
  {
    LogAppend(c, log, e);
    var log' := log + [e];
    assert log'[|log'| - 1] == e;
    KeptExactly(c, c.sent, c.together);
    if p.ReadResponse? {
      KeptExactly(c, p.answer.body, p.answer.together);
    }
    hide LeftFlow;
    hide LeftReader;
    hide AnswerIn;
    hide HeadOf;
    hide EnterModifyRequest;
    hide EnterModifyResponse;
    hide EnterRequests;
    hide EnterResponses;
    hide Kept;
    hide Buffer;
    hide ReplyLog;
    var f := LeftFlow(c, log');
    if p.ReadRequest? {
      if e.streamed {
        EnterModifyRequestAt(c, log', 0, f, Some(c.sent));
      } else {
        EnterRequestsAt(c, log', 0, f);
      }
    } else if e.streamed {
      EnterModifyResponseAt(c, log', 0, f, Some(p.answer.body));
    } else {
      EnterResponsesAt(c, log', 0, f);
    }
  }

  lemma NextModify(c: Config, log: Log, p: Point, e: Event)
    requires AtPoint(c, log, p) && EventAt(c, log, p) == Some(e) && (p.ModifyRequest? || p.ModifyResponse?)
    ensures AtPoint(c, log + [e], Next(c, log + [e], p, e))
  {
    LogAppend(c, log, e);
    var log' := log + [e];
    assert log'[|log'| - 1] == e;
    hide LeftFlow;
    hide LeftReader;
    hide AnswerIn;
    hide HeadOf;
    hide EnterModifyRequest;
    hide EnterModifyResponse;
    hide ReplyLog;
    hide ToRead;
    if e.gave.Gives? {
      if p.ModifyRequest? {
        EnterModifyRequestAt(c, log', p.next + 1, e.gave.flow, e.gave.reader);
      } else {
        EnterModifyResponseAt(c, log', p.next + 1, e.gave.flow, e.gave.reader);
      }
    }
  }

  lemma NextUpstream(c: Config, log: Log, p: Point, e: Event)
    requires AtPoint(c, log, p) && EventAt(c, log, p) == Some(e) && (p.Dial? || p.Contact?)
    ensures AtPoint(c, log + [e], Next(c, log + [e], p, e))
  {
    LogAppend(c, log, e);
    var log' := log + [e];
    assert log'[|log'| - 1] == e;
    hide LeftFlow;
    hide LeftReader;
    hide AnswerIn;
    hide HeadOf;
    hide EnterResponseHeaders;
    hide ReplyLog;
    hide Unreadable;
    if p.Dial? {
      if c.w.dial(log') == ProxyAuthRequired {
        ReplyBegins(c, log', [WroteHeader(407), Wrote([10])]);
      } else if c.w.dial(log') == DialFailed {
        ReplyBegins(c, log', [WroteHeader(502)]);
      }
    } else if e.answer.Some? {
      EnterResponseHeadersAt(c, log', 0, LeftFlow(c, log'), e.answer.value);
    } else {
      ReplyBegins(c, log', [WroteHeader(502)]);
    }
  }

  lemma NextReplying(c: Config, log: Log, p: Point, e: Event)
    requires AtPoint(c, log, p) && EventAt(c, log, p) == Some(e) && (p.Replying? || p.Crashed?)
    ensures AtPoint(c, log + [e], Next(c, log + [e], p, e))
  {
    LogAppend(c, log, e);
    assert (log + [e])[|log|] == e;
    if p.Replying? && p.rest != [] {
      var head := HeadOf(log);
      DueShape(c, head);
      OneMore(log[|head|..], p.rest, e);
      assert p.rest[0] == Due(c, head).value[|log| - |head|];
      assert (log + [e])[|head|..] == log[|head|..] + [e];
    }
    hide Due;
    hide Panicking;
    hide HeadOf;
  }

  lemma StartAt(c: Config)
    ensures AtPoint(c, [], EnterHeaders(c, 0, c.Start()))
  {
    EnterHeadersAt(c, [], 0, c.Start());
  }

  lemma {:induction false} RunAtPoint(c: Config, log: Log)
    requires PointOf(c, log).Some?
    ensures AtPoint(c, log, PointOf(c, log).value)
  {
    hide AtPoint;
    hide ExchangeOrder.Sound;
    hide Next;
    hide EventAt;
    hide EnterHeaders;
    if log == [] {
      StartAt(c);
    } else {
      var before, e := log[..|log| - 1], log[|log| - 1];
      var p := PointOf(c, before).value;
      RunAtPoint(c, before);
      ExchangeOrder.RunIsSound(c, before);
      ExchangeOrder.OverIsLast(c, before);
      assert log == before + [e];
      if p.Replying? || p.Crashed? {
        NextReplying(c, before, p, e);
      } else if p.ReadRequest? || p.ReadResponse? {
        NextRead(c, before, p, e);
      } else if p.Headers? || p.Requests? || p.ResponseHeaders? || p.Responses? {
        NextHook(c, before, p, e);
      } else if p.ModifyRequest? || p.ModifyResponse? {
        NextModify(c, before, p, e);
      } else {
        NextUpstream(c, before, p, e);
      }
    }
  }

  // ----- runs

  /** Every event follows from those before it. */
  ghost predicate Lawful(c: Config, log: Log) { forall k :: 0 <= k < |log| ==> Follows(c, log[..k], log[k]) }

  lemma LawfulPrefix(c: Config, log: Log)
    requires log != []
    ensures
      Lawful(c, log) <==> Lawful(c, log[..|log| - 1]) && Follows(c, log[..|log| - 1], log[|log| - 1])
  {
    hide Follows;
    var before := log[..|log| - 1];
    assert forall k :: 0 <= k < |before| ==> before[..k] == log[..k] && before[k] == log[k];
  }

  /** A log is what happens exactly when each of its events follows from those before it. */
  lemma {:induction false} RunsExactly(c: Config, log: Log)
    ensures PointOf(c, log).Some? <==> Lawful(c, log)
  {
    hide Lawful;
    hide Follows;
    hide AtPoint;
    hide EventAt;
    hide Next;
    hide EnterHeaders;
    if log == [] {
      assert Lawful(c, log) by { EmptyLawful(c); }
    } else {
      var before, e := log[..|log| - 1], log[|log| - 1];
      RunsExactly(c, before);
      LawfulPrefix(c, log);
      if PointOf(c, before).Some? {
        var p := PointOf(c, before).value;
        RunAtPoint(c, before);
        if EventAt(c, before, p) == Some(e) {
          PointFollows(c, before, p, e);
        }
        if Follows(c, before, e) {
          FollowsPoint(c, before, p, e);
        }
      }
    }
  }

  lemma EmptyLawful(c: Config)
    ensures Lawful(c, [])
  {
  }

  lemma FinishedIsOver(c: Config, log: Log, p: Point, e: Event)
    requires ExchangeOrder.Sound(c, p) && EventAt(c, log, p) == Some(e)
    ensures e == Finished <==> Next(c, log + [e], p, e) == Over
  {
    hide Buffer;
    hide ReplyLog;
  }

  /** A whole exchange is such a log that ends with Finished, and in it attack panicked exactly when there was a cause,
      or when the last event before the end is a header whose code is none. */
  lemma WholeExactly(c: Config, log: Log)
    ensures Complete(c, log) <==> Lawful(c, log) && log != [] && log[|log| - 1] == Finished
    ensures
      Complete(c, log) ==>
        var done := log[..|log| - 1];
        PanickedIn(c, log) <==>
        Panicking(c, done) ||
        (done != [] && done[|done| - 1].WroteHeader? && !(100 <= done[|done| - 1].code <= 999))
  {
    RunsExactly(c, log);
    hide Lawful;
    hide EnterHeaders;
    if log == [] {
      ExchangeOrder.RunIsSound(c, log);
      StartNotOver(c);
    } else if PointOf(c, log).Some? {
      var done, e := log[..|log| - 1], log[|log| - 1];
      var p := PointOf(c, done).value;
      ExchangeOrder.RunIsSound(c, done);
      FinishedIsOver(c, done, p, e);
      assert log == done + [e];
      RunAtPoint(c, done);
      hide Next;
      hide EventAt;
      CrashedIsPanicking(c, done, p);
    }
  }

  lemma StartNotOver(c: Config)
    ensures EnterHeaders(c, 0, c.Start()) != Over
  {
    hide Buffer;
  }

  lemma CrashedIsPanicking(c: Config, log: Log, p: Point)
    requires AtPoint(c, log, p)
    ensures p == Crashed <==> Panicking(c, log)
  {
    if p.Replying? {
      ReplyNoPanic(c, log, p);
    } else if !p.Crashed? {
      NothingDue(c, log, p);
    }
    hide Panicking;
  }

  lemma ReplyNoPanic(c: Config, log: Log, p: Point)
    requires AtPoint(c, log, p) && p.Replying?
    ensures !Panicking(c, log)
  {
    HeadStops(log);
    hide LeftFlow;
    hide HeadOf;
    hide Due;
  }

  /** The server is sent just what the last of the request modifiers gave, dialled or not, and without addons the body
      as it was read; and the flow is then as that left it. */
  lemma SentIsLastGiven(c: Config, log: Log, k: nat)
    requires PointOf(c, log).Some? && k < |log| && log[k].Contacted?
    ensures
      var j: int := if k > 0 && log[k - 1].Dialled? then k - 2 else k - 1;
      j >= 0 &&
      if c.addons > 0 then
        log[j].Modified? && log[j].request && log[j].addon == c.addons - 1 &&
        log[j].gave == Gives(LeftFlow(c, log[..k]), log[k].sent)
      else
        IsRead(log[j], true) &&
        log[k].sent == Some(if log[j].streamed then c.sent else Stream(InMemoryBytes(c, c.sent.data), false)) &&
        LeftFlow(c, log[..k]) == FlowAfter(c, log[..j], log[j], log[j].before)
  {
    RunsExactly(c, log);
    assert Follows(c, log[..k], log[k]);
    var before := log[..k];
    if k > 0 && log[k - 1].Dialled? {
      assert Follows(c, log[..k - 1], log[k - 1]);
      assert before == log[..k - 1] + [log[k - 1]];
      LogAppend(c, log[..k - 1], log[k - 1]);
      LastGiven(c, log[..k - 1]);
      assert log[..k - 1][..k - 2] == log[..k - 2] && log[..k - 1][k - 2] == log[k - 2];
    } else {
      LastGiven(c, before);
      assert before[..k - 1] == log[..k - 1];
    }
    hide Lawful;
    hide LeftFlow;
    hide LeftReader;
  }

  lemma LastGiven(c: Config, log: Log)
    requires ModifyTurn(c, log, true, c.addons)
    ensures log != []
    ensures
      var before, e := log[..|log| - 1], log[|log| - 1];
      if c.addons > 0 then
        e.Modified? && e.request && e.addon == c.addons - 1 && e.gave == Gives(LeftFlow(c, log), LeftReader(c, log))
      else
        IsRead(e, true) && LeftFlow(c, log) == FlowAfter(c, before, e, e.before) &&
        LeftReader(c, log) == Some(if e.streamed then c.sent else Stream(InMemoryBytes(c, c.sent.data), false))
  {
  }
}
