/** The calls of the addons in a run of the exchange machine (proxy/attacker.go, attack): a first part of the plan,
    and the whole plan when nothing ends the exchange early. */
module ExchangePlan {
  import opened Wrappers
  import opened BodyBuffer
  import opened ExchangeLog
  import opened ExchangeRun
  import opened ExchangeOrder
  import opened ExchangeCalls
  import ExchangeEnds

  type CallList = seq<(nat, nat)>

  function HooksOf(phase: nat, n: nat, streamed: bool): CallList { if streamed then [] else Row(phase, n) }

  /** The calls before a point where no reply has begun. */
  function CallsAt(n: nat, s1: bool, s2: bool, p: Point): CallList {
    var headers, answered := Row(REQUESTHEADERS, n), RequestPlan(n, s1) + Row(RESPONSEHEADERS, n);
    match p
    case Headers(i, _) => Row(REQUESTHEADERS, i)
    case ReadRequest(_) => headers
    case Requests(i, _) => headers + Row(REQUEST, i)
    case ModifyRequest(i, _, _) => headers + HooksOf(REQUEST, n, s1) + Row(MODIFY_REQUEST, i)
    case Dial(_, _) => RequestPlan(n, s1)
    case Contact(_, _) => RequestPlan(n, s1)
    case ResponseHeaders(i, _, _) => RequestPlan(n, s1) + Row(RESPONSEHEADERS, i)
    case ReadResponse(_, _) => answered
    case Responses(i, _) => answered + Row(RESPONSE, i)
    case ModifyResponse(i, _, _) => answered + HooksOf(RESPONSE, n, s2) + Row(MODIFY_RESPONSE, i)
    case _ => []
  }

  /** What the calls made so far are at a point; `read`: the response body has been read. */
  predicate CallsOk(n: nat, calls: CallList, s1: bool, s2: bool, read: bool, p: Point) {
    calls <= Plan(n, s1, s2) &&
    match p
    case Replying(_) => read ==> calls == Plan(n, s1, s2)
    case Crashed => true
    case Over => true
    case _ => calls == CallsAt(n, s1, s2, p)
  }

  // ----- sequences of calls

  lemma RowMore(before: CallList, phase: nat, i: nat)
    ensures before + Row(phase, i) + [(phase, i)] == before + Row(phase, i + 1)
    ensures [] + Row(phase, i) == Row(phase, i)
  {
  }

  lemma RowZero(before: CallList, phase: nat)
    ensures before + Row(phase, 0) == before
  {
  }

  lemma RowPart(before: CallList, phase: nat, i: nat, n: nat, rest: CallList)
    requires i <= n
    ensures before + Row(phase, i) <= before + Row(phase, n) <= before + Row(phase, n) + rest
  {
  }

  /** The plan, cut at each of its rows. */
  lemma PlanParts(n: nat, s1: bool, s2: bool)
    ensures
      var headers, answered := Row(REQUESTHEADERS, n), RequestPlan(n, s1) + Row(RESPONSEHEADERS, n);
      headers <= RequestPlan(n, s1) && headers + HooksOf(REQUEST, n, s1) <= RequestPlan(n, s1) &&
      RequestPlan(n, s1) == headers + HooksOf(REQUEST, n, s1) + Row(MODIFY_REQUEST, n) &&
      RequestPlan(n, s1) <= answered <= answered + HooksOf(RESPONSE, n, s2) <= Plan(n, s1, s2) &&
      Plan(n, s1, s2) == answered + HooksOf(RESPONSE, n, s2) + Row(MODIFY_RESPONSE, n)
  {
    hide Row;
    var a, h, m := Row(RESPONSEHEADERS, n), HooksOf(RESPONSE, n, s2), Row(MODIFY_RESPONSE, n);
    assert RequestPlan(n, s1) + (a + h + m) == RequestPlan(n, s1) + a + h + m;
  }

  // ----- entering a phase

  lemma HeadersOk(c: Config, calls: CallList, s2: bool, i: nat, f: Flow)
    requires i <= c.addons && calls == Row(REQUESTHEADERS, i)
    ensures CallsOk(c.addons, calls, false, s2, false, EnterHeaders(c, i, f))
  {
    hide Buffer;
    PlanParts(c.addons, false, s2);
    RowPart([], REQUESTHEADERS, i, c.addons, []);
    hide Row;
    hide RequestPlan;
    hide Plan;
    assert [] + Row(REQUESTHEADERS, i) == Row(REQUESTHEADERS, i);
    assert [] + Row(REQUESTHEADERS, c.addons) == Row(REQUESTHEADERS, c.addons);
  }

  lemma RequestsOk(c: Config, log: Log, calls: CallList, s2: bool, i: nat, f: Flow)
    requires i <= c.addons && calls == Row(REQUESTHEADERS, c.addons) + Row(REQUEST, i)
    ensures CallsOk(c.addons, calls, false, s2, false, EnterRequests(c, log, i, f))
  {
    PlanParts(c.addons, false, s2);
    RowPart(Row(REQUESTHEADERS, c.addons), REQUEST, i, c.addons, []);
    var hooked := Row(REQUESTHEADERS, c.addons) + Row(REQUEST, c.addons);
    assert hooked + [] == hooked;
    hide Row;
    hide RequestPlan;
    hide Plan;
    if i == c.addons {
      RowZero(calls, MODIFY_REQUEST);
      var r := Some(Stream(if f.request.body.Some? then f.request.body.value else [], false));
      ModifyRequestOk(c, log, calls, false, s2, 0, f, r);
    }
    hide EnterModifyRequest;
  }

  lemma ModifyRequestOk(c: Config, log: Log, calls: CallList, s1: bool, s2: bool, i: nat, f: Flow, r: Option<Stream>)
    requires i <= c.addons
    requires
      calls == Row(REQUESTHEADERS, c.addons) + HooksOf(REQUEST, c.addons, s1) + Row(MODIFY_REQUEST, i)
    ensures CallsOk(c.addons, calls, s1, s2, false, EnterModifyRequest(c, log, i, f, r))
  {
    PlanParts(c.addons, s1, s2);
    RowPart(Row(REQUESTHEADERS, c.addons) + HooksOf(REQUEST, c.addons, s1), MODIFY_REQUEST, i, c.addons, []);
    hide Row;
    hide RequestPlan;
    hide Plan;
    hide HooksOf;
    assert calls <= RequestPlan(c.addons, s1);
  }

  lemma ResponseHeadersOk(c: Config, calls: CallList, s1: bool, s2: bool, i: nat, f: Flow, a: ServerResponse)
    requires i <= c.addons && calls == RequestPlan(c.addons, s1) + Row(RESPONSEHEADERS, i)
    ensures CallsOk(c.addons, calls, s1, s2, false, EnterResponseHeaders(c, i, f, a))
  {
    hide Buffer;
    PlanParts(c.addons, s1, s2);
    RowPart(RequestPlan(c.addons, s1), RESPONSEHEADERS, i, c.addons, []);
    hide Row;
    hide RequestPlan;
    hide Plan;
    hide HooksOf;
  }

  lemma ResponsesOk(c: Config, calls: CallList, s1: bool, i: nat, f: Flow)
    requires i <= c.addons
    requires calls == RequestPlan(c.addons, s1) + Row(RESPONSEHEADERS, c.addons) + Row(RESPONSE, i)
    ensures CallsOk(c.addons, calls, s1, false, true, EnterResponses(c, i, f))
  {
    PlanParts(c.addons, s1, false);
    var answered := RequestPlan(c.addons, s1) + Row(RESPONSEHEADERS, c.addons);
    RowPart(answered, RESPONSE, i, c.addons, []);
    assert answered + Row(RESPONSE, c.addons) + [] == answered + Row(RESPONSE, c.addons);
    hide Row;
    hide RequestPlan;
    hide Plan;
    if i == c.addons {
      RowZero(calls, MODIFY_RESPONSE);
      ModifyResponseOk(c, calls, s1, false, 0, f, None);
    }
    hide EnterModifyResponse;
  }

  lemma ModifyResponseOk(c: Config, calls: CallList, s1: bool, s2: bool, i: nat, f: Flow, r: Option<Stream>)
    requires i <= c.addons
    requires
      calls ==
      RequestPlan(c.addons, s1) + Row(RESPONSEHEADERS, c.addons) + HooksOf(RESPONSE, c.addons, s2) +
      Row(MODIFY_RESPONSE, i)
    ensures CallsOk(c.addons, calls, s1, s2, true, EnterModifyResponse(c, i, f, r))
  {
    PlanParts(c.addons, s1, s2);
    var before := RequestPlan(c.addons, s1) + Row(RESPONSEHEADERS, c.addons) + HooksOf(RESPONSE, c.addons, s2);
    RowPart(before, MODIFY_RESPONSE, i, c.addons, []);
    hide Row;
    hide RequestPlan;
    hide Plan;
    hide HooksOf;
    hide ReplyLog;
  }

  // ----- one step

  /** The part of a plan stays one when more calls of its row are made and the exchange then ends. */
  lemma EndOk(n: nat, calls: CallList, s1: bool, s2: bool, read: bool, q: Point)
    requires calls <= Plan(n, s1, s2) && (q.Crashed? || q.Over? || (q.Replying? && !read))
    ensures CallsOk(n, calls, s1, s2, read, q)
  {
  }

  predicate CallsInv(c: Config, log: Log, p: Point) {
    var requestRead, responseRead := LastRead(log, true), LastRead(log, false);
    CallsOk(c.addons, Calls(log), Streams(requestRead), Streams(responseRead), responseRead.Some?, p)
  }

  lemma CallsAppend(log: Log, e: Event)
    ensures Calls(log + [e]) == CallsAdd(Calls(log), e)
  {
    assert (log + [e])[..|log|] == log;
  }

  /** A call of an addon: its row grows and stays part of what goes before a longer list `all`. */
  lemma RowGrows(before: CallList, phase: nat, i: nat, n: nat, calls: CallList, all: CallList)
    requires i < n && calls == before + Row(phase, i) && before + Row(phase, n) <= all
    ensures calls + [(phase, i)] == before + Row(phase, i + 1) && calls + [(phase, i)] <= all
  {
    RowMore(before, phase, i);
    RowPart(before, phase, i + 1, n, []);
  }

  /** What the call of a hook is and leads to. */
  lemma HookNext(c: Config, log: Log, p: Point, e: Event, calls: CallList)
    requires EventAt(c, log, p) == Some(e) && (p.Headers? || p.Requests? || p.ResponseHeaders? || p.Responses?)
    ensures e.Called? && CallsAdd(calls, e) == calls + [(PointPhase(p), p.next)]
    ensures
      var q := Next(c, log + [e], p, e);
      q.Crashed? || (q.Replying? && !p.Responses?) ||
      (e.effect.Leaves? &&
       q == match p
            case Headers(i, _) => EnterHeaders(c, i + 1, e.effect.flow)
            case Requests(i, _) => EnterRequests(c, log + [e], i + 1, e.effect.flow)
            case ResponseHeaders(i, _, a) => EnterResponseHeaders(c, i + 1, e.effect.flow, a)
            case _ => EnterResponses(c, p.next + 1, e.effect.flow))
  {
    hide EnterHeaders;
    hide EnterRequests;
    hide EnterResponseHeaders;
    hide EnterResponses;
    hide EnterModifyRequest;
    hide EnterModifyResponse;
    hide ReplyLog;
  }

  lemma EmptyFirst(s: CallList)
    ensures [] + s == s
  {
  }

  lemma PrefixTrans(a: CallList, b: CallList, all: CallList)
    requires a <= b <= all
    ensures a <= all
  {
  }

  /** The same for the first row of the plan. */
  lemma FirstRowGrows(i: nat, n: nat, s2: bool, calls: CallList)
    requires i < n && calls == Row(REQUESTHEADERS, i)
    ensures calls + [(REQUESTHEADERS, i)] == Row(REQUESTHEADERS, i + 1)
    ensures calls + [(REQUESTHEADERS, i)] <= Plan(n, false, s2)
  {
    hide Row;
    hide Plan;
    hide RequestPlan;
    hide HooksOf;
    PlanParts(n, false, s2);
    PrefixTrans(Row(REQUESTHEADERS, n), RequestPlan(n, false), RequestPlan(n, false) + Row(RESPONSEHEADERS, n));
    PrefixTrans(Row(REQUESTHEADERS, n), RequestPlan(n, false) + Row(RESPONSEHEADERS, n), Plan(n, false, s2));
    EmptyFirst(Row(REQUESTHEADERS, i));
    EmptyFirst(Row(REQUESTHEADERS, n));
    EmptyFirst(Row(REQUESTHEADERS, i + 1));
    RowGrows([], REQUESTHEADERS, i, n, calls, Plan(n, false, s2));
  }

  lemma NextHeaders(c: Config, log: Log, p: Point, e: Event, s2: bool)
    requires Sound(c, p) && EventAt(c, log, p) == Some(e) && p.Headers?
    requires CallsOk(c.addons, Calls(log), false, s2, false, p)
    ensures CallsOk(c.addons, CallsAdd(Calls(log), e), false, s2, false, Next(c, log + [e], p, e))
  {
    hide Row;
    hide RequestPlan;
    hide Plan;
    hide Next;
    hide EventAt;
    hide CallsAdd;
    hide EnterHeaders;
    hide ReplyLog;
    var n, calls := c.addons, CallsAdd(Calls(log), e);
    HookNext(c, log, p, e, Calls(log));
    FirstRowGrows(p.next, n, s2, Calls(log));
    var q := Next(c, log + [e], p, e);
    if !(q.Crashed? || q.Replying?) {
      HeadersOk(c, calls, s2, p.next + 1, e.effect.flow);
    } else {
      EndOk(n, calls, false, s2, false, q);
    }
  }

  lemma NextRequests(c: Config, log: Log, p: Point, e: Event, s2: bool)
    requires Sound(c, p) && EventAt(c, log, p) == Some(e) && p.Requests?
    requires CallsOk(c.addons, Calls(log), false, s2, false, p)
    ensures CallsOk(c.addons, CallsAdd(Calls(log), e), false, s2, false, Next(c, log + [e], p, e))
  {
    hide Row;
    hide RequestPlan;
    hide Plan;
    hide Next;
    hide EventAt;
    hide CallsAdd;
    hide EnterRequests;
    hide ReplyLog;
    var n, calls := c.addons, CallsAdd(Calls(log), e);
    HookNext(c, log, p, e, Calls(log));
    PlanParts(n, false, s2);
    RowGrows(Row(REQUESTHEADERS, n), REQUEST, p.next, n, Calls(log), Plan(n, false, s2));
    var q := Next(c, log + [e], p, e);
    if !(q.Crashed? || q.Replying?) {
      RequestsOk(c, log + [e], calls, s2, p.next + 1, e.effect.flow);
    } else {
      EndOk(n, calls, false, s2, false, q);
    }
  }

  lemma NextModifyRequest(c: Config, log: Log, p: Point, e: Event, s1: bool, s2: bool)
    requires Sound(c, p) && EventAt(c, log, p) == Some(e) && p.ModifyRequest?
    requires CallsOk(c.addons, Calls(log), s1, s2, false, p)
    ensures CallsOk(c.addons, CallsAdd(Calls(log), e), s1, s2, false, Next(c, log + [e], p, e))
  {
    hide Row;
    hide RequestPlan;
    hide Plan;
    hide HooksOf;
    hide EnterModifyRequest;
    var n, calls := c.addons, CallsAdd(Calls(log), e);
    PlanParts(n, s1, s2);
    var before := Row(REQUESTHEADERS, n) + HooksOf(REQUEST, n, s1);
    RowGrows(before, MODIFY_REQUEST, p.next, n, Calls(log), Plan(n, s1, s2));
    if e.gave.Gives? {
      ModifyRequestOk(c, log + [e], calls, s1, s2, p.next + 1, e.gave.flow, e.gave.reader);
    } else {
      EndOk(n, calls, s1, s2, false, Next(c, log + [e], p, e));
    }
  }

  lemma NextResponseHeaders(c: Config, log: Log, p: Point, e: Event, s1: bool, s2: bool)
    requires Sound(c, p) && EventAt(c, log, p) == Some(e) && p.ResponseHeaders?
    requires CallsOk(c.addons, Calls(log), s1, s2, false, p)
    ensures CallsOk(c.addons, CallsAdd(Calls(log), e), s1, s2, false, Next(c, log + [e], p, e))
  {
    hide Row;
    hide RequestPlan;
    hide Plan;
    hide HooksOf;
    hide Next;
    hide EventAt;
    hide CallsAdd;
    hide EnterResponseHeaders;
    hide ReplyLog;
    var n, calls := c.addons, CallsAdd(Calls(log), e);
    HookNext(c, log, p, e, Calls(log));
    PlanParts(n, s1, s2);
    RowGrows(RequestPlan(n, s1), RESPONSEHEADERS, p.next, n, Calls(log), Plan(n, s1, s2));
    var q := Next(c, log + [e], p, e);
    if !(q.Crashed? || q.Replying?) {
      ResponseHeadersOk(c, calls, s1, s2, p.next + 1, e.effect.flow, p.answer);
    } else {
      EndOk(n, calls, s1, s2, false, q);
    }
  }

  lemma NextResponses(c: Config, log: Log, p: Point, e: Event, s1: bool)
    requires Sound(c, p) && EventAt(c, log, p) == Some(e) && p.Responses?
    requires CallsOk(c.addons, Calls(log), s1, false, true, p)
    ensures CallsOk(c.addons, CallsAdd(Calls(log), e), s1, false, true, Next(c, log + [e], p, e))
  {
    hide Row;
    hide RequestPlan;
    hide Plan;
    hide Next;
    hide EventAt;
    hide CallsAdd;
    hide EnterResponses;
    var n, calls := c.addons, CallsAdd(Calls(log), e);
    HookNext(c, log, p, e, Calls(log));
    PlanParts(n, s1, false);
    RowGrows(RequestPlan(n, s1) + Row(RESPONSEHEADERS, n), RESPONSE, p.next, n, Calls(log), Plan(n, s1, false));
    var q := Next(c, log + [e], p, e);
    if !q.Crashed? {
      ResponsesOk(c, calls, s1, p.next + 1, e.effect.flow);
    } else {
      EndOk(n, calls, s1, false, true, q);
    }
  }

  lemma NextModifyResponse(c: Config, log: Log, p: Point, e: Event, s1: bool, s2: bool)
    requires Sound(c, p) && EventAt(c, log, p) == Some(e) && p.ModifyResponse?
    requires CallsOk(c.addons, Calls(log), s1, s2, true, p)
    ensures CallsOk(c.addons, CallsAdd(Calls(log), e), s1, s2, true, Next(c, log + [e], p, e))
  {
    hide Row;
    hide RequestPlan;
    hide Plan;
    hide HooksOf;
    hide EnterModifyResponse;
    var n, calls := c.addons, CallsAdd(Calls(log), e);
    PlanParts(n, s1, s2);
    var before := RequestPlan(n, s1) + Row(RESPONSEHEADERS, n) + HooksOf(RESPONSE, n, s2);
    RowGrows(before, MODIFY_RESPONSE, p.next, n, Calls(log), Plan(n, s1, s2));
    if e.gave.Gives? {
      ModifyResponseOk(c, calls, s1, s2, p.next + 1, e.gave.flow, e.gave.reader);
    } else {
      EndOk(n, calls, s1, s2, true, Next(c, log + [e], p, e));
    }
  }

  /** The steps that call no addon. */
  lemma NextReadRequest(c: Config, log: Log, p: Point, e: Event, s1: bool, s2: bool)
    requires EventAt(c, log, p) == Some(e) && p.ReadRequest? && s1 == (e.BodyRead? && e.streamed)
    requires Calls(log) == Row(REQUESTHEADERS, c.addons)
    ensures CallsOk(c.addons, Calls(log), s1, s2, false, Next(c, log + [e], p, e))
  {
    var headers := Row(REQUESTHEADERS, c.addons);
    RowZero(headers + HooksOf(REQUEST, c.addons, s1), MODIFY_REQUEST);
    RowZero(headers, REQUEST);
    assert headers + [] == headers;
    var f := p.flow;
    if s1 {
      ModifyRequestOk(c, log + [e], headers, s1, s2, 0, f.(stream := true), Some(c.sent));
    } else {
      RequestsOk(c, log + [e], headers, s2, 0,
                 f.(request := f.request.(body := Some(MemoryBody(Kept(c, c.sent, c.together))))));
    }
    hide Row;
    hide Buffer;
    hide EnterModifyRequest;
    hide EnterRequests;
    hide CallsOk;
  }

  lemma NextReadResponse(c: Config, log: Log, p: Point, e: Event, s1: bool, s2: bool)
    requires EventAt(c, log, p) == Some(e) && p.ReadResponse? && s2 == (e.BodyRead? && e.streamed)
    requires Calls(log) == RequestPlan(c.addons, s1) + Row(RESPONSEHEADERS, c.addons)
    ensures CallsOk(c.addons, Calls(log), s1, s2, true, Next(c, log + [e], p, e))
  {
    var answered, a := RequestPlan(c.addons, s1) + Row(RESPONSEHEADERS, c.addons), p.answer;
    hide RequestPlan;
    RowZero(answered + HooksOf(RESPONSE, c.addons, s2), MODIFY_RESPONSE);
    RowZero(answered, RESPONSE);
    assert answered + [] == answered;
    if s2 {
      ModifyResponseOk(c, answered, s1, s2, 0, p.flow.(stream := true), Some(a.body));
    } else {
      ResponsesOk(c, answered, s1, 0, WithBody(p.flow, MemoryBody(Kept(c, a.body, a.together))));
    }
    hide Row;
    hide Buffer;
    hide EnterModifyResponse;
    hide EnterResponses;
    hide CallsOk;
  }

  lemma NextUpstream(c: Config, log: Log, p: Point, e: Event, s1: bool, s2: bool)
    requires EventAt(c, log, p) == Some(e) && (p.Dial? || p.Contact?)
    requires CallsOk(c.addons, Calls(log), s1, s2, false, p)
    ensures CallsOk(c.addons, Calls(log), s1, s2, false, Next(c, log + [e], p, e))
  {
    RowZero(RequestPlan(c.addons, s1), RESPONSEHEADERS);
    hide Row;
    hide RequestPlan;
    hide Plan;
    hide EnterResponseHeaders;
    if p.Contact? && e.answer.Some? {
      var a, f := e.answer.value, p.flow;
      var answered := f.(response := Some(FlowResponse(a.statusCode, None, None, a.close)));
      ResponseHeadersOk(c, Calls(log), s1, s2, 0, answered, a);
    }
  }

  lemma NextReply(c: Config, log: Log, p: Point, e: Event, s1: bool, s2: bool, read: bool)
    requires Sound(c, p) && EventAt(c, log, p) == Some(e) && (p.Replying? || p.Crashed?)
    requires CallsOk(c.addons, Calls(log), s1, s2, read, p)
    ensures CallsAdd(Calls(log), e) == Calls(log)
    ensures CallsOk(c.addons, Calls(log), s1, s2, read, Next(c, log + [e], p, e))
  {
  }

  lemma NextCalls(c: Config, log: Log, p: Point)
    requires Sound(c, p) && ReadsInv(c, log, p) && CallsInv(c, log, p) && EventAt(c, log, p).Some?
    ensures
      var e := EventAt(c, log, p).value;
      CallsInv(c, log + [e], Next(c, log + [e], p, e))
  {
    var e := EventAt(c, log, p).value;
    ReadAppend(log, e, true);
    ReadAppend(log, e, false);
    CallsAppend(log, e);
    var s1, s2, read := Streams(LastRead(log, true)), Streams(LastRead(log, false)), LastRead(log, false).Some?;
    var q := Next(c, log + [e], p, e);
    NextFlags(c, log, p, e);
    match p {
      case Headers(_, _) => NextHeaders(c, log, p, e, s2);
      case ReadRequest(_) => NextReadRequest(c, log, p, e, Streams(Some(e)), s2);
      case Requests(_, _) => NextRequests(c, log, p, e, s2);
      case ModifyRequest(_, _, _) => NextModifyRequest(c, log, p, e, s1, s2);
      case Dial(_, _) => NextUpstream(c, log, p, e, s1, s2);
      case Contact(_, _) => NextUpstream(c, log, p, e, s1, s2);
      case ResponseHeaders(_, _, _) => NextResponseHeaders(c, log, p, e, s1, s2);
      case ReadResponse(_, _) => NextReadResponse(c, log, p, e, s1, Streams(Some(e)));
      case Responses(_, _) => NextResponses(c, log, p, e, s1);
      case ModifyResponse(_, _, _) => NextModifyResponse(c, log, p, e, s1, s2);
      case Replying(_) => NextReply(c, log, p, e, s1, s2, read);
      case Crashed => NextReply(c, log, p, e, s1, s2, read);
    }
  }

  /** What is known about the readings at a point. */
  lemma NextFlags(c: Config, log: Log, p: Point, e: Event)
    requires Sound(c, p) && ReadsInv(c, log, p) && EventAt(c, log, p) == Some(e)
    ensures p.Headers? || p.Requests? ==> !Streams(LastRead(log, true))
    ensures PointPhase(p) <= READ_RESPONSE ==> LastRead(log, false).None?
    ensures p.Responses? ==> !Streams(LastRead(log, false)) && LastRead(log, false).Some?
    ensures p.ModifyResponse? ==> LastRead(log, false).Some?
    ensures IsRead(e, true) <==> p.ReadRequest?
    ensures IsRead(e, false) <==> p.ReadResponse?
    ensures p.ReadRequest? || p.Dial? || p.Contact? || p.ReadResponse? ==> CallsAdd(Calls(log), e) == Calls(log)
  {
    hide LastRead;
    hide HooksKept;
  }

  lemma StartCalls(c: Config)
    ensures CallsInv(c, [], EnterHeaders(c, 0, c.Start()))
  {
    HeadersOk(c, [], false, 0, c.Start());
    hide EnterHeaders;
    hide CallsOk;
  }

  lemma {:induction false} RunCalls(c: Config, log: Log)
    requires PointOf(c, log).Some?
    ensures CallsInv(c, log, PointOf(c, log).value)
  {
    hide CallsInv;
    hide ReadsInv;
    hide Next;
    hide EventAt;
    hide Sound;
    hide EnterHeaders;
    if log == [] {
      StartCalls(c);
    } else {
      var before := log[..|log| - 1];
      RunCalls(c, before);
      RunIsSound(c, before);
      RunReads(c, before);
      OverIsLast(c, before);
      NextCalls(c, before, PointOf(c, before).value);
      assert log == before + [log[|log| - 1]];
    }
  }

  // ----- what every run guarantees

  /** Addons are called by the plan, phase by phase and each in its turn, and no further than it goes. */
  lemma CallsFollowPlan(c: Config, log: Log)
    requires PointOf(c, log).Some?
    ensures Calls(log) <= Plan(c.addons, Streams(LastRead(log, true)), Streams(LastRead(log, false)))
  {
    RunCalls(c, log);
    hide PointOf;
    hide Plan;
    hide CallsAt;
  }

  /** An exchange that has read the response body and has no cause for a panic has called all of the plan. */
  lemma WholePlanCalled(c: Config, log: Log)
    requires Complete(c, log) && LastRead(log, false).Some? && !ExchangeEnds.PanicCause(c, log[..|log| - 1])
    ensures Calls(log) == Plan(c.addons, Streams(LastRead(log, true)), Streams(LastRead(log, false)))
  {
    hide *;
    RunUptoLast(c, log);
    var done := log[..|log| - 1];
    ExchangeEnds.CompleteEnds(c, log);
    ExchangeEnds.CrashedExactly(c, done);
    RunCalls(c, done);
    RepliedCalls(c, done);
    assert log == done + [Finished];
    FinishedAdds(done);
  }

  lemma RunUptoLast(c: Config, log: Log)
    requires Complete(c, log)
    ensures log != [] && PointOf(c, log[..|log| - 1]).Some?
    ensures LastRead(log, false) == LastRead(log[..|log| - 1], false)
  {
    ExchangeEnds.CompleteEnds(c, log);
    assert log == log[..|log| - 1] + [Finished];
    FinishedAdds(log[..|log| - 1]);
  }

  lemma RepliedCalls(c: Config, log: Log)
    requires CallsInv(c, log, Replying([])) && LastRead(log, false).Some?
    ensures Calls(log) == Plan(c.addons, Streams(LastRead(log, true)), Streams(LastRead(log, false)))
  {
  }

  lemma FinishedAdds(log: Log)
    ensures Calls(log + [Finished]) == Calls(log)
    ensures LastRead(log + [Finished], true) == LastRead(log, true)
    ensures LastRead(log + [Finished], false) == LastRead(log, false)
  {
    CallsAppend(log, Finished);
    ReadAppend(log, Finished, true);
    ReadAppend(log, Finished, false);
  }

  /** Whenever a body was read, it was streamed exactly when the flow said so or it reaches the limit; a Request
      or Response hook was called only on a body below the limit, the first one on an unstreamed flow. */
  lemma BodiesDecideHooks(c: Config, log: Log)
    requires PointOf(c, log).Some?
    ensures Sized(LastRead(log, true), c.limit, |c.sent.data|)
    ensures
      LastRead(log, false).Some? ==>
        LastContact(log).Some? && LastContact(log).value.answer.Some? &&
        Sized(LastRead(log, false), c.limit, |LastContact(log).value.answer.value.body.data|)
    ensures
      forall k :: 0 <= k < |log| && HookOn(log[k], true) ==>
        !Large(c.limit, |c.sent.data|) && (log[k].addon == 0 ==> !log[k].before.stream)
    ensures
      forall k :: 0 <= k < |log| && HookOn(log[k], false) ==>
        LastContact(log).Some? && LastContact(log).value.answer.Some? &&
        !Large(c.limit, |LastContact(log).value.answer.value.body.data|) &&
        (log[k].addon == 0 ==> !log[k].before.stream)
  {
    RunReads(c, log);
    RunIsThreaded(c, log);
    hide PointOf;
    hide LastRead;
    hide LastContact;
    forall k, b | 0 <= k < |log| && HookOn(log[k], b)
      ensures InMemory(LastRead(log, b)) && (log[k].addon == 0 ==> !log[k].before.stream)
    {
      assert log[k] in log;
      assert Threads(c.Start(), Before(log, k), log[k]);
    }
  }

  lemma AfterAnswer(c: Config, log: Log, k: nat)
    requires PointOf(c, log).Some? && k < |log| && Answers(log[k])
    ensures Phase(log[k]) <= REQUEST && (k + 1 < |log| ==> Phase(log[k + 1]) == HEADER)
  {
    PrefixRuns(c, log, k);
    RunIsSound(c, log[..k]);
    AnswersReplies(c, log[..k], PointOf(c, log[..k]).value, log[k]);
    if k + 1 < |log| {
      var next := log[..k + 1];
      PrefixRuns(c, log, k + 1);
      assert next[..k] == log[..k] && next[k] == log[k];
      hide ReplyLog;
      hide Next;
    }
  }

  /** An addon's answer before the request goes upstream keeps it from going there. */
  lemma AnsweredStaysHome(c: Config, log: Log, k: nat)
    requires PointOf(c, log).Some? && k < |log| && Answers(log[k])
    ensures CountPhase(log, CONTACT) == 0 && CountPhase(log, DIAL) == 0
  {
    AfterAnswer(c, log, k);
    RunIsOrdered(c, log);
    hide PointOf;
    hide Answers;
    hide Phase;
    hide CountPhase;
    forall i | 0 <= i < |log| ensures Phase(log[i]) != CONTACT && Phase(log[i]) != DIAL {
      if i <= k {
        assert i < k ==> Phase(log[i]) <= Phase(log[k]);
      } else {
        assert i > k + 1 ==> Phase(log[k + 1]) <= Phase(log[i]);
      }
    }
    NoneOfPhase(log, CONTACT);
    NoneOfPhase(log, DIAL);
  }

  lemma AnswersReplies(c: Config, log: Log, p: Point, e: Event)
    requires EventAt(c, log, p) == Some(e) && Answers(e)
    requires Sound(c, p)
    ensures Phase(e) <= REQUEST
    ensures forall log' :: Next(c, log', p, e) == Replying(ReplyLog(e.effect.flow.response.value, None))
    ensures ReplyLog(e.effect.flow.response.value, None)[0] == WroteHeader(e.effect.flow.response.value.statusCode)
  {
  }

  lemma {:induction false} NoneOfPhase(log: Log, q: nat)
    requires forall i :: 0 <= i < |log| ==> Phase(log[i]) != q
    ensures CountPhase(log, q) == 0
  {
    if log != [] {
      NoneOfPhase(log[..|log| - 1], q);
    }
  }
}
