/** What can be said about one request through the proxy (proxy/attacker.go, attack and reply) from the log of
    its events: the calls of the addons, the reading of the bodies, the upstream exchange and the reply. */
module ExchangeLog {
  import opened Wrappers
  import opened BodyBuffer

  datatype FlowRequest = FlowRequest(host: string, scheme: string, body: Option<Bytes>)

  /** `bodyReader` is what an addon's BodyReader delivers. */
  datatype FlowResponse = FlowResponse(statusCode: int, body: Option<Bytes>, bodyReader: Option<Bytes>, close: bool)

  datatype Flow = Flow(request: FlowRequest, response: Option<FlowResponse>, stream: bool, separateClient: bool)

  datatype Hook = Requestheaders | Request | Responseheaders | Response

  /** A reader handed to a modifier or to the network: its bytes, and whether it fails after them. */
  datatype Stream = Stream(data: Bytes, fails: bool)

  datatype Event =
    | Called(hook: Hook, addon: nat, before: Flow, effect: Effect)
    // StreamRequestModifier or StreamResponseModifier
    | Modified(request: bool, addon: nat, before: Flow, given: Option<Stream>, gave: StreamEffect)
    // a body of `size` bytes was put into memory, or it is `streamed`
    | BodyRead(request: bool, before: Flow, size: nat, streamed: bool)
    | Dialled
    | Contacted(sent: Option<Stream>, answer: Option<ServerResponse>)  // client.Do
    | WroteHeader(code: int)
    | Wrote(data: Bytes)
    | Finished

  datatype Effect = Panics | Leaves(flow: Flow)

  datatype StreamEffect = StreamPanics | Gives(flow: Flow, reader: Option<Stream>)

  datatype DialResult = Connected | ProxyAuthRequired | DialFailed

  /** `together`: a failure of the body comes with its last bytes. */
  datatype ServerResponse = ServerResponse(statusCode: int, body: Stream, together: bool, close: bool)

  type Log = seq<Event>

  /** Everything outside the code. Each answer may depend on all that happened before. */
  datatype World = World(
    hook: (Log, Hook, nat, Flow) -> Effect,
    modifyStream: (Log, bool, nat, Flow, Option<Stream>) -> StreamEffect,
    requestBuilds: Log -> bool,
    hasServerConn: bool, hasDial: bool,
    dial: Log -> DialResult,
    roundTrip: (Log, Option<Stream>) -> Option<ServerResponse>)

  // ----- what a log can look like

  // the phases of an exchange
  const REQUESTHEADERS := 0
  const READ_REQUEST := 1
  const REQUEST := 2
  const MODIFY_REQUEST := 3
  const DIAL := 4
  const CONTACT := 5
  const RESPONSEHEADERS := 6
  const READ_RESPONSE := 7
  const RESPONSE := 8
  const MODIFY_RESPONSE := 9
  const HEADER := 10
  const WRITE := 11
  const FINISH := 12

  function Phase(e: Event): nat {
    match e
    case Called(Requestheaders, _, _, _) => REQUESTHEADERS
    case BodyRead(request, _, _, _) => if request then READ_REQUEST else READ_RESPONSE
    case Called(Request, _, _, _) => REQUEST
    case Modified(request, _, _, _, _) => if request then MODIFY_REQUEST else MODIFY_RESPONSE
    case Dialled => DIAL
    case Contacted(_, _) => CONTACT
    case Called(Responseheaders, _, _, _) => RESPONSEHEADERS
    case Called(Response, _, _, _) => RESPONSE
    case WroteHeader(_) => HEADER
    case Wrote(_) => WRITE
    case Finished => FINISH
  }

  /** Phases never go back. */
  ghost predicate Ordered(log: Log) { forall i, j :: 0 <= i < j < |log| ==> Phase(log[i]) <= Phase(log[j]) }

  function CountPhase(log: Log, phase: nat): nat {
    if log == [] then 0 else CountPhase(log[..|log| - 1], phase) + if Phase(log[|log| - 1]) == phase then 1 else 0
  }

  /** Everything written to the client, in order. */
  function Written(log: Log): Bytes {
    if log == [] then [] else
      Written(log[..|log| - 1]) + (if log[|log| - 1].Wrote? then log[|log| - 1].data else [])
  }

  /** Which addon was called for which phase, in order. */
  function Calls(log: Log): seq<(nat, nat)> {
    if log == [] then [] else CallsAdd(Calls(log[..|log| - 1]), log[|log| - 1])
  }

  function CallsAdd(calls: seq<(nat, nat)>, e: Event): seq<(nat, nat)> {
    if e.Called? || e.Modified? then calls + [(Phase(e), e.addon)] else calls
  }

  /** All addons, one after the other, for one phase. */
  function Row(phase: nat, n: nat): seq<(nat, nat)> { seq(n, i => (phase, i)) }

  /** All the calls of a request that is not ended early: without the Request hooks when the request is
      streamed, and without the Response hooks when the response is. */
  function Plan(addons: nat, requestStreamed: bool, responseStreamed: bool): seq<(nat, nat)> {
    RequestPlan(addons, requestStreamed) + AnswerPlan(addons, responseStreamed)
  }

  function RequestPlan(addons: nat, streamed: bool): seq<(nat, nat)> {
    Row(REQUESTHEADERS, addons) + (if streamed then [] else Row(REQUEST, addons)) + Row(MODIFY_REQUEST, addons)
  }

  function AnswerPlan(addons: nat, streamed: bool): seq<(nat, nat)> {
    Row(RESPONSEHEADERS, addons) + (if streamed then [] else Row(RESPONSE, addons)) + Row(MODIFY_RESPONSE, addons)
  }

  /** A body is streamed from the limit on. */
  predicate Large(limit: int, size: nat) { 0 <= limit <= size }

  /** The last reading of the request body, or of the response body. */
  function LastRead(log: Log, request: bool): (r: Option<Event>)
    ensures r.Some? ==> r.value.BodyRead? && r.value.request == request && r.value in log
  {
    if log == [] then None
    else if IsRead(log[|log| - 1], request) then Some(log[|log| - 1])
    else LastRead(log[..|log| - 1], request)
  }

  predicate IsRead(e: Event, request: bool) { e.BodyRead? && e.request == request }

  /** That reading, if any, was of a body of this size, streamed exactly when the flow said so or the body
      reaches the limit. */
  predicate Sized(r: Option<Event>, limit: int, size: nat) {
    r.Some? ==>
      r.value.BodyRead? && r.value.size == size && (r.value.streamed <==> r.value.before.stream || Large(limit, size))
  }

  predicate Streams(r: Option<Event>) { r.Some? && r.value.BodyRead? && r.value.streamed }

  predicate InMemory(r: Option<Event>) { r.Some? && r.value.BodyRead? && !r.value.streamed }

  predicate HookOn(e: Event, request: bool) { e.Called? && if request then e.hook.Request? else e.hook.Response? }

  /** The flow `f` is `g` with the body that was read. */
  predicate OnlyBody(f: Flow, g: Flow, request: bool) {
    if request then f == g.(request := g.request.(body := f.request.body))
    else f.response.Some? && g.response.Some? &&
         f == g.(response := Some(g.response.value.(body := f.response.value.body)))
  }

  /** What the first addon of a phase sees: the flow as it was made, the unstreamed flow whose body was read,
      or the flow with the header of the server's answer. */
  predicate FirstSees(start: Flow, h: Hook, prev: Option<Event>, before: Flow) {
    match h
    case Requestheaders => prev.None? && before == start
    case Responseheaders =>
      prev.Some? && prev.value.Contacted? && prev.value.answer.Some? &&
      var a := prev.value.answer.value;
      before.response == Some(FlowResponse(a.statusCode, None, None, a.close))
    case _ =>
      InMemory(prev) && prev.value.request == h.Request? && !before.stream &&
      OnlyBody(before, prev.value.before, h.Request?)
  }

  /** The flow after an event that has one. */
  function LeftBy(e: Event): Option<Flow> {
    match e
    case Called(_, _, _, Leaves(f)) => Some(f)
    case Modified(_, _, _, _, Gives(f, _)) => Some(f)
    case _ => None
  }

  /** How an event follows the one before it: addons are called in turn and see what the one before left, a body
      is read for that flow, the server gets what the last modifier gave, and the code written is that of the
      response that was left. */
  predicate Threads(start: Flow, prev: Option<Event>, e: Event) {
    match e
    case Called(h, i, before, _) =>
      if i == 0 then FirstSees(start, h, prev, before)
      else prev.Some? && prev.value.Called? && prev.value.hook == h && prev.value.addon == i - 1 &&
           prev.value.effect == Leaves(before)
    case Modified(request, i, before, given, _) =>
      if i == 0 then prev.Some? && prev.value.Called? ==> prev.value.effect == Leaves(before)
      else prev.Some? && prev.value.Modified? && prev.value.request == request && prev.value.addon == i - 1 &&
           prev.value.gave == Gives(before, given)
    case BodyRead(_, before, _, _) => prev.Some? && prev.value.Called? ==> prev.value.effect == Leaves(before)
    case Contacted(sent, _) =>
      prev.Some? && prev.value.Modified? ==> prev.value.gave.Gives? && prev.value.gave.reader == sent
    case WroteHeader(code) => RightCode(prev, code)
    case _ => true
  }

  predicate RightCode(prev: Option<Event>, code: int) {
    if prev.Some? && EndsExchange(prev.value) then
      LeftBy(prev.value).Some? && LeftBy(prev.value).value.response.Some? &&
      code == LeftBy(prev.value).value.response.value.statusCode
    else if prev.Some? && IsRead(prev.value, false) then
      prev.value.before.response.Some? && code == prev.value.before.response.value.statusCode
    else code == 502 || (code == 407 && prev.Some? && prev.value.Dialled?)
  }

  /** After these the response that was left is the reply: an addon that answered, a body given with the
      response headers, and the last response modifier. */
  predicate EndsExchange(e: Event) {
    match e
    case Called(Requestheaders, _, _, Leaves(f)) => f.response.Some?
    case Called(Request, _, _, _) => true
    case Called(Responseheaders, _, _, Leaves(f)) => f.response.Some? && f.response.value.body.Some?
    case Modified(false, _, _, _, _) => true
    case _ => false
  }

  function Before(log: Log, k: nat): Option<Event>
    requires k <= |log|
  {
    if k == 0 then None else Some(log[k - 1])
  }

  ghost predicate Threaded(start: Flow, log: Log) {
    forall k :: 0 <= k < |log| ==> Threads(start, Before(log, k), log[k])
  }

  /** An addon that left a response before the request went upstream. */
  predicate Answers(e: Event) {
    e.Called? && (e.hook.Requestheaders? || e.hook.Request?) && e.effect.Leaves? && e.effect.flow.response.Some?
  }

  /** The last exchange with a server. */
  function LastContact(log: Log): (r: Option<Event>)
    ensures r.Some? ==> r.value.Contacted? && r.value in log
  {
    if log == [] then None
    else if log[|log| - 1].Contacted? then Some(log[|log| - 1])
    else LastContact(log[..|log| - 1])
  }

  // ----- the reply

  predicate ValidCode(code: int) { 100 <= code <= 999 }

  function Piece(data: Option<Bytes>): Log { if data.Some? then [Wrote(data.value)] else [] }

  /** reply: WriteHeader panics on a code that is not one, otherwise the three bodies follow. */
  function ReplyLog(r: FlowResponse, body: Option<Stream>): Log {
    [WroteHeader(r.statusCode)] +
    if !ValidCode(r.statusCode) then [] else
      Piece(if body.Some? then Some(body.value.data) else None) + Piece(r.bodyReader) +
      Piece(if r.body.Some? && |r.body.value| > 0 then r.body else None)
  }

  /** The bytes of a reply. */
  function ReplyBytes(r: FlowResponse, body: Option<Stream>): Bytes {
    (if body.Some? then body.value.data else []) + (if r.bodyReader.Some? then r.bodyReader.value else []) +
    (if r.body.Some? then r.body.value else [])
  }
}
