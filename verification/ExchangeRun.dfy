/** One request through the proxy (proxy/attacker.go, attack and reply) as a machine: what the next event is
    at each point, given what addons and network answer, until the exchange is over. */
module ExchangeRun {
  import opened Wrappers
  import opened BodyBuffer
  import opened ExchangeLog

  /** The world, the settings, and the request that came. */
  datatype Config = Config(
    w: World, addons: nat, limit: int /* StreamLargeBodies */, host: string, scheme: string, sent: Stream,
    together: bool)
  {
    function Start(): Flow { Flow(FlowRequest(host, scheme, None), None, false, false) }
  }

  /** Where an exchange is: what happens next, with the flow and the reader it happens to. */
  datatype Point =
    | Headers(next: nat, flow: Flow)
    | ReadRequest(flow: Flow)
    | Requests(next: nat, flow: Flow)
    | ModifyRequest(next: nat, flow: Flow, reader: Option<Stream>)
    | Dial(reader: Option<Stream>, flow: Flow)
    | Contact(reader: Option<Stream>, flow: Flow)
    | ResponseHeaders(next: nat, flow: Flow, answer: ServerResponse)
    | ReadResponse(flow: Flow, answer: ServerResponse)
    | Responses(next: nat, flow: Flow)
    | ModifyResponse(next: nat, flow: Flow, reader: Option<Stream>)
    | Replying(rest: Log)
    | Crashed
    | Over

  // ----- entering a phase, which may have nothing to do

  function Refused(): Point { Replying([WroteHeader(502)]) }

  function EnterHeaders(c: Config, i: nat, f: Flow): Point {
    if i < c.addons then Headers(i, f) else EnterReadRequest(c, f)
  }

  function EnterReadRequest(c: Config, f: Flow): Point {
    if !f.stream && Buffer(c.sent.data, c.sent.fails, c.together, c.limit).0.Failed? then Refused() else ReadRequest(f)
  }

  function EnterRequests(c: Config, log: Log, i: nat, f: Flow): Point {
    if i < c.addons then Requests(i, f)
    else
      var body := if f.request.body.Some? then f.request.body.value else [];
      EnterModifyRequest(c, log, 0, f, Some(Stream(body, false)))
  }

  function EnterModifyRequest(c: Config, log: Log, i: nat, f: Flow, r: Option<Stream>): Point {
    if i < c.addons then ModifyRequest(i, f, r) else EnterUpstream(c, log, f, r)
  }

  /** Whether the request goes through the connection that is shared with the client's. */
  predicate Shared(c: Config, f: Flow) {
    !f.separateClient && c.host == f.request.host && c.scheme == f.request.scheme
  }

  function EnterUpstream(c: Config, log: Log, f: Flow, r: Option<Stream>): Point {
    if !c.w.requestBuilds(log) then Refused()
    else if Shared(c, f) && !c.w.hasServerConn then if c.w.hasDial then Dial(r, f) else Crashed
    else Contact(r, f)
  }

  function EnterResponseHeaders(c: Config, i: nat, f: Flow, a: ServerResponse): Point {
    if i < c.addons then ResponseHeaders(i, f, a) else EnterReadResponse(c, f, a)
  }

  function EnterReadResponse(c: Config, f: Flow, a: ServerResponse): Point {
    if !f.stream && Buffer(a.body.data, a.body.fails, a.together, c.limit).0.Failed? then Refused()
    else ReadResponse(f, a)
  }

  function EnterResponses(c: Config, i: nat, f: Flow): Point {
    if i < c.addons then Responses(i, f) else EnterModifyResponse(c, 0, f, None)
  }

  function EnterModifyResponse(c: Config, i: nat, f: Flow, r: Option<Stream>): Point {
    if i < c.addons then ModifyResponse(i, f, r)
    else if f.response.None? then Crashed
    else Replying(ReplyLog(f.response.value, r))
  }

  // ----- one event

  /** The body that is read, buffered. */
  function Kept(c: Config, body: Stream, together: bool): Buffered {
    Buffer(body.data, body.fails, together, c.limit).0
  }

  /** The next event; None when the exchange is over. */
  function EventAt(c: Config, log: Log, p: Point): Option<Event> {
    match p
    case Headers(i, f) => Some(Called(Requestheaders, i, f, c.w.hook(log, Requestheaders, i, f)))
    case ReadRequest(f) =>
      Some(BodyRead(true, f, |c.sent.data|, f.stream || Kept(c, c.sent, c.together).Streamed?))
    case Requests(i, f) => Some(Called(Request, i, f, c.w.hook(log, Request, i, f)))
    case ModifyRequest(i, f, r) => Some(Modified(true, i, f, r, c.w.modifyStream(log, true, i, f, r)))
    case Dial(_, _) => Some(Dialled)
    case Contact(r, _) => Some(Contacted(r, c.w.roundTrip(log, r)))
    case ResponseHeaders(i, f, _) => Some(Called(Responseheaders, i, f, c.w.hook(log, Responseheaders, i, f)))
    case ReadResponse(f, a) =>
      Some(BodyRead(false, f, |a.body.data|, f.stream || Kept(c, a.body, a.together).Streamed?))
    case Responses(i, f) => Some(Called(Response, i, f, c.w.hook(log, Response, i, f)))
    case ModifyResponse(i, f, r) => Some(Modified(false, i, f, r, c.w.modifyStream(log, false, i, f, r)))
    case Replying(rest) => Some(if rest == [] then Finished else rest[0])
    case Crashed => Some(Finished)
    case Over => None
  }

  function MemoryBody(b: Buffered): Bytes { if b.Whole? then b.data else [] }

  /** Where the event `e` of point `p` leads; `log` ends with it. */
  function Next(c: Config, log: Log, p: Point, e: Event): Point {
    match p
    case Headers(i, _) =>
      if !e.Called? || e.effect.Panics? then Crashed
      else if e.effect.flow.response.Some? then Replying(ReplyLog(e.effect.flow.response.value, None))
      else EnterHeaders(c, i + 1, e.effect.flow)
    case ReadRequest(f) =>
      if e.BodyRead? && e.streamed then EnterModifyRequest(c, log, 0, f.(stream := true), Some(c.sent))
      else EnterRequests(c, log, 0, f.(request := f.request.(body := Some(MemoryBody(Kept(c, c.sent, c.together))))))
    case Requests(i, _) =>
      if !e.Called? || e.effect.Panics? then Crashed
      else if e.effect.flow.response.Some? then Replying(ReplyLog(e.effect.flow.response.value, None))
      else EnterRequests(c, log, i + 1, e.effect.flow)
    case ModifyRequest(i, _, _) =>
      if !e.Modified? || e.gave.StreamPanics? then Crashed
      else EnterModifyRequest(c, log, i + 1, e.gave.flow, e.gave.reader)
    case Dial(r, f) =>
      (match c.w.dial(log)
       case Connected => Contact(r, f)
       case ProxyAuthRequired => Replying([WroteHeader(407), Wrote([10])])
       case DialFailed => Refused())
    case Contact(_, f) =>
      if !e.Contacted? || e.answer.None? then Refused()
      else
        var a := e.answer.value;
        EnterResponseHeaders(c, 0, f.(response := Some(FlowResponse(a.statusCode, None, None, a.close))), a)
    case ResponseHeaders(i, _, a) =>
      if !e.Called? || e.effect.Panics? || e.effect.flow.response.None? then Crashed
      else if e.effect.flow.response.value.body.Some? then Replying(ReplyLog(e.effect.flow.response.value, None))
      else EnterResponseHeaders(c, i + 1, e.effect.flow, a)
    case ReadResponse(f, a) =>
      if e.BodyRead? && e.streamed then EnterModifyResponse(c, 0, f.(stream := true), Some(a.body))
      else EnterResponses(c, 0, WithBody(f, MemoryBody(Kept(c, a.body, a.together))))
    case Responses(i, _) =>
      if !e.Called? || e.effect.Panics? then Crashed else EnterResponses(c, i + 1, e.effect.flow)
    case ModifyResponse(i, _, _) =>
      if !e.Modified? || e.gave.StreamPanics? then Crashed
      else EnterModifyResponse(c, i + 1, e.gave.flow, e.gave.reader)
    case Replying(rest) => if rest == [] then Over else Replying(rest[1..])
    case _ => Over
  }

  function WithBody(f: Flow, data: Bytes): Flow {
    if f.response.None? then f else f.(response := Some(f.response.value.(body := Some(data))))
  }

  /** The point a log has come to; None when it is not what happens. */
  function PointOf(c: Config, log: Log): Option<Point> {
    if log == [] then Some(EnterHeaders(c, 0, c.Start())) else
      var before, e := log[..|log| - 1], log[|log| - 1];
      var p := PointOf(c, before);
      if p.Some? && EventAt(c, before, p.value) == Some(e) then Some(Next(c, log, p.value, e)) else None
  }

  /** The last event is a header with a code that is none, at which WriteHeader panics. */
  predicate BadHeaderLast(log: Log) {
    log != [] && log[|log| - 1].WroteHeader? && !ValidCode(log[|log| - 1].code)
  }

  /** A finished exchange in which attack panicked. */
  predicate PanickedIn(c: Config, log: Log) {
    log != [] && (PointOf(c, log[..|log| - 1]) == Some(Crashed) || BadHeaderLast(log[..|log| - 1]))
  }

  function EnterModify(c: Config, log: Log, request: bool, i: nat, f: Flow, r: Option<Stream>): Point {
    if request then EnterModifyRequest(c, log, i, f, r) else EnterModifyResponse(c, i, f, r)
  }

  /** The whole of an exchange. */
  predicate Complete(c: Config, log: Log) { PointOf(c, log) == Some(Over) }

  lemma PointAppend(c: Config, log: Log, e: Event)
    requires PointOf(c, log).Some? && EventAt(c, log, PointOf(c, log).value) == Some(e)
    ensures PointOf(c, log + [e]) == Some(Next(c, log + [e], PointOf(c, log).value, e))
  {
    assert (log + [e])[..|log|] == log;
  }

  lemma {:induction false} PrefixRuns(c: Config, log: Log, k: nat)
    requires PointOf(c, log).Some? && k <= |log|
    ensures PointOf(c, log[..k]).Some?
    ensures k < |log| ==> EventAt(c, log[..k], PointOf(c, log[..k]).value) == Some(log[k])
    decreases |log|
  {
    if k == |log| {
      assert log[..k] == log;
    } else if k < |log| - 1 {
      assert log[..|log| - 1][..k] == log[..k];
      PrefixRuns(c, log[..|log| - 1], k);
    }
  }

  /** World and request determine everything that happens. */
  lemma {:induction false} OneRun(c: Config, a: Log, b: Log)
    requires PointOf(c, a).Some? && PointOf(c, b).Some? && |a| <= |b|
    ensures a <= b
    decreases |a|
  {
    if a != [] {
      var n := |a| - 1;
      LastRuns(c, a);
      hide PointOf;
      hide EventAt;
      OneRun(c, a[..n], b);
      PrefixRuns(c, b, n);
      SameSoFar(a, b);
    }
  }

  lemma LastRuns(c: Config, log: Log)
    requires PointOf(c, log).Some? && log != []
    ensures
      var before := log[..|log| - 1];
      PointOf(c, before).Some? && EventAt(c, before, PointOf(c, before).value) == Some(log[|log| - 1])
  {
  }

  lemma SameSoFar(a: Log, b: Log)
    requires 0 < |a| <= |b| && a[..|a| - 1] <= b
    ensures a[..|a| - 1] == b[..|a| - 1] && (a[|a| - 1] == b[|a| - 1] ==> a <= b)
  {
    var n := |a| - 1;
    assert forall i :: 0 <= i < n ==> a[i] == a[..n][i] == b[i];
  }
}
