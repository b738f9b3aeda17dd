/** Evaluating an HTTPQL query on a captured flow (httpql/eval.go). */
module HttpqlEval {
  import opened Wrappers
  import opened Strings
  import opened HttpqlAst
  import opened HttpqlSyntax
  import opened LikePattern

  /** A decoded body and its length in bytes. */
  datatype Body = Body(text: string, size: nat)

  /** `body` is None when DecodedBody fails; `port` is URL.Port(), empty when the URL has none. */
  datatype FlowRequest = FlowRequest(
    verb: string, scheme: string, hostname: string, port: string, path: string, rawQuery: string, body: Option<Body>)

  datatype FlowResponse = FlowResponse(statusCode: int, body: Option<Body>)

  datatype Flow = Flow(request: Option<FlowRequest>, response: Option<FlowResponse>)

  predicate EvalString(re: Engine, e: StringExpr, val: string) {
    match e.operator
    case "eq" => val == e.value
    case "ne" => val != e.value
    case "cont" => Contains(val, e.value)
    case "ncont" => !Contains(val, e.value)
    case "like" => re(ConvertLikeToRegex(e.value), val)
    case "nlike" => !re(ConvertLikeToRegex(e.value), val)
    case "regex" => re(e.value, val)
    case "nregex" => !re(e.value, val)
    case _ => false
  }

  predicate EvalInt(e: IntExpr, val: int) {
    match e.operator
    case "eq" => val == e.value
    case "ne" => val != e.value
    case "gt" => val > e.value
    case "gte" => val >= e.value
    case "lt" => val < e.value
    case "lte" => val <= e.value
    case _ => false
  }

  predicate EvalBool(e: BoolExpr, val: bool) {
    match e.operator
    case "eq" => val == e.value
    case "ne" => val != e.value
    case _ => false
  }

  /** strconv.Atoi with its error ignored: 0 for no number, the nearest int for one out of range. */
  function AtoiIgnoringError(s: string): int {
    if Atoi(s).Some? then Atoi(s).value
    else if s != "" && AllDigits(s) then MAX_INT
    else 0
  }

  function EffectivePort(r: FlowRequest): int {
    var port := AtoiIgnoringError(r.port);
    if port != 0 then port else if r.scheme == "https" then 443 else 80
  }

  predicate EvalRequest(re: Engine, c: RequestClause, f: Flow) {
    f.request.Some? &&
    var r := f.request.value;
    (c.reqMethod.Some? ==> EvalString(re, c.reqMethod.value, r.verb)) &&
    (c.host.Some? ==> EvalString(re, c.host.value, r.hostname)) &&
    (c.path.Some? ==> EvalString(re, c.path.value, r.path)) &&
    (c.query.Some? ==> EvalString(re, c.query.value, r.rawQuery)) &&
    (c.body.Some? && r.body.Some? ==> EvalString(re, c.body.value, r.body.value.text)) &&
    (c.port.Some? ==> EvalInt(c.port.value, EffectivePort(r))) &&
    (c.isTls.Some? ==> EvalBool(c.isTls.value, r.scheme == "https"))
  }

  predicate EvalResponse(re: Engine, c: ResponseClause, f: Flow) {
    f.response.Some? &&
    var r := f.response.value;
    (c.statusCode.Some? ==> EvalInt(c.statusCode.value, r.statusCode)) &&
    (c.body.Some? && r.body.Some? ==> EvalString(re, c.body.value, r.body.value.text)) &&
    (c.length.Some? && r.body.Some? ==> EvalInt(c.length.value, r.body.value.size))
  }

  predicate Eval(re: Engine, q: Query, f: Flow) {
    if q.NilQuery? then true
    else if q.and.Queries? then forall sub | sub in q.and.subs :: Eval(re, sub, f)
    else if q.or.Queries? then exists sub | sub in q.or.subs :: Eval(re, sub, f)
    else if q.req.Some? then EvalRequest(re, q.req.value, f)
    else if q.resp.Some? then EvalResponse(re, q.resp.value, f)
    else true
  }

  /** The operators come in pairs of which exactly one holds, also when a pattern does not compile; and
      `like` matches the texts its wildcards describe. */
  lemma OperatorPairs(re: Engine, v: string, s: string)
    requires Implements(re)
    ensures EvalString(re, StringExpr(v, "eq"), s) != EvalString(re, StringExpr(v, "ne"), s)
    ensures EvalString(re, StringExpr(v, "cont"), s) != EvalString(re, StringExpr(v, "ncont"), s)
    ensures EvalString(re, StringExpr(v, "like"), s) != EvalString(re, StringExpr(v, "nlike"), s)
    ensures EvalString(re, StringExpr(v, "regex"), s) != EvalString(re, StringExpr(v, "nregex"), s)
    ensures EvalString(re, StringExpr(v, "like"), s) <==> GlobMatch(v, s)
    ensures EvalString(re, StringExpr(v, "eq"), s) ==> EvalString(re, StringExpr(v, "cont"), s)
  {
    hide Contains;
    hide Implements;
    hide ConvertLikeToRegex;
    hide GlobMatch;
    LikeMatchesGlob(re, v, s);
    ContainsSelf(s);
  }

  /** On numbers the operators are those of the order: exactly one of `lt`, `eq` and `gt` holds, `gt` stays true of
      larger numbers, and the other three are the negations. */
  lemma IntOperators(v: int, x: int)
    ensures EvalInt(IntExpr(v, "gt"), x) != EvalInt(IntExpr(v, "lte"), x)
    ensures EvalInt(IntExpr(v, "lt"), x) != EvalInt(IntExpr(v, "gte"), x)
    ensures EvalInt(IntExpr(v, "eq"), x) != EvalInt(IntExpr(v, "ne"), x)
    ensures EvalInt(IntExpr(v, "lt"), x) ==> !EvalInt(IntExpr(v, "eq"), x) && !EvalInt(IntExpr(v, "gt"), x)
    ensures EvalInt(IntExpr(v, "gte"), x) <==> EvalInt(IntExpr(v, "eq"), x) || EvalInt(IntExpr(v, "gt"), x)
    ensures EvalInt(IntExpr(v, "eq"), v) && EvalInt(IntExpr(v, "gt"), v + 1)
    ensures forall y :: y >= x && EvalInt(IntExpr(v, "gt"), x) ==> EvalInt(IntExpr(v, "gt"), y)
  {
  }

  /** An operator that is none of these holds of nothing. */
  lemma UnknownOperators(re: Engine, op: string, v: string, n: int, b: bool)
    ensures
      op !in {"eq", "ne", "cont", "ncont", "like", "nlike", "regex", "nregex"} ==>
        forall s :: !EvalString(re, StringExpr(v, op), s)
    ensures op !in {"eq", "ne", "gt", "gte", "lt", "lte"} ==> forall x :: !EvalInt(IntExpr(n, op), x)
    ensures op !in {"eq", "ne"} ==> forall x :: !EvalBool(BoolExpr(b, op), x)
  {
    hide Contains;
    hide ConvertLikeToRegex;
  }

  /** Without a port in the URL, with port 0 and with one that is no number, a clause on the port compares with 443
      for https and with 80 otherwise; with digits too long for an int with the largest int; and with any other
      number with that. */
  lemma PortClauseMeans(re: Engine, e: IntExpr, f: Flow)
    requires f.request.Some?
    ensures
      var r, holds := f.request.value, EvalRequest(re, EMPTY_REQUEST.(port := Some(e)), f);
      if Atoi(r.port).Some? && Atoi(r.port).value != 0 then holds == EvalInt(e, Atoi(r.port).value)
      else if Atoi(r.port).None? && r.port != "" && AllDigits(r.port) then holds == EvalInt(e, MAX_INT)
      else if r.scheme == "https" then holds == EvalInt(e, 443)
      else holds == EvalInt(e, 80)
  {
    hide EvalInt;
    hide Atoi;
    hide AllDigits;
  }

  lemma EvalAndQuery(re: Engine, l: Query, r: Query, f: Flow)
    ensures Eval(re, AndQuery(l, r), f) == (Eval(re, l, f) && Eval(re, r, f))
  {
    var q := AndQuery(l, r);
    assert q.and.subs[0] == l && q.and.subs[1] == r;
  }

  lemma EvalOrQuery(re: Engine, l: Query, r: Query, f: Flow)
    ensures Eval(re, OrQuery(l, r), f) == (Eval(re, l, f) || Eval(re, r, f))
  {
    var q := OrQuery(l, r);
    assert q.or.subs[0] == l && q.or.subs[1] == r;
  }
}
