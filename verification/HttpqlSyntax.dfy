/** What the HTTPQL parser returns for the tokens ahead of it (httpql/parser.go). */
module HttpqlSyntax {
  import opened Wrappers
  import opened HttpqlAst
  import opened HttpqlLexer

  datatype ParseError =
    | ExpectedNamespace(got: string)
    | ExpectedDot(got: string)
    | ExpectedDotAfterField(got: string)
    | ExpectedColon(got: string)
    | ExpectedRParen(got: string)
    | UnknownReqField(field: string)
    | UnknownRespField(field: string)
    | BadInt(literal: string)

  type Parsed = Result<(Query, seq<Token>), ParseError>

  // ----- strconv

  const MAX_INT := 0x7fff_ffff_ffff_ffff

  predicate AllDigits(s: string) { forall i :: 0 <= i < |s| ==> IsDecimal(s[i]) }

  function DigitsValue(s: string): nat
    requires AllDigits(s)
  {
    if s == "" then 0 else 10 * DigitsValue(s[..|s| - 1]) + (s[|s| - 1] as int - '0' as int)
  }

  /** strconv.Atoi on a 64-bit platform */
  function Atoi(s: string): (r: Option<int>)
    ensures r.Some? ==> -MAX_INT - 1 <= r.value <= MAX_INT
  {
    var negative := s != "" && s[0] == '-';
    var digits := if s != "" && (s[0] == '-' || s[0] == '+') then s[1..] else s;
    if digits == "" || !AllDigits(digits) then None
    else
      var magnitude: int := DigitsValue(digits);
      var v := if negative then -magnitude else magnitude;
      if -MAX_INT - 1 <= v <= MAX_INT then Some(v) else None
  }

  /** strconv.ParseBool, whose error the parser ignores */
  function ParseBool(s: string): bool { s in {"1", "t", "T", "TRUE", "true", "True"} }

  // ----- clauses

  function BuildReqClause(field: string, op: string, val: string): Result<Query, ParseError> {
    match field
    case "method" => Ok(ReqQuery(EMPTY_REQUEST.(reqMethod := Some(StringExpr(val, op)))))
    case "host" => Ok(ReqQuery(EMPTY_REQUEST.(host := Some(StringExpr(val, op)))))
    case "path" => Ok(ReqQuery(EMPTY_REQUEST.(path := Some(StringExpr(val, op)))))
    case "query" => Ok(ReqQuery(EMPTY_REQUEST.(query := Some(StringExpr(val, op)))))
    case "port" =>
      if Atoi(val).None? then Err(BadInt(val))
      else Ok(ReqQuery(EMPTY_REQUEST.(port := Some(IntExpr(Atoi(val).value, op)))))
    case "tls" => Ok(ReqQuery(EMPTY_REQUEST.(isTls := Some(BoolExpr(ParseBool(val), op)))))
    case "body" => Ok(ReqQuery(EMPTY_REQUEST.(body := Some(StringExpr(val, op)))))
    case "raw" => Ok(ReqQuery(EMPTY_REQUEST.(body := Some(StringExpr(val, op)))))
    case "ext" => Ok(ReqQuery(EMPTY_REQUEST.(body := Some(StringExpr(val, op)))))
    case _ => Err(UnknownReqField(field))
  }

  function BuildRespClause(field: string, op: string, val: string): Result<Query, ParseError> {
    match field
    case "code" =>
      if Atoi(val).None? then Err(BadInt(val))
      else Ok(RespQuery(EMPTY_RESPONSE.(statusCode := Some(IntExpr(Atoi(val).value, op)))))
    case "len" =>
      if Atoi(val).None? then Err(BadInt(val))
      else Ok(RespQuery(EMPTY_RESPONSE.(length := Some(IntExpr(Atoi(val).value, op)))))
    case "body" => Ok(RespQuery(EMPTY_RESPONSE.(body := Some(StringExpr(val, op)))))
    case "raw" => Ok(RespQuery(EMPTY_RESPONSE.(body := Some(StringExpr(val, op)))))
    case _ => Err(UnknownRespField(field))
  }

  function BuildClause(namespace: string, field: string, op: string, val: string): Result<Query, ParseError> {
    if namespace == "req" then BuildReqClause(field, op, val) else BuildRespClause(field, op, val)
  }

  // ----- what the parser computes on the tokens ahead

  predicate IsNamespace(s: string) { s == "req" || s == "resp" }

  function ParseClause(ts: seq<Token>): (r: Parsed)
    ensures r.Ok? ==> |r.value.1| < |ts|
  {
    var namespace := Head(ts).literal;
    if !IsNamespace(namespace) then Err(ExpectedNamespace(namespace)) else
    var ts := Tail(ts);
    if Head(ts).kind != Dot then Err(ExpectedDot(Head(ts).literal)) else
    var ts := Tail(ts);
    var field := Head(ts).literal;
    var ts := Tail(ts);
    if Head(ts).kind != Dot then Err(ExpectedDotAfterField(Head(ts).literal)) else
    var ts := Tail(ts);
    var op := Head(ts).literal;
    var ts := Tail(ts);
    if Head(ts).kind != Colon then Err(ExpectedColon(Head(ts).literal)) else
    var ts := Tail(ts);
    var clause := BuildClause(namespace, field, op, Head(ts).literal);
    if clause.Err? then Err(clause.error) else Ok((clause.value, Tail(ts)))
  }

  function ParseFactor(ts: seq<Token>): (r: Parsed)
    ensures r.Ok? ==> |r.value.1| < |ts|
    decreases |ts|, 0
  {
    if Head(ts).kind == LParen then
      var r := ParseOr(Tail(ts));
      if r.Err? then r
      else if Head(r.value.1).kind != RParen then Err(ExpectedRParen(Head(r.value.1).literal))
      else Ok((r.value.0, Tail(r.value.1)))
    else ParseClause(ts)
  }

  function ParseAnd(ts: seq<Token>): (r: Parsed)
    ensures r.Ok? ==> |r.value.1| < |ts|
    decreases |ts|, 1
  {
    var r := ParseFactor(ts);
    if r.Err? then r else AndLoop(r.value.0, r.value.1)
  }

  function AndLoop(left: Query, ts: seq<Token>): (r: Parsed)
    ensures r.Ok? ==> |r.value.1| <= |ts|
    decreases |ts|, 1
  {
    if Head(ts).kind == And then
      var r := ParseFactor(Tail(ts));
      if r.Err? then r else AndLoop(AndQuery(left, r.value.0), r.value.1)
    else Ok((left, ts))
  }

  function ParseOr(ts: seq<Token>): (r: Parsed)
    ensures r.Ok? ==> |r.value.1| < |ts|
    decreases |ts|, 2
  {
    var r := ParseAnd(ts);
    if r.Err? then r else OrLoop(r.value.0, r.value.1)
  }

  function OrLoop(left: Query, ts: seq<Token>): (r: Parsed)
    ensures r.Ok? ==> |r.value.1| <= |ts|
    decreases |ts|, 2
  {
    if Head(ts).kind == Or then
      var r := ParseAnd(Tail(ts));
      if r.Err? then r else OrLoop(OrQuery(left, r.value.0), r.value.1)
    else Ok((left, ts))
  }
}
