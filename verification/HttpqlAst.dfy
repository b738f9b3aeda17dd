/** The HTTPQL syntax tree and its printer (httpql/ast.go).

    A Go pointer is an Option, a Go slice is `Queries`, which tells a nil slice from an empty one,
    and a `*Query` that may be nil is a `Query` with the constructor `NilQuery`. */
module HttpqlAst {
  import opened Wrappers
  import opened Strings

  datatype StringExpr = StringExpr(value: string, operator: string)

  datatype IntExpr = IntExpr(value: int, operator: string)

  datatype BoolExpr = BoolExpr(value: bool, operator: string)

  datatype RequestClause = RequestClause(
    reqMethod: Option<StringExpr>, host: Option<StringExpr>, path: Option<StringExpr>,
    query: Option<StringExpr>, body: Option<StringExpr>, port: Option<IntExpr>, isTls: Option<BoolExpr>)

  datatype ResponseClause = ResponseClause(
    statusCode: Option<IntExpr>, body: Option<StringExpr>, length: Option<IntExpr>)

  datatype Queries = NilQueries | Queries(subs: seq<Query>)

  datatype Query =
    | NilQuery
    | Query(req: Option<RequestClause>, resp: Option<ResponseClause>, and: Queries, or: Queries)

  const EMPTY_REQUEST := RequestClause(None, None, None, None, None, None, None)
  const EMPTY_RESPONSE := ResponseClause(None, None, None)

  function ReqQuery(r: RequestClause): Query { Query(Some(r), None, NilQueries, NilQueries) }

  function RespQuery(r: ResponseClause): Query { Query(None, Some(r), NilQueries, NilQueries) }

  function AndQuery(left: Query, right: Query): Query { Query(None, None, Queries([left, right]), NilQueries) }

  function OrQuery(left: Query, right: Query): Query { Query(None, None, NilQueries, Queries([left, right])) }

  /** The Unicode tables the Go library consults for characters beyond ASCII. */
  datatype Unicode = Unicode(isLetter: char -> bool, isDigit: char -> bool, isPrint: char -> bool, lower: char -> char)

  // ----- fmt's %d, %v and %q

  function PrintInt(i: int): string { if i < 0 then "-" + Digits(-i) else Digits(i) }

  function PrintBool(b: bool): string { if b then "true" else "false" }

  function HexDigit(d: nat): (c: char)
    requires d < 16
    ensures '0' <= c <= '9' || 'a' <= c <= 'f'
  {
    if d < 10 then ('0' as int + d) as char else ('a' as int + d - 10) as char
  }

  function Hex(n: nat, width: nat): (s: string)
    ensures |s| == width
    ensures forall i :: 0 <= i < |s| ==> '0' <= s[i] <= '9' || 'a' <= s[i] <= 'f'
  {
    if width == 0 then "" else Hex(n / 16, width - 1) + [HexDigit(n % 16)]
  }

  predicate IsPrint(u: Unicode, c: char) {
    if c as int < 128 then ' ' <= c <= '~' else u.isPrint(c)
  }

  /** A character that %q writes as itself. */
  predicate Plain(u: Unicode, c: char) { c != '"' && c != '\\' && IsPrint(u, c) }

  function QuoteChar(u: Unicode, c: char): (s: string)
    ensures Plain(u, c) ==> s == [c]
    ensures !Plain(u, c) ==> |s| >= 2 && s[0] == '\\'
  {
    if c == '"' || c == '\\' then ['\\', c]
    else if IsPrint(u, c) then [c]
    else if c as int == 7 then ['\\', 'a']
    else if c as int == 8 then ['\\', 'b']
    else if c as int == 12 then ['\\', 'f']
    else if c == '\n' then ['\\', 'n']
    else if c == '\r' then ['\\', 'r']
    else if c == '\t' then ['\\', 't']
    else if c as int == 11 then ['\\', 'v']
    else if c as int < 128 then ['\\', 'x'] + Hex(c as int, 2)
    else if c as int < 0x10000 then ['\\', 'u'] + Hex(c as int, 4)
    else ['\\', 'U'] + Hex(c as int, 8)
  }

  function QuoteBody(u: Unicode, s: string): string {
    if s == "" then "" else QuoteChar(u, s[0]) + QuoteBody(u, s[1..])
  }

  function Quote(u: Unicode, s: string): string { "\"" + QuoteBody(u, s) + "\"" }

  // ----- the String methods

  function PrintStringExpr(u: Unicode, e: StringExpr): string { e.operator + (":" + Quote(u, e.value)) }

  function PrintIntExpr(e: IntExpr): string { e.operator + (":" + PrintInt(e.value)) }

  function PrintBoolExpr(e: BoolExpr): string { e.operator + (":" + PrintBool(e.value)) }

  function PrintField(namespace: string, field: string, expr: string): string {
    namespace + ("." + (field + ("." + expr)))
  }

  function PrintRequest(u: Unicode, r: RequestClause): string {
    if r.reqMethod.Some? then PrintField("req", "method", PrintStringExpr(u, r.reqMethod.value))
    else if r.host.Some? then PrintField("req", "host", PrintStringExpr(u, r.host.value))
    else if r.path.Some? then PrintField("req", "path", PrintStringExpr(u, r.path.value))
    else if r.query.Some? then PrintField("req", "query", PrintStringExpr(u, r.query.value))
    else if r.body.Some? then PrintField("req", "body", PrintStringExpr(u, r.body.value))
    else if r.port.Some? then PrintField("req", "port", PrintIntExpr(r.port.value))
    else if r.isTls.Some? then PrintField("req", "tls", PrintBoolExpr(r.isTls.value))
    else ""
  }

  function PrintResponse(u: Unicode, r: ResponseClause): string {
    if r.statusCode.Some? then PrintField("resp", "code", PrintIntExpr(r.statusCode.value))
    else if r.body.Some? then PrintField("resp", "body", PrintStringExpr(u, r.body.value))
    else if r.length.Some? then PrintField("resp", "len", PrintIntExpr(r.length.value))
    else ""
  }

  /** The printer dereferences every query it visits, so none may be nil. */
  predicate Printable(q: Query) {
    q.Query? &&
    (q.and.Queries? ==> forall sub | sub in q.and.subs :: Printable(sub)) &&
    (q.or.Queries? ==> forall sub | sub in q.or.subs :: Printable(sub))
  }

  function PrintPair(left: string, word: string, right: string): string {
    "(" + (left + (" " + (word + (" " + (right + ")")))))
  }

  function Print(u: Unicode, q: Query): string
    requires Printable(q)
  {
    if q.req.Some? then PrintRequest(u, q.req.value)
    else if q.resp.Some? then PrintResponse(u, q.resp.value)
    else if q.and.Queries? && |q.and.subs| == 2 then
      PrintPair(Print(u, q.and.subs[0]), "AND", Print(u, q.and.subs[1]))
    else if q.or.Queries? && |q.or.subs| == 2 then
      PrintPair(Print(u, q.or.subs[0]), "OR", Print(u, q.or.subs[1]))
    else ""
  }
}
