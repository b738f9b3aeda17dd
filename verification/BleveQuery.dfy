/** Compiling HTTPQL to Bleve index queries (storage/query_builder.go), the indexed document
    (storage/service.go), and when searching the index gives the answer of `Eval`. */
module BleveQuery {
  import opened Wrappers
  import opened Strings
  import opened HttpqlAst
  import opened HttpqlSyntax
  import opened HttpqlEval
  import opened LikePattern
  import opened Rounding

  /** The query objects of the Bleve library that the compiler builds. */
  datatype Bleve =
    | MatchAll
    | Boolean(must: seq<Bleve>, should: seq<Bleve>, minShould: nat, mustNot: seq<Bleve>)
    | Term(field: string, text: string)
    | Wildcard(field: string, pattern: string)
    | MatchText(field: string, text: string)
    | MatchPhrase(field: string, text: string)
    | Regexp(field: string, pattern: string)
    | NumericRange(field: string, min: Option<int>, max: Option<int>, inclusiveMin: bool, inclusiveMax: bool)

  const EMPTY_BOOLEAN := Boolean([], [], 0, [])

  function AddMust(b: Bleve, q: Bleve): Bleve
    requires b.Boolean?
  {
    b.(must := b.must + [q])
  }

  function AddMustNot(b: Bleve, q: Bleve): Bleve
    requires b.Boolean?
  {
    b.(mustNot := b.mustNot + [q])
  }

  // ----- the compiler

  function BuildStringQuery(field: string, e: StringExpr): Bleve
    decreases if e.operator == "ne" || e.operator == "ncont" then 1 else 0
  {
    match e.operator
    case "eq" => if field == "Method" then Term(field, e.value) else MatchText(field, e.value)
    case "ne" => AddMustNot(EMPTY_BOOLEAN, BuildStringQuery(field, StringExpr(e.value, "eq")))
    case "cont" =>
      if field == "Method" then Wildcard(field, "*" + e.value + "*") else MatchPhrase(field, e.value)
    case "ncont" => AddMustNot(EMPTY_BOOLEAN, BuildStringQuery(field, StringExpr(e.value, "cont")))
    case "like" => Regexp(field, ConvertLikeToRegex(e.value))
    case "regex" => Regexp(field, e.value)
    case _ => MatchAll
  }

  function BuildIntQuery(field: string, e: IntExpr): Bleve
    decreases if e.operator == "ne" then 1 else 0
  {
    var val := Float64(e.value);
    match e.operator
    case "ne" => AddMustNot(EMPTY_BOOLEAN, BuildIntQuery(field, IntExpr(e.value, "eq")))
    case "eq" => NumericRange(field, Some(val), Some(val), true, true)
    case "gt" => NumericRange(field, Some(val), None, false, false)
    case "gte" => NumericRange(field, Some(val), None, true, false)
    case "lt" => NumericRange(field, None, Some(val), true, false)
    case "lte" => NumericRange(field, None, Some(val), true, true)
    case _ => MatchAll
  }

  function MustString(b: Bleve, field: string, e: Option<StringExpr>): (r: Bleve)
    requires b.Boolean?
    ensures r.Boolean?
  {
    if e.Some? then AddMust(b, BuildStringQuery(field, e.value)) else b
  }

  function MustInt(b: Bleve, field: string, e: Option<IntExpr>): (r: Bleve)
    requires b.Boolean?
    ensures r.Boolean?
  {
    if e.Some? then AddMust(b, BuildIntQuery(field, e.value)) else b
  }

  function BuildReqQuery(r: RequestClause): Bleve {
    var bq := MustString(EMPTY_BOOLEAN, "Method", r.reqMethod);
    var bq := MustString(bq, "Host", r.host);
    var bq := MustString(bq, "Path", r.path);
    var bq := MustString(bq, "Query", r.query);
    var bq := MustString(bq, "ReqBody", r.body);
    MustInt(bq, "Port", r.port)
  }

  function BuildRespQuery(r: ResponseClause): Bleve {
    var bq := MustInt(EMPTY_BOOLEAN, "Status", r.statusCode);
    var bq := MustString(bq, "ResBody", r.body);
    MustInt(bq, "RespLen", r.length)
  }

  function Length(qs: Queries): nat { if qs.Queries? then |qs.subs| else 0 }

  function BuildBleveQuery(q: Query): Bleve {
    if q.NilQuery? then MatchAll
    else if Length(q.and) > 0 || Length(q.or) > 0 then
      var must := if q.and.Queries? && |q.and.subs| == 2
                  then [BuildBleveQuery(q.and.subs[0]), BuildBleveQuery(q.and.subs[1])] else [];
      if q.or.Queries? && |q.or.subs| == 2
      then Boolean(must, [BuildBleveQuery(q.or.subs[0]), BuildBleveQuery(q.or.subs[1])], 1, [])
      else Boolean(must, [], 0, [])
    else if q.req.Some? then BuildReqQuery(q.req.value)
    else if q.resp.Some? then BuildRespQuery(q.resp.value)
    else MatchAll
  }

  // ----- the document and the search

  datatype Document = Document(
    verb: string, host: string, path: string, query: string, port: int, status: int, respLen: int,
    reqBody: string, resBody: string)

  function TextOf(b: Option<Body>): string { if b.Some? then b.value.text else "" }

  /** NewFlowEntry followed by the document part of SaveEntry; a port that does not scan stays 0. */
  function IndexDocument(f: Flow): Document
    requires f.request.Some?
  {
    var r := f.request.value;
    var port := if Atoi(r.port).Some? then Atoi(r.port).value else 0;
    if f.response.None? then
      Document(r.verb, r.hostname, r.path, r.rawQuery, port, 0, 0, TextOf(r.body), "")
    else
      var s := f.response.value;
      var size := if s.body.Some? then s.body.value.size else 0;
      Document(r.verb, r.hostname, r.path, r.rawQuery, port, s.statusCode, size, TextOf(r.body), TextOf(s.body))
  }

  /** Analysed text search, of which nothing is assumed. */
  type TextSearch = (Bleve, Document) -> bool

  function WildcardItems(p: string): seq<Item> {
    if p == "" then []
    else [if p[0] == '*' then AnyRun else if p[0] == '?' then AnyChar else Literal(p[0])] + WildcardItems(p[1..])
  }

  function NumericField(field: string, d: Document): Option<int> {
    match field
    case "Port" => Some(Float64(d.port))
    case "Status" => Some(Float64(d.status))
    case "RespLen" => Some(Float64(d.respLen))
    case _ => None
  }

  predicate InRange(q: Bleve, x: int)
    requires q.NumericRange?
  {
    (q.min.Some? ==> if q.inclusiveMin then q.min.value <= x else q.min.value < x) &&
    (q.max.Some? ==> if q.inclusiveMax then x <= q.max.value else x < q.max.value)
  }

  function CountHits(search: TextSearch, qs: seq<Bleve>, d: Document): nat {
    if qs == [] then 0 else (if Hits(search, qs[0], d) then 1 else 0) + CountHits(search, qs[1..], d)
  }

  /** Whether the index returns the document. A boolean query without any part matches nothing. */
  predicate Hits(search: TextSearch, q: Bleve, d: Document) {
    match q
    case MatchAll => true
    case Boolean(must, should, minShould, mustNot) =>
      !(must == [] && should == [] && mustNot == []) &&
      (forall m | m in must :: Hits(search, m, d)) &&
      (should != [] ==> CountHits(search, should, d) >= minShould) &&
      (forall m | m in mustNot :: !Hits(search, m, d))
    case Term(field, text) => if field == "Method" then d.verb == text else search(q, d)
    case Wildcard(field, pattern) =>
      if field == "Method" then Match(WildcardItems(pattern), d.verb) else search(q, d)
    case NumericRange(field, _, _, _, _) =>
      NumericField(field, d).Some? && InRange(q, NumericField(field, d).value)
    case _ => search(q, d)
  }

  // ----- the fragment on which the two agree

  predicate NoWildcard(s: string) { forall i :: 0 <= i < |s| ==> s[i] != '*' && s[i] != '?' }

  predicate SupportedString(e: StringExpr) {
    e.operator in {"eq", "ne"} || (e.operator in {"cont", "ncont"} && NoWildcard(e.value))
  }

  predicate SupportedInt(e: IntExpr) { e.operator in {"eq", "ne", "gt", "gte", "lt", "lte"} }

  predicate SupportedRequest(r: RequestClause) {
    r.host.None? && r.path.None? && r.query.None? && r.body.None? && r.isTls.None? &&
    (r.reqMethod.Some? || r.port.Some?) &&
    (r.reqMethod.Some? ==> SupportedString(r.reqMethod.value)) &&
    (r.port.Some? ==> SupportedInt(r.port.value))
  }

  predicate SupportedResponse(r: ResponseClause) {
    r.body.None? && (r.statusCode.Some? || r.length.Some?) &&
    (r.statusCode.Some? ==> SupportedInt(r.statusCode.value)) &&
    (r.length.Some? ==> SupportedInt(r.length.value))
  }

  predicate Supported(q: Query) {
    q.NilQuery? ||
    if q.and.Queries? then
      q.or.NilQueries? && |q.and.subs| == 2 && Supported(q.and.subs[0]) && Supported(q.and.subs[1])
    else if q.or.Queries? then |q.or.subs| == 2 && Supported(q.or.subs[0]) && Supported(q.or.subs[1])
    else if q.req.Some? then SupportedRequest(q.req.value)
    else q.resp.Some? ==> SupportedResponse(q.resp.value)
  }

  predicate ExplicitPort(r: FlowRequest) { Atoi(r.port).Some? && Atoi(r.port).value != 0 }

  /** The query value and the indexed one differ and round to the same float64, and the operator tells them
      apart. */
  predicate Collides(e: IntExpr, x: int) {
    e.value != x && Float64(e.value) == Float64(x) &&
    (e.operator in {"eq", "ne"} || (x < e.value && e.operator in {"gte", "lt"}) ||
     (x > e.value && e.operator in {"gt", "lte"}))
  }

  /** The flow has what the clauses of `q` look at: a method of HTTP, an explicit port, a decodable response;
      and its numbers do not collide with those of the query. */
  predicate Covered(q: Query, f: Flow) {
    f.request.Some? &&
    (q.NilQuery? ||
     if q.and.Queries? then forall sub | sub in q.and.subs :: Covered(sub, f)
     else if q.or.Queries? then forall sub | sub in q.or.subs :: Covered(sub, f)
     else if q.req.Some? then
       NoNewline(f.request.value.verb) &&
       (q.req.value.port.Some? ==>
          ExplicitPort(f.request.value) && !Collides(q.req.value.port.value, Atoi(f.request.value.port).value))
     else q.resp.Some? ==>
       f.response.Some? &&
       (q.resp.value.statusCode.Some? ==> !Collides(q.resp.value.statusCode.value, f.response.value.statusCode)) &&
       (q.resp.value.length.Some? ==>
          f.response.value.body.Some? && !Collides(q.resp.value.length.value, f.response.value.body.value.size)))
  }

  // ----- comparisons

  /** A numeric clause and its comparison differ exactly when the two numbers collide: everywhere else, also
      beyond 2^53, the index answers right. */
  lemma IntQueryDiffersExactly(search: TextSearch, field: string, e: IntExpr, d: Document, x: int)
    requires NumericField(field, d) == Some(Float64(x)) && SupportedInt(e)
    ensures Hits(search, BuildIntQuery(field, e), d) != EvalInt(e, x) <==> Collides(e, x)
  {
    if x < e.value { Float64Monotone(x, e.value); } else { Float64Monotone(e.value, x); }
    hide Float64;
    hide NumericField;
    if e.operator == "ne" {
      var q := BuildIntQuery(field, IntExpr(e.value, "eq"));
      assert BuildIntQuery(field, e) == Boolean([], [], 0, [q]);
      assert q in [q];
    }
  }

  /** Numbers below 2^53 collide with none. */
  lemma SmallNeverCollides(e: IntExpr, x: int)
    requires Small(x) || Small(e.value)
    ensures !Collides(e, x)
  {
    Float64Order(x);
    Float64Order(e.value);
    hide Float64;
  }

  // ----- wildcards

  lemma {:induction false} WildcardItemsAppend(a: string, b: string)
    ensures WildcardItems(a + b) == WildcardItems(a) + WildcardItems(b)
  {
    if a == "" {
      assert a + b == b;
    } else {
      assert (a + b)[1..] == a[1..] + b;
      WildcardItemsAppend(a[1..], b);
    }
  }

  lemma {:induction false} TrailingRun(s: string)
    requires NoNewline(s)
    ensures Match([AnyRun], s)
  {
    assert [AnyRun][1..] == [];
    if s != "" {
      assert forall i :: 0 <= i < |s| - 1 ==> s[1..][i] == s[i + 1];
      TrailingRun(s[1..]);
    }
  }

  /** Literals followed by a run match exactly the texts that start with them. */
  lemma {:induction false} LiteralsThenRun(v: string, s: string)
    requires NoWildcard(v) && NoNewline(s)
    ensures Match(WildcardItems(v) + [AnyRun], s) <==> v <= s
  {
    var items := WildcardItems(v) + [AnyRun];
    if v == "" {
      assert items == [AnyRun];
      TrailingRun(s);
    } else {
      assert items[1..] == WildcardItems(v[1..]) + [AnyRun];
      if s != "" {
        assert NoWildcard(v[1..]) by { assert forall i :: 0 <= i < |v| - 1 ==> v[1..][i] == v[i + 1]; }
        assert NoNewline(s[1..]) by { assert forall i :: 0 <= i < |s| - 1 ==> s[1..][i] == s[i + 1]; }
        LiteralsThenRun(v[1..], s[1..]);
        assert v <= s <==> v[0] == s[0] && v[1..] <= s[1..] by {
          assert v == [v[0]] + v[1..] && s == [s[0]] + s[1..];
        }
      }
    }
  }

  lemma AroundItems(v: string)
    ensures WildcardItems("*" + v + "*") == [AnyRun] + (WildcardItems(v) + [AnyRun])
  {
    WildcardItemsAppend("*" + v, "*");
    assert ("*" + v)[1..] == v && "*"[1..] == "";
    assert WildcardItems("*") == [AnyRun];
  }

  lemma WildcardIsContains(v: string, s: string)
    requires NoWildcard(v) && NoNewline(s)
    ensures Match(WildcardItems("*" + v + "*"), s) == Contains(s, v)
  {
    var rest := WildcardItems(v) + [AnyRun];
    AroundItems(v);
    RunIsPrefix(rest, s);
    forall k | 0 <= k <= |s| ensures NoNewline(s[..k]) && (Match(rest, s[k..]) <==> v <= s[k..]) {
      LiteralsThenRun(v, s[k..]);
    }
  }

  /** A text that the wildcard reading of `v` matches and that has no wildcard character itself. */
  function Instance(v: string): (s: string)
    ensures |s| == |v| && NoWildcard(s)
    ensures !NoWildcard(v) ==> s != v
  {
    if v == "" then "" else
      var s := [if v[0] == '*' || v[0] == '?' then 'a' else v[0]] + Instance(v[1..]);
      assert s[1..] == Instance(v[1..]);
      assert forall i :: 1 <= i < |v| ==> v[i] == v[1..][i - 1];
      s
  }

  lemma {:induction false} InstanceMatches(v: string)
    ensures Match(WildcardItems(v) + [AnyRun], Instance(v))
  {
    var items := WildcardItems(v) + [AnyRun];
    if v == "" {
      assert items == [AnyRun];
      TrailingRun("");
    } else {
      var s := Instance(v);
      InstanceMatches(v[1..]);
      assert items[1..] == WildcardItems(v[1..]) + [AnyRun];
      assert s[1..] == Instance(v[1..]);
      if v[0] == '*' {
        assert Match(items, s[1..]);
      }
    }
  }

  /** `cont` on the method agrees with substring search on every method exactly when its value has no
      wildcard character. */
  lemma ContIsExactlyContains(v: string)
    requires NoNewline(v)
    ensures
      (forall s: string :: NoNewline(s) ==> Match(WildcardItems("*" + v + "*"), s) == Contains(s, v)) <==>
      NoWildcard(v)
  {
    if NoWildcard(v) {
      forall s: string | NoNewline(s) ensures Match(WildcardItems("*" + v + "*"), s) == Contains(s, v) {
        WildcardIsContains(v, s);
      }
    } else {
      var s := Instance(v);
      var rest := WildcardItems(v) + [AnyRun];
      InstanceMatches(v);
      AroundItems(v);
      RunIsPrefix(rest, s);
      assert NoNewline(s[..0]) && s[0..] == s;
      assert !Contains(s, v);
      InstanceNoNewline(v);
    }
  }

  lemma {:induction false} InstanceNoNewline(v: string)
    requires NoNewline(v)
    ensures NoNewline(Instance(v))
  {
    if v != "" {
      assert forall i :: 0 <= i < |v| - 1 ==> v[1..][i] == v[i + 1];
      InstanceNoNewline(v[1..]);
      assert forall i :: 1 <= i < |v| ==> Instance(v)[i] == Instance(v[1..])[i - 1];
    }
  }

  // ----- clauses and whole queries

  lemma MethodQueryExact(search: TextSearch, re: Engine, e: StringExpr, d: Document)
    requires SupportedString(e) && NoNewline(d.verb)
    ensures Hits(search, BuildStringQuery("Method", e), d) == EvalString(re, e, d.verb)
  {
    hide Match;
    hide WildcardItems;
    hide Contains;
    if e.operator == "cont" || e.operator == "ncont" { WildcardIsContains(e.value, d.verb); }
    if e.operator == "ne" || e.operator == "ncont" {
      var q := BuildStringQuery("Method", StringExpr(e.value, if e.operator == "ne" then "eq" else "cont"));
      assert BuildStringQuery("Method", e) == Boolean([], [], 0, [q]);
      assert q in [q];
    }
  }

  lemma ConjunctionHits(search: TextSearch, must: seq<Bleve>, d: Document)
    requires must != []
    ensures Hits(search, Boolean(must, [], 0, []), d) <==> forall m | m in must :: Hits(search, m, d)
  {
  }

  lemma RequestClauseExact(search: TextSearch, re: Engine, r: RequestClause, f: Flow)
    requires SupportedRequest(r) && Covered(ReqQuery(r), f)
    ensures Hits(search, BuildReqQuery(r), IndexDocument(f)) == EvalRequest(re, r, f)
  {
    var d, port := IndexDocument(f), Atoi(f.request.value.port);
    hide Hits;
    hide BuildStringQuery;
    hide BuildIntQuery;
    hide EvalString;
    hide EvalInt;
    hide Atoi;
    hide Float64;
    hide Collides;
    var must := (if r.reqMethod.Some? then [BuildStringQuery("Method", r.reqMethod.value)] else []) +
                (if r.port.Some? then [BuildIntQuery("Port", r.port.value)] else []);
    assert BuildReqQuery(r) == Boolean(must, [], 0, []);
    ConjunctionHits(search, must, d);
    if r.reqMethod.Some? {
      MethodQueryExact(search, re, r.reqMethod.value, d);
      assert must[0] == BuildStringQuery("Method", r.reqMethod.value);
    }
    if r.port.Some? {
      IntQueryDiffersExactly(search, "Port", r.port.value, d, port.value);
      assert must[|must| - 1] == BuildIntQuery("Port", r.port.value);
    }
  }

  lemma ResponseClauseExact(search: TextSearch, re: Engine, r: ResponseClause, f: Flow)
    requires SupportedResponse(r) && Covered(RespQuery(r), f)
    ensures Hits(search, BuildRespQuery(r), IndexDocument(f)) == EvalResponse(re, r, f)
  {
    var d, s := IndexDocument(f), f.response.value;
    hide Hits;
    hide BuildIntQuery;
    hide EvalInt;
    hide Atoi;
    hide Float64;
    hide Collides;
    var must := (if r.statusCode.Some? then [BuildIntQuery("Status", r.statusCode.value)] else []) +
                (if r.length.Some? then [BuildIntQuery("RespLen", r.length.value)] else []);
    assert BuildRespQuery(r) == Boolean(must, [], 0, []);
    ConjunctionHits(search, must, d);
    if r.statusCode.Some? {
      IntQueryDiffersExactly(search, "Status", r.statusCode.value, d, s.statusCode);
      assert must[0] == BuildIntQuery("Status", r.statusCode.value);
    }
    if r.length.Some? {
      IntQueryDiffersExactly(search, "RespLen", r.length.value, d, s.body.value.size);
      assert must[|must| - 1] == BuildIntQuery("RespLen", r.length.value);
    }
  }

  lemma PairHits(search: TextSearch, a: Bleve, b: Bleve, d: Document)
    ensures Hits(search, Boolean([a, b], [], 0, []), d) == (Hits(search, a, d) && Hits(search, b, d))
    ensures Hits(search, Boolean([], [a, b], 1, []), d) == (Hits(search, a, d) || Hits(search, b, d))
  {
    var q := Boolean([a, b], [], 0, []);
    assert q.must[0] == a && q.must[1] == b;
    assert [a, b][1..] == [b] && [b][1..] == [];
    assert CountHits(search, [b], d) == if Hits(search, b, d) then 1 else 0;
  }

  /** On the supported fragment the compiled query returns a covered flow's document exactly when the
      query holds of the flow. */
  lemma {:induction false} SearchAgreesWithEval(search: TextSearch, re: Engine, q: Query, f: Flow)
    requires Supported(q) && Covered(q, f)
    ensures Hits(search, BuildBleveQuery(q), IndexDocument(f)) == Eval(re, q, f)
  {
    var d := IndexDocument(f);
    hide BuildReqQuery;
    hide BuildRespQuery;
    hide EvalRequest;
    hide EvalResponse;
    hide IndexDocument;
    if q.Query? {
      if q.and.Queries? {
        var a, b := q.and.subs[0], q.and.subs[1];
        SearchAgreesWithEval(search, re, a, f);
        SearchAgreesWithEval(search, re, b, f);
        PairHits(search, BuildBleveQuery(a), BuildBleveQuery(b), d);
        assert q.and.subs == [a, b];
        hide Hits;
      } else if q.or.Queries? {
        var a, b := q.or.subs[0], q.or.subs[1];
        SearchAgreesWithEval(search, re, a, f);
        SearchAgreesWithEval(search, re, b, f);
        PairHits(search, BuildBleveQuery(a), BuildBleveQuery(b), d);
        assert q.or.subs == [a, b];
        hide Hits;
      } else if q.req.Some? {
        RequestClauseExact(search, re, q.req.value, f);
      } else if q.resp.Some? {
        ResponseClauseExact(search, re, q.resp.value, f);
      }
    }
  }
}
