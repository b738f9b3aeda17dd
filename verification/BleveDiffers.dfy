/** Where searching the index (storage/query_builder.go, storage/service.go) and evaluating the query
    (httpql/eval.go) do not give the same answer, and exactly when they do. */
module BleveDiffers {
  import opened Wrappers
  import opened Strings
  import opened HttpqlAst
  import opened HttpqlSyntax
  import opened HttpqlEval
  import opened LikePattern
  import opened Rounding
  import opened BleveQuery
  import HttpqlRoundTrip

  ghost predicate Agree(search: TextSearch, re: Engine, c: RequestClause, f: Flow)
    requires f.request.Some?
  {
    Hits(search, BuildReqQuery(c), IndexDocument(f)) == EvalRequest(re, c, f)
  }

  // ----- ports

  function PortClause(e: IntExpr): RequestClause { EMPTY_REQUEST.(port := Some(e)) }

  lemma PortClauseHits(search: TextSearch, e: IntExpr, f: Flow)
    requires f.request.Some?
    ensures
      var d := IndexDocument(f);
      Hits(search, BuildReqQuery(PortClause(e)), d) == Hits(search, BuildIntQuery("Port", e), d)
  {
    var q := BuildIntQuery("Port", e);
    hide BuildIntQuery;
    hide IndexDocument;
    assert BuildReqQuery(PortClause(e)) == Boolean([q], [], 0, []);
    hide Hits;
    ConjunctionHits(search, [q], IndexDocument(f));
    assert [q][0] == q;
  }

  /** `e` does not tell `x` and the larger `y` apart. */
  predicate SameSide(e: IntExpr, x: int, y: int) {
    if e.operator in {"eq", "ne"} then e.value != x && e.value != y
    else if e.operator in {"gt", "lte"} then e.value < x || y <= e.value
    else e.value <= x || y < e.value
  }

  /** With a port in the URL that is a number other than 0, index and evaluator agree exactly when it does not
      collide with the query value. With no port, port 0, or one that does not fit an int, the index holds 0
      and the evaluator takes the scheme's port or the largest int; they agree exactly when the clause does not
      tell these apart. */
  lemma PortClauseExactly(search: TextSearch, re: Engine, e: IntExpr, f: Flow)
    requires f.request.Some? && SupportedInt(e)
    ensures
      var r := f.request.value;
      Agree(search, re, PortClause(e), f) <==>
      var tooLong := r.port != "" && AllDigits(r.port) && Atoi(r.port).None?;
      if Atoi(r.port).Some? && Atoi(r.port).value != 0 then !Collides(e, Atoi(r.port).value)
      else SameSide(e, 0, if tooLong then MAX_INT else if r.scheme == "https" then 443 else 80)
  {
    var r, d := f.request.value, IndexDocument(f);
    PortClauseHits(search, e, f);
    IntQueryDiffersExactly(search, "Port", e, d, d.port);
    if !ExplicitPort(r) {
      SmallNeverCollides(e, 0);
    }
    hide Hits;
    hide BuildIntQuery;
    hide BuildReqQuery;
    hide Float64;
    hide Atoi;
    hide AllDigits;
  }

  /** A URL with port 9007199254740992 is found by `req.port.eq:9007199254740993`. */
  lemma LargePortsCollide(search: TextSearch, re: Engine, f: Flow)
    requires f.request.Some? && f.request.value.port == Digits(TWO_53)
    ensures
      var c := PortClause(IntExpr(TWO_53 + 1, "eq"));
      Hits(search, BuildReqQuery(c), IndexDocument(f)) && !EvalRequest(re, c, f)
  {
    var e := IntExpr(TWO_53 + 1, "eq");
    HttpqlRoundTrip.AtoiPrinted(TWO_53);
    FirstCollision();
    PortClauseExactly(search, re, e, f);
    hide Hits;
    hide BuildReqQuery;
    hide Float64;
    hide Atoi;
    hide Digits;
    hide AllDigits;
  }

  // ----- TLS

  /** A clause on `tls` alone compiles to a query without parts and finds nothing: it agrees with the
      evaluator exactly on the flows the clause excludes. */
  lemma TlsAloneExactly(search: TextSearch, re: Engine, e: BoolExpr, f: Flow)
    requires f.request.Some?
    ensures
      var https := f.request.value.scheme == "https";
      Agree(search, re, EMPTY_REQUEST.(isTls := Some(e)), f) <==>
      (e.operator == "eq" ==> e.value != https) && (e.operator == "ne" ==> e.value == https)
  {
    hide IndexDocument;
  }

  /** Beside other fields the condition on `tls` is dropped: they agree exactly when the flow meets it or
      fails the others. */
  lemma TlsDroppedExactly(search: TextSearch, re: Engine, r: RequestClause, f: Flow)
    requires r.isTls.Some? && SupportedRequest(r.(isTls := None)) && Covered(ReqQuery(r.(isTls := None)), f)
    ensures
      Agree(search, re, r, f) <==>
      (EvalRequest(re, r.(isTls := None), f) ==> EvalBool(r.isTls.value, f.request.value.scheme == "https"))
  {
    var plain := r.(isTls := None);
    RequestClauseExact(search, re, plain, f);
    hide Hits;
    hide IndexDocument;
    hide EvalString;
    hide EvalInt;
    hide BuildStringQuery;
    hide BuildIntQuery;
    assert BuildReqQuery(r) == BuildReqQuery(plain);
  }

  // ----- dropped operators

  datatype TextField = Method | Host | Path | Query | Body

  function LoneClause(k: TextField, e: StringExpr): RequestClause {
    match k
    case Method => EMPTY_REQUEST.(reqMethod := Some(e))
    case Host => EMPTY_REQUEST.(host := Some(e))
    case Path => EMPTY_REQUEST.(path := Some(e))
    case Query => EMPTY_REQUEST.(query := Some(e))
    case Body => EMPTY_REQUEST.(body := Some(e))
  }

  /** What the evaluator compares; None for a body that does not decode. */
  function FieldText(k: TextField, r: FlowRequest): Option<string> {
    match k
    case Method => Some(r.verb)
    case Host => Some(r.hostname)
    case Path => Some(r.path)
    case Query => Some(r.rawQuery)
    case Body => if r.body.Some? then Some(r.body.value.text) else None
  }

  // ----- fields whose search is the library's

  function IndexField(k: TextField): string {
    match k
    case Method => "Method"
    case Host => "Host"
    case Path => "Path"
    case Query => "Query"
    case Body => "ReqBody"
  }

  /** What the library is asked about one field of a document: whole words for `eq` and `cont`, of the phrase for
      `cont`, and a regular expression for `like` and `regex`; a negated operator asks the same. */
  function Asked(name: string, op: string, v: string): Bleve {
    match op
    case "eq" => MatchText(name, v)
    case "ne" => MatchText(name, v)
    case "cont" => MatchPhrase(name, v)
    case "ncont" => MatchPhrase(name, v)
    case "like" => Regexp(name, ConvertLikeToRegex(v))
    case _ => Regexp(name, v)
  }

  lemma LoneQuery(search: TextSearch, q: Bleve, d: Document)
    ensures Hits(search, Boolean([q], [], 0, []), d) <==> Hits(search, q, d)
    ensures Hits(search, Boolean([], [], 0, [q]), d) <==> !Hits(search, q, d)
  {
    assert [q][0] == q && q in [q];
  }

  lemma StringQueryAsks(search: TextSearch, name: string, op: string, v: string, d: Document)
    requires op in {"eq", "ne", "cont", "ncont", "like", "regex"} && (name == "Method" ==> op in {"like", "regex"})
    ensures
      Hits(search, BuildStringQuery(name, StringExpr(v, op)), d) <==>
      if op in {"ne", "ncont"} then !search(Asked(name, op, v), d) else search(Asked(name, op, v), d)
  {
    var asked := Asked(name, op, v);
    assert Hits(search, asked, d) == search(asked, d);
    LoneQuery(search, asked, d);
    hide ConvertLikeToRegex;
    assert BuildStringQuery(name, StringExpr(v, op)) ==
           if op in {"ne", "ncont"} then Boolean([], [], 0, [asked]) else asked;
    hide Hits;
  }

  /** A text clause other than on the method asks the library about the field of its name, by the query of its
      operator, and `ne` and `ncont` hold exactly where that does not; `like` and `regex` on the method do too. The
      document has each part of the flow in the field that clauses on it ask about. */
  lemma TextClauseAsks(search: TextSearch, k: TextField, op: string, v: string, f: Flow)
    requires f.request.Some? && op in {"eq", "ne", "cont", "ncont", "like", "regex"}
    requires k == Method ==> op in {"like", "regex"}
    ensures
      var d, r := IndexDocument(f), f.request.value;
      (Hits(search, BuildReqQuery(LoneClause(k, StringExpr(v, op))), d) <==>
       if op in {"ne", "ncont"} then !search(Asked(IndexField(k), op, v), d)
       else search(Asked(IndexField(k), op, v), d)) &&
      d.verb == r.verb && d.host == r.hostname && d.path == r.path && d.query == r.rawQuery &&
      d.reqBody == (if r.body.Some? then r.body.value.text else "")
  {
    var d, name := IndexDocument(f), IndexField(k);
    var q := BuildStringQuery(name, StringExpr(v, op));
    assert BuildReqQuery(LoneClause(k, StringExpr(v, op))) == Boolean([q], [], 0, []) by {
      hide BuildStringQuery;
    }
    LoneQuery(search, q, d);
    StringQueryAsks(search, name, op, v, d);
    hide ConvertLikeToRegex;
    hide BuildStringQuery;
    hide Asked;
    hide Hits;
  }

  /** The same for the body of a response. */
  lemma ResponseBodyAsks(search: TextSearch, op: string, v: string, f: Flow)
    requires f.request.Some? && op in {"eq", "ne", "cont", "ncont", "like", "regex"}
    ensures
      var d := IndexDocument(f);
      var asked := search(Asked("ResBody", op, v), d);
      (Hits(search, BuildRespQuery(EMPTY_RESPONSE.(body := Some(StringExpr(v, op)))), d) <==>
       if op in {"ne", "ncont"} then !asked else asked) &&
      d.resBody == if f.response.Some? && f.response.value.body.Some? then f.response.value.body.value.text else ""
  {
    var d := IndexDocument(f);
    var q := BuildStringQuery("ResBody", StringExpr(v, op));
    assert BuildRespQuery(EMPTY_RESPONSE.(body := Some(StringExpr(v, op)))) == Boolean([q], [], 0, []) by {
      hide BuildStringQuery;
    }
    LoneQuery(search, q, d);
    StringQueryAsks(search, "ResBody", op, v, d);
    hide ConvertLikeToRegex;
    hide BuildStringQuery;
    hide Asked;
    hide Hits;
  }

  /** `nlike` and `nregex` are dropped for every field and the clause finds every document: it agrees with the
      evaluator exactly where the pattern does not match. */
  lemma NegatedPatternExactly(search: TextSearch, re: Engine, k: TextField, op: string, v: string, f: Flow)
    requires f.request.Some? && op in {"nlike", "nregex"}
    ensures
      var text := FieldText(k, f.request.value);
      var pattern := if op == "nlike" then ConvertLikeToRegex(v) else v;
      Agree(search, re, LoneClause(k, StringExpr(v, op)), f) <==> text.Some? ==> !re(pattern, text.value)
  {
    hide IndexDocument;
    hide ConvertLikeToRegex;
    assert BuildReqQuery(LoneClause(k, StringExpr(v, op))) == Boolean([MatchAll], [], 0, []);
    ConjunctionHits(search, [MatchAll], IndexDocument(f));
  }
}
