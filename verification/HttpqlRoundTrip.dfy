/** Printing an HTTPQL query and parsing the text again: what comes back, for every query the parser
    can build, and exactly when it is the query that was printed. */
module HttpqlRoundTrip {
  import opened Wrappers
  import opened Strings
  import opened HttpqlAst
  import opened HttpqlLexer
  import opened HttpqlSyntax

  // ----- the queries the parser can build

  /** An operator the lexer delivers unchanged: one lower-case identifier. */
  predicate IsWord(u: Unicode, w: string) {
    w != "" && IdentStart(u, w[0]) && forall i :: 0 <= i < |w| ==> IdentPart(u, w[i]) && LowerChar(u, w[i]) == w[i]
  }

  predicate IsGoInt(i: int) { -MAX_INT - 1 <= i <= MAX_INT }

  predicate RequestShape(u: Unicode, r: RequestClause) {
    if r.reqMethod.Some? then r == EMPTY_REQUEST.(reqMethod := r.reqMethod) && IsWord(u, r.reqMethod.value.operator)
    else if r.host.Some? then r == EMPTY_REQUEST.(host := r.host) && IsWord(u, r.host.value.operator)
    else if r.path.Some? then r == EMPTY_REQUEST.(path := r.path) && IsWord(u, r.path.value.operator)
    else if r.query.Some? then r == EMPTY_REQUEST.(query := r.query) && IsWord(u, r.query.value.operator)
    else if r.body.Some? then r == EMPTY_REQUEST.(body := r.body) && IsWord(u, r.body.value.operator)
    else if r.port.Some? then
      r == EMPTY_REQUEST.(port := r.port) && IsWord(u, r.port.value.operator) && IsGoInt(r.port.value.value)
    else r.isTls.Some? && IsWord(u, r.isTls.value.operator)
  }

  predicate ResponseShape(u: Unicode, r: ResponseClause) {
    if r.statusCode.Some? then
      r == EMPTY_RESPONSE.(statusCode := r.statusCode) && IsWord(u, r.statusCode.value.operator) &&
      IsGoInt(r.statusCode.value.value)
    else if r.body.Some? then r == EMPTY_RESPONSE.(body := r.body) && IsWord(u, r.body.value.operator)
    else r.length.Some? && IsWord(u, r.length.value.operator) && IsGoInt(r.length.value.value)
  }

  /** One clause with one field, or AND or OR of two such queries. */
  predicate Shape(u: Unicode, q: Query) {
    q.Query? &&
    if q.req.Some? then q == ReqQuery(q.req.value) && RequestShape(u, q.req.value)
    else if q.resp.Some? then q == RespQuery(q.resp.value) && ResponseShape(u, q.resp.value)
    else if q.and.Queries? then
      q.or == NilQueries && |q.and.subs| == 2 && Shape(u, q.and.subs[0]) && Shape(u, q.and.subs[1])
    else
      q.or.Queries? && |q.or.subs| == 2 && Shape(u, q.or.subs[0]) && Shape(u, q.or.subs[1])
  }

  lemma {:induction false} ShapePrintable(u: Unicode, q: Query)
    requires Shape(u, q)
    ensures Printable(q)
  {
    if q.and.Queries? {
      ShapePrintable(u, q.and.subs[0]);
      ShapePrintable(u, q.and.subs[1]);
      forall sub | sub in q.and.subs ensures Printable(sub) {
        assert sub == q.and.subs[0] || sub == q.and.subs[1];
      }
    } else if q.or.Queries? {
      ShapePrintable(u, q.or.subs[0]);
      ShapePrintable(u, q.or.subs[1]);
      forall sub | sub in q.or.subs ensures Printable(sub) {
        assert sub == q.or.subs[0] || sub == q.or.subs[1];
      }
    }
  }

  // ----- what comes back

  /** The value the lexer makes of a quoted value: the quotes are trimmed, the escapes stay. */
  function RereadValue(u: Unicode, v: string): string { TrimQuotes(Quote(u, v)) }

  function RereadString(u: Unicode, e: Option<StringExpr>): Option<StringExpr> {
    if e.Some? then Some(e.value.(value := RereadValue(u, e.value.value))) else None
  }

  function RereadRequest(u: Unicode, r: RequestClause): RequestClause {
    r.(reqMethod := RereadString(u, r.reqMethod), host := RereadString(u, r.host), path := RereadString(u, r.path),
       query := RereadString(u, r.query), body := RereadString(u, r.body))
  }

  function RereadResponse(u: Unicode, r: ResponseClause): ResponseClause { r.(body := RereadString(u, r.body)) }

  function Reread(u: Unicode, q: Query): Query
    requires Shape(u, q)
  {
    if q.req.Some? then ReqQuery(RereadRequest(u, q.req.value))
    else if q.resp.Some? then RespQuery(RereadResponse(u, q.resp.value))
    else if q.and.Queries? then AndQuery(Reread(u, q.and.subs[0]), Reread(u, q.and.subs[1]))
    else OrQuery(Reread(u, q.or.subs[0]), Reread(u, q.or.subs[1]))
  }

  predicate NonNegative(e: Option<IntExpr>) { e.Some? ==> e.value.value >= 0 }

  predicate NoNegativeInt(u: Unicode, q: Query)
    requires Shape(u, q)
  {
    if q.req.Some? then NonNegative(q.req.value.port)
    else if q.resp.Some? then NonNegative(q.resp.value.statusCode) && NonNegative(q.resp.value.length)
    else if q.and.Queries? then NoNegativeInt(u, q.and.subs[0]) && NoNegativeInt(u, q.and.subs[1])
    else NoNegativeInt(u, q.or.subs[0]) && NoNegativeInt(u, q.or.subs[1])
  }

  predicate PlainText(u: Unicode, s: string) { forall i :: 0 <= i < |s| ==> Plain(u, s[i]) }

  predicate PlainString(u: Unicode, e: Option<StringExpr>) { e.Some? ==> PlainText(u, e.value.value) }

  predicate PlainRequest(u: Unicode, r: RequestClause) {
    PlainString(u, r.reqMethod) && PlainString(u, r.host) && PlainString(u, r.path) &&
    PlainString(u, r.query) && PlainString(u, r.body)
  }

  /** Every string value consists of printable characters other than `"` and `\`. */
  predicate PlainValues(u: Unicode, q: Query)
    requires Shape(u, q)
  {
    if q.req.Some? then PlainRequest(u, q.req.value)
    else if q.resp.Some? then PlainString(u, q.resp.value.body)
    else if q.and.Queries? then PlainValues(u, q.and.subs[0]) && PlainValues(u, q.and.subs[1])
    else PlainValues(u, q.or.subs[0]) && PlainValues(u, q.or.subs[1])
  }

  // ----- quoting and trimming

  lemma {:induction false} QuoteBodyAppend(u: Unicode, a: string, b: string)
    ensures QuoteBody(u, a + b) == QuoteBody(u, a) + QuoteBody(u, b)
  {
    if a == "" {
      assert a + b == b;
    } else {
      assert (a + b)[1..] == a[1..] + b;
      QuoteBodyAppend(u, a[1..], b);
    }
  }

  lemma {:induction false} QuoteBodyLength(u: Unicode, s: string)
    ensures PlainText(u, s) ==> QuoteBody(u, s) == s
    ensures !PlainText(u, s) ==> |QuoteBody(u, s)| > |s|
    ensures |QuoteBody(u, s)| >= |s|
    ensures s != "" ==> QuoteBody(u, s) != "" && QuoteBody(u, s)[0] != '"'
  {
    if s != "" {
      QuoteBodyLength(u, s[1..]);
      assert PlainText(u, s) <==> Plain(u, s[0]) && PlainText(u, s[1..]) by {
        assert forall i :: 0 <= i < |s| - 1 ==> s[1..][i] == s[i + 1];
        assert forall i :: 1 <= i < |s| ==> s[i] == s[1..][i - 1];
      }
    }
  }

  lemma QuoteCharEnd(u: Unicode, c: char)
    ensures QuoteChar(u, c) != "" && (QuoteChar(u, c)[|QuoteChar(u, c)| - 1] == '"' <==> c == '"')
  {
  }

  lemma QuoteBodyOne(u: Unicode, c: char)
    ensures QuoteBody(u, [c]) == QuoteChar(u, c)
  {
    hide QuoteChar;
    assert [c][1..] == "";
    assert QuoteChar(u, c) + "" == QuoteChar(u, c);
  }

  lemma TrimLeftOnce(b: string)
    requires b == "" || b[0] != '"'
    ensures TrimLeft("\"" + (b + "\"")) == if b == "" then "" else b + "\""
  {
    assert ("\"" + (b + "\""))[1..] == b + "\"";
    if b == "" {
      assert b + "\"" == "\"" && "\""[1..] == "";
    }
  }

  lemma TrimRightOnce(b: string)
    ensures TrimRight(b + "\"") == TrimRight(b)
  {
    assert (b + "\"")[..|b|] == b;
  }

  /** Trimming removes exactly the outer quotes, and one more character when the value ends in a quote. */
  lemma RereadValueIs(u: Unicode, v: string)
    ensures
      RereadValue(u, v) ==
      if v != "" && v[|v| - 1] == '"' then QuoteBody(u, v[..|v| - 1]) + "\\" else QuoteBody(u, v)
  {
    var b := QuoteBody(u, v);
    QuoteBodyLength(u, v);
    TrimLeftOnce(b);
    TrimRightOnce(b);
    assert Quote(u, v) == "\"" + (b + "\"");
    assert RereadValue(u, v) == TrimRight(b);
    if v != "" {
      QuoteBodyLast(u, v);
      if v[|v| - 1] == '"' {
        var kept := QuoteBody(u, v[..|v| - 1]) + "\\";
        assert b == kept + "\"";
        TrimRightOnce(kept);
      }
    }
  }

  lemma QuoteBodyLast(u: Unicode, v: string)
    requires v != ""
    ensures QuoteBody(u, v) == QuoteBody(u, v[..|v| - 1]) + QuoteChar(u, v[|v| - 1])
    ensures QuoteBody(u, v) != "" && (QuoteBody(u, v)[|QuoteBody(u, v)| - 1] == '"' <==> v[|v| - 1] == '"')
  {
    hide QuoteBody;
    hide QuoteChar;
    var w, c := v[..|v| - 1], v[|v| - 1];
    assert v == w + [c];
    QuoteBodyAppend(u, w, [c]);
    QuoteBodyOne(u, c);
    QuoteCharEnd(u, c);
  }

  /** A printed value is read back unchanged exactly when none of its characters needed an escape. */
  lemma QuotedValueSurvives(u: Unicode, v: string)
    ensures RereadValue(u, v) == v <==> PlainText(u, v)
  {
    RereadValueIs(u, v);
    QuoteBodyLength(u, v);
    if v != "" && v[|v| - 1] == '"' {
      var r := QuoteBody(u, v[..|v| - 1]) + "\\";
      assert r[|r| - 1] == '\\';
    }
  }

  lemma RereadStringIdentity(u: Unicode, e: Option<StringExpr>)
    ensures RereadString(u, e) == e <==> PlainString(u, e)
  {
    if e.Some? { QuotedValueSurvives(u, e.value.value); }
  }

  lemma RereadRequestIdentity(u: Unicode, r: RequestClause)
    ensures RereadRequest(u, r) == r <==> PlainRequest(u, r)
  {
    RereadStringIdentity(u, r.reqMethod);
    RereadStringIdentity(u, r.host);
    RereadStringIdentity(u, r.path);
    RereadStringIdentity(u, r.query);
    RereadStringIdentity(u, r.body);
  }

  lemma {:induction false} RereadIdentity(u: Unicode, q: Query)
    requires Shape(u, q)
    ensures Reread(u, q) == q <==> PlainValues(u, q)
  {
    if q.req.Some? {
      RereadRequestIdentity(u, q.req.value);
    } else if q.resp.Some? {
      RereadStringIdentity(u, q.resp.value.body);
    } else if q.and.Queries? {
      RereadIdentity(u, q.and.subs[0]);
      RereadIdentity(u, q.and.subs[1]);
      assert q.and.subs == [q.and.subs[0], q.and.subs[1]];
    } else {
      RereadIdentity(u, q.or.subs[0]);
      RereadIdentity(u, q.or.subs[1]);
      assert q.or.subs == [q.or.subs[0], q.or.subs[1]];
    }
  }

  // ----- lexing printed text

  /** The text after a clause must not prolong its last token. */
  predicate Separated(u: Unicode, tail: string) { tail == "" || !IdentPart(u, tail[0]) }

  lemma LexToken(u: Unicode, lit: string, tail: string)
    requires lit != "" && !IsSpace(lit[0]) && TokenLength(u, lit + tail) == |lit|
    ensures Lex(u, lit + tail) == [Classify(u, lit)] + Lex(u, tail)
  {
    var s := lit + tail;
    assert SpaceRun(s) == 0 && s[0..] == s;
    assert s[..|lit|] == lit && s[|lit|..] == tail;
  }

  lemma LexSpace(u: Unicode, s: string)
    ensures Lex(u, " " + s) == Lex(u, s)
  {
    assert (" " + s)[1..] == s;
    assert SpaceRun(" " + s) == 1 + SpaceRun(s);
    assert (" " + s)[SpaceRun(" " + s)..] == s[SpaceRun(s)..];
  }

  lemma {:induction false} IdentRunAll(u: Unicode, w: string, tail: string)
    requires forall i :: 0 <= i < |w| ==> IdentPart(u, w[i])
    requires Separated(u, tail)
    ensures IdentRun(u, w + tail) == |w|
  {
    if w == "" {
      assert w + tail == tail;
    } else {
      assert (w + tail)[1..] == w[1..] + tail;
      IdentRunAll(u, w[1..], tail);
    }
  }

  lemma LexIdent(u: Unicode, w: string, tail: string)
    requires w != "" && IdentStart(u, w[0]) && forall i :: 0 <= i < |w| ==> IdentPart(u, w[i])
    requires Separated(u, tail)
    ensures Lex(u, w + tail) == [IdentToken(ToLower(u, w))] + Lex(u, tail)
  {
    assert (w + tail)[1..] == w[1..] + tail;
    IdentRunAll(u, w[1..], tail);
    LexToken(u, w, tail);
  }

  lemma LexWord(u: Unicode, w: string, tail: string)
    requires IsWord(u, w) && Separated(u, tail)
    ensures Lex(u, w + tail) == [IdentToken(w)] + Lex(u, tail)
  {
    LexIdent(u, w, tail);
    assert ToLower(u, w) == w;
  }

  lemma {:induction false} DecimalRunAll(u: Unicode, d: string, tail: string)
    requires AllDigits(d) && Separated(u, tail)
    ensures DecimalRun(d + tail) == |d|
  {
    if d == "" {
      assert d + tail == tail;
    } else {
      assert (d + tail)[1..] == d[1..] + tail;
      DecimalRunAll(u, d[1..], tail);
    }
  }

  lemma LexDigits(u: Unicode, n: nat, tail: string)
    requires Separated(u, tail)
    ensures Lex(u, Digits(n) + tail) == [Token(Int, Digits(n))] + Lex(u, tail)
  {
    var d := Digits(n);
    assert (d + tail)[1..] == d[1..] + tail;
    DecimalRunAll(u, d[1..], tail);
    LexToken(u, d, tail);
  }

  lemma {:induction false} HexDigitsAll(h: string, rest: string)
    requires forall i :: 0 <= i < |h| ==> '0' <= h[i] <= '9' || 'a' <= h[i] <= 'f'
    ensures HexDigits(h + rest, |h|) == |h|
  {
    if h != "" {
      assert (h + rest)[1..] == h[1..] + rest;
      HexDigitsAll(h[1..], rest);
    }
  }

  /** The scanner takes a hexadecimal escape exactly as far as %q wrote it. */
  lemma EscapeLengthHex(k: char, n: nat, width: nat, rest: string)
    requires (k == 'x' && width == 2) || (k == 'u' && width == 4) || (k == 'U' && width == 8)
    ensures EscapeLength([k] + Hex(n, width) + rest) == 1 + width
  {
    var t := [k] + Hex(n, width) + rest;
    assert t[1..] == Hex(n, width) + rest;
    HexDigitsAll(Hex(n, width), rest);
    hide Hex;
  }

  lemma EscapeLengthChar(u: Unicode, c: char, rest: string)
    requires !Plain(u, c)
    ensures EscapeLength(QuoteChar(u, c)[1..] + rest) == |QuoteChar(u, c)| - 1
  {
    var e := QuoteChar(u, c);
    if |e| > 2 {
      var width := |e| - 2;
      assert e[1..] == [e[1]] + Hex(c as int, width);
      EscapeLengthHex(e[1], c as int, width, rest);
    }
    hide Hex;
  }

  /** The scanner takes one quoted character as a unit. */
  lemma StringTailChar(u: Unicode, c: char, rest: string)
    ensures StringTail(QuoteChar(u, c) + rest) == |QuoteChar(u, c)| + StringTail(rest)
  {
    var e := QuoteChar(u, c);
    var s := e + rest;
    assert s[|e|..] == rest;
    if !Plain(u, c) {
      EscapeLengthChar(u, c, rest);
      assert s[1..] == e[1..] + rest;
      hide QuoteChar;
      hide EscapeLength;
    }
  }

  lemma {:induction false} StringTailBody(u: Unicode, v: string, tail: string)
    ensures StringTail(QuoteBody(u, v) + ("\"" + tail)) == |QuoteBody(u, v)| + 1
  {
    if v == "" {
      assert QuoteBody(u, v) + ("\"" + tail) == "\"" + tail;
    } else {
      var rest := QuoteBody(u, v[1..]) + ("\"" + tail);
      assert QuoteBody(u, v) + ("\"" + tail) == QuoteChar(u, v[0]) + rest;
      StringTailChar(u, v[0], rest);
      StringTailBody(u, v[1..], tail);
    }
  }

  lemma LexQuoted(u: Unicode, v: string, tail: string)
    ensures Lex(u, Quote(u, v) + tail) == [Token(Str, RereadValue(u, v))] + Lex(u, tail)
  {
    var q := Quote(u, v);
    assert (q + tail)[1..] == QuoteBody(u, v) + ("\"" + tail);
    StringTailBody(u, v, tail);
    LexToken(u, q, tail);
  }

  // ----- clauses

  /** The seven tokens of a clause. */
  function ClauseTokens(namespace: string, field: string, op: string, val: Token): seq<Token> {
    [IdentToken(namespace), Token(Dot, "."), IdentToken(field), Token(Dot, "."), IdentToken(op), Token(Colon, ":"), val]
  }

  lemma Assoc(a: string, b: string, c: string)
    ensures (a + b) + c == a + (b + c)
  {
  }

  lemma PrintFieldTail(namespace: string, field: string, op: string, value: string, tail: string)
    ensures
      PrintField(namespace, field, op + (":" + value)) + tail ==
      PrintField(namespace, field, op + (":" + (value + tail)))
  {
    var t5 := ":" + value;
    var t4 := op + t5;
    var t3 := "." + t4;
    var t2 := field + t3;
    Assoc(namespace, "." + t2, tail);
    Assoc(".", t2, tail);
    Assoc(field, t3, tail);
    Assoc(".", t4, tail);
    Assoc(op, t5, tail);
    Assoc(":", value, tail);
  }

  lemma LexPunct(u: Unicode, c: char, tail: string)
    requires c in {'.', ':', '(', ')', '-'}
    ensures Lex(u, [c] + tail) == [Classify(u, [c])] + Lex(u, tail)
  {
    LexToken(u, [c], tail);
  }

  lemma LexClauseHead(u: Unicode, namespace: string, field: string, op: string, val: Token, value: string,
                      rest: seq<Token>)
    requires IsWord(u, namespace) && IsWord(u, field) && IsWord(u, op)
    requires Lex(u, value) == [val] + rest
    ensures Lex(u, PrintField(namespace, field, op + (":" + value))) == ClauseTokens(namespace, field, op, val) + rest
  {
    hide Lex;
    hide IdentToken;
    hide IsWord;
    var t5 := ":" + value;
    var t4 := op + t5;
    var t3 := "." + t4;
    var t2 := field + t3;
    var t1 := "." + t2;
    LexPunct(u, ':', value);
    LexWord(u, op, t5);
    LexPunct(u, '.', t4);
    LexWord(u, field, t3);
    LexPunct(u, '.', t2);
    LexWord(u, namespace, t1);
  }

  lemma ParseClauseTokens(namespace: string, field: string, op: string, val: Token, rest: seq<Token>)
    requires IsNamespace(namespace)
    ensures
      var built := BuildClause(namespace, field, op, val.literal);
      ParseFactor(ClauseTokens(namespace, field, op, val) + rest) ==
      if built.Err? then Err(built.error) else Ok((built.value, rest))
  {
    hide BuildClause;
    var ts := ClauseTokens(namespace, field, op, val) + rest;
    assert Head(ts).literal == namespace && Head(ts).kind != LParen;
    var ts1 := Tail(ts);
    var ts2 := Tail(ts1);
    var ts3 := Tail(ts2);
    var ts4 := Tail(ts3);
    var ts5 := Tail(ts4);
    var ts6 := Tail(ts5);
    assert Head(ts1) == Token(Dot, ".") && Head(ts2).literal == field && Head(ts3) == Token(Dot, ".");
    assert Head(ts4).literal == op && Head(ts5) == Token(Colon, ":") && Head(ts6) == val;
    assert Tail(ts6) == rest;
  }

  lemma {:induction false} DigitsValueInverse(n: nat)
    ensures AllDigits(Digits(n)) && DigitsValue(Digits(n)) == n
  {
    var d := Digits(n);
    if n >= 10 {
      assert d[..|d| - 1] == Digits(n / 10);
      DigitsValueInverse(n / 10);
    } else {
      assert d[..0] == "";
    }
  }

  lemma AtoiPrinted(i: int)
    requires IsGoInt(i)
    ensures i >= 0 ==> Atoi(Digits(i)) == Some(i)
    ensures Atoi("-") == None
  {
    if i >= 0 {
      DigitsValueInverse(i);
    }
  }

  /** Parsing a printed clause: `val` is the token its value lexes to. */
  lemma ClauseFactor(u: Unicode, namespace: string, field: string, op: string, val: Token, value: string, tail: string,
                     rest: seq<Token>)
    requires IsNamespace(namespace) && IsWord(u, namespace) && IsWord(u, field) && IsWord(u, op)
    requires Lex(u, value + tail) == [val] + rest
    ensures
      var built := BuildClause(namespace, field, op, val.literal);
      ParseFactor(Lex(u, PrintField(namespace, field, op + (":" + value)) + tail)) ==
      if built.Err? then Err(built.error) else Ok((built.value, rest))
  {
    PrintFieldTail(namespace, field, op, value, tail);
    LexClauseHead(u, namespace, field, op, val, value + tail, rest);
    ParseClauseTokens(namespace, field, op, val, rest);
  }

  lemma StringClauseFactor(u: Unicode, namespace: string, field: string, e: StringExpr, tail: string)
    requires IsNamespace(namespace) && IsWord(u, namespace) && IsWord(u, field) && IsWord(u, e.operator)
    ensures
      var built := BuildClause(namespace, field, e.operator, RereadValue(u, e.value));
      ParseFactor(Lex(u, PrintField(namespace, field, PrintStringExpr(u, e)) + tail)) ==
      if built.Err? then Err(built.error) else Ok((built.value, Lex(u, tail)))
  {
    LexQuoted(u, e.value, tail);
    hide BuildClause;
    ClauseFactor(u, namespace, field, e.operator, Token(Str, RereadValue(u, e.value)), Quote(u, e.value), tail,
                 Lex(u, tail));
  }

  lemma IntClauseFactor(u: Unicode, namespace: string, field: string, e: IntExpr, tail: string)
    requires IsNamespace(namespace) && IsWord(u, namespace) && IsWord(u, field) && IsWord(u, e.operator)
    requires Separated(u, tail)
    ensures
      var built := BuildClause(namespace, field, e.operator, if e.value < 0 then "-" else Digits(e.value));
      var r := ParseFactor(Lex(u, PrintField(namespace, field, PrintIntExpr(e)) + tail));
      if built.Err? then r == Err(built.error)
      else r.Ok? && r.value.0 == built.value && (e.value >= 0 ==> r.value.1 == Lex(u, tail))
  {
    hide BuildClause;
    hide Lex;
    hide ParseFactor;
    hide Digits;
    hide PrintField;
    hide Separated;
    if e.value >= 0 {
      LexDigits(u, e.value, tail);
      ClauseFactor(u, namespace, field, e.operator, Token(Int, Digits(e.value)), Digits(e.value), tail, Lex(u, tail));
    } else {
      var rest := Digits(-e.value) + tail;
      LexPunct(u, '-', rest);
      Assoc("-", Digits(-e.value), tail);
      ClauseFactor(u, namespace, field, e.operator, Token(Ident, "-"), PrintInt(e.value), tail, Lex(u, rest));
    }
  }

  lemma BoolClauseFactor(u: Unicode, namespace: string, field: string, e: BoolExpr, tail: string)
    requires IsNamespace(namespace) && IsWord(u, namespace) && IsWord(u, field) && IsWord(u, e.operator)
    requires Separated(u, tail)
    ensures
      var built := BuildClause(namespace, field, e.operator, PrintBool(e.value));
      ParseFactor(Lex(u, PrintField(namespace, field, PrintBoolExpr(e)) + tail)) ==
      if built.Err? then Err(built.error) else Ok((built.value, Lex(u, tail)))
  {
    hide BuildClause;
    hide Lex;
    hide ParseFactor;
    hide PrintField;
    hide Separated;
    var w := PrintBool(e.value);
    assert IsWord(u, w);
    LexWord(u, w, tail);
    ClauseFactor(u, namespace, field, e.operator, IdentToken(w), w, tail, Lex(u, tail));
  }

  /** What parsing the printed form of `q`, followed by `tail`, must deliver. */
  ghost predicate Recovers(u: Unicode, q: Query, r: Parsed, tail: string)
    requires Shape(u, q)
  {
    if NoNegativeInt(u, q) then r == Ok((Reread(u, q), Lex(u, tail))) else r.Err?
  }

  /** The printed form ends in an integer or a boolean, which a letter or a digit after it would prolong. */
  predicate EndsInWord(q: Query) {
    q.Query? &&
    if q.req.Some? then
      var r := q.req.value;
      r.reqMethod.None? && r.host.None? && r.path.None? && r.query.None? && r.body.None?
    else q.resp.Some? && (q.resp.value.statusCode.Some? || q.resp.value.body.None?)
  }

  /** What may follow the printed form: anything after a quoted value or a parenthesis. */
  predicate Follows(u: Unicode, q: Query, tail: string) { EndsInWord(q) ==> Separated(u, tail) }

  lemma RequestFactor(u: Unicode, q: Query, tail: string)
    requires Shape(u, q) && q.req.Some? && Follows(u, q, tail)
    ensures Recovers(u, q, ParseFactor(Lex(u, PrintRequest(u, q.req.value) + tail)), tail)
  {
    hide Lex;
    hide ParseFactor;
    hide PrintField;
    hide RereadValue;
    hide Digits;
    hide Separated;
    var r := q.req.value;
    assert IsWord(u, "req");
    if r.reqMethod.Some? {
      assert IsWord(u, "method");
      StringClauseFactor(u, "req", "method", r.reqMethod.value, tail);
    } else if r.host.Some? {
      assert IsWord(u, "host");
      StringClauseFactor(u, "req", "host", r.host.value, tail);
    } else if r.path.Some? {
      assert IsWord(u, "path");
      StringClauseFactor(u, "req", "path", r.path.value, tail);
    } else if r.query.Some? {
      assert IsWord(u, "query");
      StringClauseFactor(u, "req", "query", r.query.value, tail);
    } else if r.body.Some? {
      assert IsWord(u, "body");
      StringClauseFactor(u, "req", "body", r.body.value, tail);
    } else if r.port.Some? {
      assert IsWord(u, "port");
      IntClauseFactor(u, "req", "port", r.port.value, tail);
      AtoiPrinted(r.port.value.value);
    } else {
      assert IsWord(u, "tls");
      BoolClauseFactor(u, "req", "tls", r.isTls.value, tail);
    }
  }

  lemma ResponseFactor(u: Unicode, q: Query, tail: string)
    requires Shape(u, q) && q.req.None? && q.resp.Some? && Follows(u, q, tail)
    ensures Recovers(u, q, ParseFactor(Lex(u, PrintResponse(u, q.resp.value) + tail)), tail)
  {
    hide Lex;
    hide ParseFactor;
    hide PrintField;
    hide RereadValue;
    hide Digits;
    hide Separated;
    var r := q.resp.value;
    assert IsWord(u, "resp");
    if r.statusCode.Some? {
      assert IsWord(u, "code");
      IntClauseFactor(u, "resp", "code", r.statusCode.value, tail);
      AtoiPrinted(r.statusCode.value.value);
    } else if r.body.Some? {
      assert IsWord(u, "body");
      StringClauseFactor(u, "resp", "body", r.body.value, tail);
    } else {
      assert IsWord(u, "len");
      IntClauseFactor(u, "resp", "len", r.length.value, tail);
      AtoiPrinted(r.length.value.value);
    }
  }

  // ----- whole queries

  lemma PrintPairTail(left: string, word: string, right: string, tail: string)
    ensures
      PrintPair(left, word, right) + tail ==
      "(" + (left + (" " + (word + (" " + (right + (")" + tail))))))
  {
    var t4 := right + ")";
    var t3 := " " + t4;
    var t2 := word + t3;
    var t1 := " " + t2;
    Assoc("(", left + t1, tail);
    Assoc(left, t1, tail);
    Assoc(" ", t2, tail);
    Assoc(word, t3, tail);
    Assoc(" ", t4, tail);
    Assoc(right, ")", tail);
  }

  function Connective(word: string): Token { if word == "AND" then Token(And, "and") else Token(Or, "or") }

  lemma LexConnective(u: Unicode, word: string, tail: string)
    requires word == "AND" || word == "OR"
    ensures Lex(u, " " + (word + (" " + tail))) == [Connective(word)] + Lex(u, tail)
  {
    hide Lex;
    var t := " " + tail;
    LexSpace(u, word + t);
    LexIdent(u, word, t);
    LexSpace(u, tail);
    assert ToLower(u, word) == if word == "AND" then "and" else "or";
  }

  function Join(word: string, left: Query, right: Query): Query {
    if word == "AND" then AndQuery(left, right) else OrQuery(left, right)
  }

  /** A parenthesised pair parses when both operands do; `l` and `r` are what they parse to. */
  lemma ParsePair(word: string, ts: seq<Token>, l: Parsed, r: Parsed, rest: seq<Token>)
    requires ts != [] && ts[0].kind == LParen && (word == "AND" || word == "OR")
    requires ParseFactor(Tail(ts)) == l
    requires l.Ok? ==> l.value.1 != [] && l.value.1[0] == Connective(word) && ParseFactor(Tail(l.value.1)) == r
    requires r.Ok? ==> r.value.1 == [Token(RParen, ")")] + rest
    ensures
      ParseFactor(ts) ==
      if l.Err? then l else if r.Err? then r else Ok((Join(word, l.value.0, r.value.0), rest))
  {
    if l.Ok? {
      var inner := Tail(ts);
      if word == "AND" {
        if r.Ok? {
          assert Tail(r.value.1) == rest;
          var node := AndQuery(l.value.0, r.value.0);
          assert AndLoop(node, r.value.1) == Ok((node, r.value.1));
          assert OrLoop(node, r.value.1) == Ok((node, r.value.1));
        }
        assert ParseAnd(inner) == AndLoop(l.value.0, l.value.1);
      } else {
        if r.Ok? {
          assert Tail(r.value.1) == rest;
          var node := OrQuery(l.value.0, r.value.0);
          assert AndLoop(r.value.0, r.value.1) == Ok((r.value.0, r.value.1));
          assert OrLoop(node, r.value.1) == Ok((node, r.value.1));
        }
        assert AndLoop(l.value.0, l.value.1) == Ok((l.value.0, l.value.1));
        assert ParseAnd(inner) == l;
        assert ParseAnd(Tail(l.value.1)) == r;
      }
      assert ParseOr(inner) == if r.Err? then r else Ok((Join(word, l.value.0, r.value.0), r.value.1));
    } else {
      assert ParseAnd(Tail(ts)) == l;
    }
  }

  /** A factor that no connective follows is the whole query. */
  lemma ParseLoneFactor(ts: seq<Token>)
    requires
      var r := ParseFactor(ts);
      r.Ok? ==> Head(r.value.1).kind != And && Head(r.value.1).kind != Or
    ensures ParseOr(ts) == ParseFactor(ts)
  {
    var r := ParseFactor(ts);
    if r.Ok? {
      assert AndLoop(r.value.0, r.value.1) == r;
      assert OrLoop(r.value.0, r.value.1) == r;
    }
    assert ParseAnd(ts) == r;
  }

  lemma {:induction false} FactorRoundTrip(u: Unicode, q: Query, tail: string)
    requires Shape(u, q) && Printable(q) && Follows(u, q, tail)
    ensures Recovers(u, q, ParseFactor(Lex(u, Print(u, q) + tail)), tail)
    decreases q, 1
  {
    hide Lex;
    hide ParseFactor;
    hide PrintPair;
    hide Separated;
    if q.req.Some? {
      RequestFactor(u, q, tail);
    } else if q.resp.Some? {
      ResponseFactor(u, q, tail);
    } else if q.and.Queries? {
      PairRoundTrip(u, q, q.and.subs[0], q.and.subs[1], "AND", tail);
    } else {
      PairRoundTrip(u, q, q.or.subs[0], q.or.subs[1], "OR", tail);
    }
  }

  lemma {:induction false} PairRoundTrip(u: Unicode, q: Query, a: Query, b: Query, word: string, tail: string)
    requires Shape(u, a) && Shape(u, b) && Printable(a) && Printable(b)
    requires word == "AND" || word == "OR"
    requires a < q && b < q
    ensures
      var r := ParseFactor(Lex(u, PrintPair(Print(u, a), word, Print(u, b)) + tail));
      if NoNegativeInt(u, a) && NoNegativeInt(u, b) then r == Ok((Join(word, Reread(u, a), Reread(u, b)), Lex(u, tail)))
      else r.Err?
    decreases q, 0
  {
    hide Lex;
    hide Print;
    hide ParseFactor;
    hide Shape;
    hide Printable;
    hide NoNegativeInt;
    hide Reread;
    hide PrintPair;
    hide EndsInWord;
    var t3 := ")" + tail;
    var t2 := Print(u, b) + t3;
    var t1 := " " + (word + (" " + t2));
    var t0 := Print(u, a) + t1;
    PrintPairTail(Print(u, a), word, Print(u, b), tail);
    LexPunct(u, '(', t0);
    FactorRoundTrip(u, a, t1);
    LexConnective(u, word, t2);
    FactorRoundTrip(u, b, t3);
    LexPunct(u, ')', tail);
    ParsePair(word, Lex(u, "(" + t0), ParseFactor(Lex(u, t0)), ParseFactor(Lex(u, t2)), Lex(u, tail));
  }

  /** Parsing what was printed gives `Reread(q)` and leaves exactly the tokens of the following text;
      a negative integer anywhere in the query makes the parse fail. */
  lemma PrintedQueryParses(u: Unicode, q: Query, tail: string)
    requires Shape(u, q) && Follows(u, q, tail)
    requires Head(Lex(u, tail)).kind != And && Head(Lex(u, tail)).kind != Or
    ensures Printable(q)
    ensures Recovers(u, q, ParseOr(Lex(u, Print(u, q) + tail)), tail)
  {
    ShapePrintable(u, q);
    FactorRoundTrip(u, q, tail);
    hide Lex;
    hide Print;
    hide Shape;
    hide ParseFactor;
    hide ParseOr;
    hide NoNegativeInt;
    hide Reread;
    ParseLoneFactor(Lex(u, Print(u, q) + tail));
  }

  /** The round trip is the identity exactly on the queries whose values need no escape and whose
      integers are not negative. */
  lemma RoundTripExactly(u: Unicode, q: Query, tail: string)
    requires Shape(u, q) && Follows(u, q, tail)
    requires Head(Lex(u, tail)).kind != And && Head(Lex(u, tail)).kind != Or
    ensures Printable(q)
    ensures
      ParseOr(Lex(u, Print(u, q) + tail)) == Ok((q, Lex(u, tail))) <==>
      PlainValues(u, q) && NoNegativeInt(u, q)
  {
    PrintedQueryParses(u, q, tail);
    RereadIdentity(u, q);
    hide Lex;
    hide Print;
    hide Shape;
    hide ParseOr;
    hide NoNegativeInt;
    hide Reread;
    hide PlainValues;
  }
}
