/** The HTTPQL grammar as derivation trees (httpql/parser.go: Query = Term { OR Term }, Term = Factor { AND Factor },
    Factor = ( Query ) | Clause), and exactly which token lists the parser accepts. */
module HttpqlGrammar {
  import opened Wrappers
  import opened HttpqlAst
  import opened HttpqlLexer
  import opened HttpqlSyntax

  datatype Tree =
    | ClauseT(toks: seq<Token>)
    | ParenT(open: Token, inner: Tree, shut: Token)
    | AndT(left: Tree, op: Token, right: Tree)
    | OrT(left: Tree, op: Token, right: Tree)

  /** The tokens a tree derives. */
  function Yield(t: Tree): seq<Token> {
    match t
    case ClauseT(toks) => toks
    case ParenT(open, inner, shut) => [open] + (Yield(inner) + [shut])
    case AndT(l, op, r) => Yield(l) + ([op] + Yield(r))
    case OrT(l, op, r) => Yield(l) + ([op] + Yield(r))
  }

  /** `namespace . field . operator : value`; a value missing at the end of the input is the empty text. */
  predicate ClauseTokens(toks: seq<Token>) {
    6 <= |toks| <= 7 && IsNamespace(toks[0].literal) && toks[0].kind != LParen && toks[1].kind == Dot &&
    toks[3].kind == Dot && toks[5].kind == Colon && BuiltFrom(toks).Ok?
  }

  function BuiltFrom(toks: seq<Token>): Result<Query, ParseError>
    requires 6 <= |toks| <= 7
  {
    BuildClause(toks[0].literal, toks[2].literal, toks[4].literal, if |toks| == 7 then toks[6].literal else "")
  }

  predicate IsFactor(t: Tree)
    decreases t, 0
  {
    match t
    case ClauseT(toks) => ClauseTokens(toks)
    case ParenT(open, inner, shut) => open.kind == LParen && shut.kind == RParen && IsExpr(inner)
    case _ => false
  }

  predicate IsTerm(t: Tree)
    decreases t, 1
  {
    if t.AndT? then t.op.kind == TokenType.And && IsTerm(t.left) && IsFactor(t.right) else IsFactor(t)
  }

  predicate IsExpr(t: Tree)
    decreases t, 2
  {
    if t.OrT? then t.op.kind == TokenType.Or && IsExpr(t.left) && IsTerm(t.right) else IsTerm(t)
  }

  function QueryOf(t: Tree): Query {
    match t
    case ClauseT(toks) => if ClauseTokens(toks) then BuiltFrom(toks).value else NilQuery
    case ParenT(_, inner, _) => QueryOf(inner)
    case AndT(l, _, r) => AndQuery(QueryOf(l), QueryOf(r))
    case OrT(l, _, r) => OrQuery(QueryOf(l), QueryOf(r))
  }

  /** Every clause has its value. */
  predicate Complete(t: Tree) {
    match t
    case ClauseT(toks) => |toks| == 7
    case ParenT(_, inner, _) => Complete(inner)
    case AndT(l, _, r) => Complete(l) && Complete(r)
    case OrT(l, _, r) => Complete(l) && Complete(r)
  }

  /** Every clause but one at the very end has its value. */
  predicate CompleteToEnd(t: Tree) {
    match t
    case ClauseT(_) => true
    case ParenT(_, inner, _) => Complete(inner)
    case AndT(l, _, r) => Complete(l) && CompleteToEnd(r)
    case OrT(l, _, r) => Complete(l) && CompleteToEnd(r)
  }

  /** A value can be missing only where the input ends. */
  predicate Fits(t: Tree, rest: seq<Token>) { Complete(t) || (rest == [] && CompleteToEnd(t)) }

  /** `t` derives what `ts` has before `rest`. */
  predicate Derives(t: Tree, ts: seq<Token>, rest: seq<Token>) {
    IsExpr(t) && ts == Yield(t) + rest && Fits(t, rest)
  }

  /** No connective follows. */
  predicate Stops(rest: seq<Token>) { Head(rest).kind != TokenType.And && Head(rest).kind != TokenType.Or }

  // ----- which clauses can be built

  /** A clause is built exactly for the fields of its namespace, and a number is one with a value that reads as an
      int; otherwise the error names the value or the field. */
  lemma ClauseBuildsExactly(namespace: string, field: string, op: string, val: string)
    ensures
      var texts := if namespace == "req" then {"method", "host", "path", "query", "tls", "body", "raw", "ext"}
                   else {"body", "raw"};
      var numbers := if namespace == "req" then {"port"} else {"code", "len"};
      var r := BuildClause(namespace, field, op, val);
      (r.Ok? <==> field in texts || (field in numbers && Atoi(val).Some?)) &&
      (field in numbers && Atoi(val).None? ==> r == Err(BadInt(val))) &&
      (field !in texts && field !in numbers ==>
         r == Err(if namespace == "req" then UnknownReqField(field) else UnknownRespField(field)))
  {
    hide Atoi;
  }

  /** A text reads as an int exactly when it is digits after at most one sign, and the number fits. */
  lemma AtoiExactly(d: string)
    ensures
      AllDigits(d) && d != "" ==>
        var n: int := DigitsValue(d);
        (Atoi(d) == if n <= MAX_INT then Some(n) else None) &&
        (Atoi("+" + d) == if n <= MAX_INT then Some(n) else None) &&
        (Atoi("-" + d) == if n <= MAX_INT + 1 then Some(-n) else None)
    ensures !AllDigits(d) || d == "" ==> Atoi("+" + d) == None && Atoi("-" + d) == None
    ensures (!AllDigits(d) && d[0] != '+' && d[0] != '-') || d == "" ==> Atoi(d) == None
  {
    hide DigitsValue;
    assert ("+" + d)[1..] == d && ("-" + d)[1..] == d;
    if d != "" && AllDigits(d) {
      assert IsDecimal(d[0]);
    }
  }

  /** The token at a place; past the end it is the end token. */
  function TokenAt(ts: seq<Token>, i: nat): Token { if i < |ts| then ts[i] else EOF }

  /** A clause fails at the first of its places that does not fit, with an error that shows what stands there. */
  lemma ClauseFailsExactly(ts: seq<Token>)
    ensures
      var r, literal := ParseClause(ts), (i: nat) => TokenAt(ts, i).literal;
      var namespaceOk, dotOk := IsNamespace(literal(0)), TokenAt(ts, 1).kind == Dot;
      var secondDotOk, colonOk := TokenAt(ts, 3).kind == Dot, TokenAt(ts, 5).kind == Colon;
      (!namespaceOk ==> r == Err(ExpectedNamespace(literal(0)))) &&
      (namespaceOk && !dotOk ==> r == Err(ExpectedDot(literal(1)))) &&
      (namespaceOk && dotOk && !secondDotOk ==> r == Err(ExpectedDotAfterField(literal(3)))) &&
      (namespaceOk && dotOk && secondDotOk && !colonOk ==> r == Err(ExpectedColon(literal(5)))) &&
      (namespaceOk && dotOk && secondDotOk && colonOk ==>
         var built := BuildClause(literal(0), literal(2), literal(4), literal(6));
         if built.Err? then r == Err(built.error) else r.Ok? && r.value.0 == built.value)
  {
    hide BuildClause;
    var ts1 := Tail(ts);
    var ts2 := Tail(ts1);
    var ts3 := Tail(ts2);
    var ts4 := Tail(ts3);
    var ts5 := Tail(ts4);
    var ts6 := Tail(ts5);
    assert Head(ts) == TokenAt(ts, 0) && Head(ts1) == TokenAt(ts, 1) && Head(ts2) == TokenAt(ts, 2);
    assert Head(ts3) == TokenAt(ts, 3) && Head(ts4) == TokenAt(ts, 4) && Head(ts5) == TokenAt(ts, 5);
    assert Head(ts6) == TokenAt(ts, 6);
  }

  // ----- every derivation is parsed

  lemma ClauseParsed(toks: seq<Token>, rest: seq<Token>)
    requires ClauseTokens(toks) && (|toks| == 7 || rest == [])
    ensures ParseFactor(toks + rest) == Ok((BuiltFrom(toks).value, rest))
  {
    var ts := toks + rest;
    var ts1 := Tail(ts);
    var ts2 := Tail(ts1);
    var ts3 := Tail(ts2);
    var ts4 := Tail(ts3);
    var ts5 := Tail(ts4);
    var ts6 := Tail(ts5);
    hide BuildClause;
    assert Head(ts) == toks[0] && Head(ts1) == toks[1] && Head(ts2) == toks[2] && Head(ts3) == toks[3];
    assert Head(ts4) == toks[4] && Head(ts5) == toks[5];
    assert Tail(ts6) == rest;
  }

  lemma Regroup(a: seq<Token>, op: Token, b: seq<Token>, rest: seq<Token>)
    ensures a + ([op] + b) + rest == a + ([op] + (b + rest)) && ([op] + (b + rest))[1..] == b + rest
    ensures [op] + (b + rest) != [] && ([op] + (b + rest))[0] == op
  {
  }

  lemma AndParts(t: Tree, rest: seq<Token>)
    requires t.AndT? && IsTerm(t) && Fits(t, rest)
    ensures IsTerm(t.left) && IsFactor(t.right) && t.op.kind == TokenType.And
    ensures forall more :: Fits(t.left, more)
    ensures Fits(t.right, rest)
    ensures QueryOf(t) == AndQuery(QueryOf(t.left), QueryOf(t.right))
    ensures Yield(t) == Yield(t.left) + ([t.op] + Yield(t.right))
  {
  }

  lemma OrParts(t: Tree, rest: seq<Token>)
    requires t.OrT? && IsExpr(t) && Fits(t, rest)
    ensures IsExpr(t.left) && IsTerm(t.right) && t.op.kind == TokenType.Or
    ensures forall more :: Fits(t.left, more)
    ensures Fits(t.right, rest)
    ensures QueryOf(t) == OrQuery(QueryOf(t.left), QueryOf(t.right))
    ensures Yield(t) == Yield(t.left) + ([t.op] + Yield(t.right))
  {
  }

  lemma ParenParts(t: Tree, rest: seq<Token>)
    requires t.ParenT? && IsFactor(t) && Fits(t, rest)
    ensures IsExpr(t.inner) && t.open.kind == LParen && t.shut.kind == RParen
    ensures forall more :: Fits(t.inner, more)
    ensures QueryOf(t) == QueryOf(t.inner) && Yield(t) == [t.open] + (Yield(t.inner) + [t.shut])
  {
  }

  lemma FactorIsTerm(t: Tree)
    requires !t.AndT?
    ensures IsTerm(t) <==> IsFactor(t)
  {
  }

  /** After a term the loop over AND goes on from it. */
  lemma {:induction false} TermParsed(t: Tree, rest: seq<Token>)
    requires IsTerm(t) && Fits(t, rest)
    ensures ParseAnd(Yield(t) + rest) == AndLoop(QueryOf(t), rest)
    decreases t, 1
  {
    hide *;
    if t.AndT? {
      var more := [t.op] + (Yield(t.right) + rest);
      AndParts(t, rest);
      Regroup(Yield(t.left), t.op, Yield(t.right), rest);
      TermParsed(t.left, more);
      FactorParsed(t.right, rest);
      AndLoopOn(QueryOf(t.left), more);
    } else {
      FactorIsTerm(t);
      FactorParsed(t, rest);
      AndAfter(Yield(t) + rest);
    }
  }

  lemma AndAfter(ts: seq<Token>)
    ensures
      var r := ParseFactor(ts);
      ParseAnd(ts) == if r.Err? then r else AndLoop(r.value.0, r.value.1)
  {
  }

  lemma AndLoopOn(left: Query, ts: seq<Token>)
    requires ts != [] && ts[0].kind == TokenType.And
    ensures
      var r := ParseFactor(ts[1..]);
      AndLoop(left, ts) == if r.Err? then r else AndLoop(AndQuery(left, r.value.0), r.value.1)
  {
  }

  lemma OrLoopOn(left: Query, ts: seq<Token>)
    requires ts != [] && ts[0].kind == TokenType.Or
    ensures
      var r := ParseAnd(ts[1..]);
      OrLoop(left, ts) == if r.Err? then r else OrLoop(OrQuery(left, r.value.0), r.value.1)
  {
  }

  lemma {:induction false} FactorParsed(t: Tree, rest: seq<Token>)
    requires IsFactor(t) && Fits(t, rest)
    ensures ParseFactor(Yield(t) + rest) == Ok((QueryOf(t), rest))
    decreases t, 0
  {
    if t.ClauseT? {
      ClauseParsed(t.toks, rest);
    } else {
      hide *;
      assert t.ParenT? by { NoFactor(t); }
      var after := [t.shut] + rest;
      var inner := Yield(t.inner) + after;
      ParenParts(t, rest);
      ShutStops(t.shut, rest);
      ExprParsed(t.inner, after);
      ParenAround(t.open, Yield(t.inner), t.shut, rest);
      ParenAfter(Yield(t) + rest);
    }
  }

  lemma NoFactor(t: Tree)
    requires IsFactor(t)
    ensures t.ClauseT? || t.ParenT?
  {
  }

  lemma ParenAround(open: Token, inner: seq<Token>, shut: Token, rest: seq<Token>)
    ensures
      var ts := [open] + (inner + [shut]) + rest;
      ts != [] && ts[0] == open && ts[1..] == inner + ([shut] + rest)
  {
  }

  lemma ShutStops(shut: Token, rest: seq<Token>)
    requires shut.kind == RParen
    ensures Stops([shut] + rest) && ([shut] + rest)[1..] == rest
  {
  }

  lemma ParenAfter(ts: seq<Token>)
    requires ts != [] && ts[0].kind == LParen
    ensures
      var r := ParseOr(ts[1..]);
      r.Ok? && r.value.1 != [] && r.value.1[0].kind == RParen ==> ParseFactor(ts) == Ok((r.value.0, r.value.1[1..]))
  {
    hide ParseOr;
  }

  lemma LoopsStop(q: Query, rest: seq<Token>)
    requires Stops(rest)
    ensures AndLoop(q, rest) == Ok((q, rest)) && OrLoop(q, rest) == Ok((q, rest))
  {
  }

  /** What the parser makes of a derivation and the tokens after it: the loop over AND goes on from its last
      term, then the loop over OR. */
  function Onwards(t: Tree, rest: seq<Token>): Parsed {
    var last := if t.OrT? then t.right else t;
    var r := AndLoop(QueryOf(last), rest);
    if r.Err? then r else OrLoop(if t.OrT? then OrQuery(QueryOf(t.left), r.value.0) else r.value.0, r.value.1)
  }

  lemma OnwardsOr(t: Tree, rest: seq<Token>)
    requires Head(rest).kind != TokenType.And
    ensures Onwards(t, rest) == OrLoop(QueryOf(t), rest)
  {
    hide OrLoop;
    var last := if t.OrT? then t.right else t;
    assert AndLoop(QueryOf(last), rest) == Ok((QueryOf(last), rest));
  }

  lemma {:induction false} ExprParsed(t: Tree, rest: seq<Token>)
    requires IsExpr(t) && Fits(t, rest)
    ensures ParseOr(Yield(t) + rest) == Onwards(t, rest)
    ensures Stops(rest) ==> ParseOr(Yield(t) + rest) == Ok((QueryOf(t), rest))
    decreases t, 2
  {
    hide *;
    if t.OrT? {
      var more := [t.op] + (Yield(t.right) + rest);
      OrParts(t, rest);
      Regroup(Yield(t.left), t.op, Yield(t.right), rest);
      ExprParsed(t.left, more);
      TermParsed(t.right, rest);
      OnwardsFrom(t, rest);
    } else {
      TermIsExpr(t);
      TermParsed(t, rest);
      OnwardsTerm(t, Yield(t) + rest, rest);
    }
    if Stops(rest) {
      OnwardsStops(t, rest);
    }
  }

  lemma TermIsExpr(t: Tree)
    requires !t.OrT?
    ensures IsExpr(t) <==> IsTerm(t)
  {
  }

  lemma OnwardsStops(t: Tree, rest: seq<Token>)
    requires Stops(rest)
    ensures Onwards(t, rest) == Ok((QueryOf(t), rest))
  {
    OnwardsOr(t, rest);
    LoopsStop(QueryOf(t), rest);
  }

  lemma OnwardsTerm(t: Tree, ts: seq<Token>, rest: seq<Token>)
    requires !t.OrT? && ParseAnd(ts) == AndLoop(QueryOf(t), rest)
    ensures ParseOr(ts) == Onwards(t, rest)
  {
    hide AndLoop;
    hide OrLoop;
    hide ParseAnd;
  }

  lemma OnwardsFrom(t: Tree, rest: seq<Token>)
    requires t.OrT? && t.op.kind == TokenType.Or
    requires ParseAnd(Yield(t.right) + rest) == AndLoop(QueryOf(t.right), rest)
    ensures Onwards(t.left, [t.op] + (Yield(t.right) + rest)) == Onwards(t, rest)
  {
    var more := [t.op] + (Yield(t.right) + rest);
    assert more[1..] == Yield(t.right) + rest;
    OnwardsOr(t.left, more);
    OrLoopOn(QueryOf(t.left), more);
    hide AndLoop;
    hide OrLoop;
    hide ParseAnd;
    hide QueryOf;
  }

  // ----- everything parsed is derived

  /** What the parser consumed and returned, as a tree. */
  predicate Found(t: Tree, ts: seq<Token>, r: Parsed) {
    r.Ok? && ts == Yield(t) + r.value.1 && Fits(t, r.value.1) && QueryOf(t) == r.value.0
  }

  lemma ClauseDerived(ts: seq<Token>) returns (t: Tree)
    requires Head(ts).kind != LParen && ParseClause(ts).Ok?
    ensures IsFactor(t) && Found(t, ts, ParseClause(ts))
  {
    var rest := ParseClause(ts).value.1;
    var ts1 := Tail(ts);
    var ts2 := Tail(ts1);
    var ts3 := Tail(ts2);
    var ts4 := Tail(ts3);
    var ts5 := Tail(ts4);
    var ts6 := Tail(ts5);
    hide BuildClause;
    var n := if |ts| >= 7 then 7 else 6;
    assert |ts| >= 6;
    var toks := ts[..n];
    assert rest == ts[n..];
    t := ClauseT(toks);
    assert Head(ts) == toks[0] && Head(ts1) == toks[1] && Head(ts2) == toks[2] && Head(ts3) == toks[3];
    assert Head(ts4) == toks[4] && Head(ts5) == toks[5] && (n == 7 ==> Head(ts6) == toks[6]);
  }

  lemma ParenDerived(ts: seq<Token>, inner: Tree, r: Parsed) returns (t: Tree)
    requires ts != [] && ts[0].kind == LParen && IsExpr(inner) && Found(inner, ts[1..], r)
    requires r.value.1 != [] && r.value.1[0].kind == RParen
    ensures IsFactor(t) && Found(t, ts, Ok((r.value.0, r.value.1[1..])))
  {
    var rest := r.value.1;
    t := ParenT(ts[0], inner, rest[0]);
    assert ts == [ts[0]] + ts[1..] && rest == [rest[0]] + rest[1..];
    assert [ts[0]] + (Yield(inner) + ([rest[0]] + rest[1..])) == [ts[0]] + (Yield(inner) + [rest[0]]) + rest[1..];
  }

  lemma {:induction false} FactorDerived(ts: seq<Token>) returns (t: Tree)
    requires ParseFactor(ts).Ok?
    ensures IsFactor(t) && Found(t, ts, ParseFactor(ts))
    decreases |ts|, 0
  {
    hide IsFactor;
    hide IsExpr;
    hide Found;
    if Head(ts).kind == LParen {
      hide ParseClause;
      assert ts != [];
      var r := ParseOr(ts[1..]);
      var inner := ExprDerived(ts[1..]);
      t := ParenDerived(ts, inner, r);
    } else {
      t := ClauseDerived(ts);
    }
  }

  lemma JoinedAnd(left: Tree, right: Tree, ts: seq<Token>, r: Parsed) returns (t: Tree)
    requires IsTerm(left) && Fits(left, ts) && ts != [] && ts[0].kind == TokenType.And
    requires IsFactor(right) && Found(right, ts[1..], r)
    ensures IsTerm(t) && Fits(t, r.value.1) && QueryOf(t) == AndQuery(QueryOf(left), r.value.0)
    ensures Yield(t) + r.value.1 == Yield(left) + ts
  {
    t := AndT(left, ts[0], right);
    assert ts == [ts[0]] + ts[1..];
    Regroup(Yield(left), ts[0], Yield(right), r.value.1);
  }

  lemma JoinedOr(left: Tree, right: Tree, ts: seq<Token>, r: Parsed) returns (t: Tree)
    requires IsExpr(left) && Fits(left, ts) && ts != [] && ts[0].kind == TokenType.Or
    requires IsTerm(right) && Found(right, ts[1..], r)
    ensures IsExpr(t) && Fits(t, r.value.1) && QueryOf(t) == OrQuery(QueryOf(left), r.value.0)
    ensures Yield(t) + r.value.1 == Yield(left) + ts
  {
    t := OrT(left, ts[0], right);
    assert ts == [ts[0]] + ts[1..];
    Regroup(Yield(left), ts[0], Yield(right), r.value.1);
  }

  lemma {:induction false} TermDerived(ts: seq<Token>) returns (t: Tree)
    requires ParseAnd(ts).Ok?
    ensures IsTerm(t) && Found(t, ts, ParseAnd(ts)) && Head(ParseAnd(ts).value.1).kind != TokenType.And
    decreases |ts|, 1
  {
    AndAfter(ts);
    hide *;
    var first := FactorDerived(ts);
    var r := ParseFactor(ts);
    ResultParts(first, ts, r);
    FactorTerm(first);
    t := AndLoopDerived(first, r.value.1);
    ResultOf(t, ts, ParseAnd(ts));
  }

  lemma ResultParts(t: Tree, ts: seq<Token>, r: Parsed)
    requires Found(t, ts, r)
    ensures r.Ok? && ts == Yield(t) + r.value.1 && Fits(t, r.value.1) && QueryOf(t) == r.value.0
  {
  }

  lemma ResultOf(t: Tree, ts: seq<Token>, r: Parsed)
    requires r.Ok? && ts == Yield(t) + r.value.1 && Fits(t, r.value.1) && QueryOf(t) == r.value.0
    ensures Found(t, ts, r)
  {
  }

  lemma FactorTerm(t: Tree)
    requires IsFactor(t)
    ensures IsTerm(t) && IsExpr(t)
  {
  }

  lemma {:induction false} AndLoopDerived(left: Tree, ts: seq<Token>) returns (t: Tree)
    requires IsTerm(left) && Fits(left, ts) && AndLoop(QueryOf(left), ts).Ok?
    ensures
      var r := AndLoop(QueryOf(left), ts).value;
      IsTerm(t) && Yield(t) + r.1 == Yield(left) + ts && Fits(t, r.1) && QueryOf(t) == r.0 &&
      Head(r.1).kind != TokenType.And
    decreases |ts|, 1
  {
    hide IsTerm;
    hide IsFactor;
    hide Fits;
    hide QueryOf;
    hide Yield;
    hide Found;
    hide ParseFactor;
    if Head(ts).kind == TokenType.And {
      var right := FactorDerived(ts[1..]);
      var r := ParseFactor(ts[1..]);
      var joined := JoinedAnd(left, right, ts, r);
      t := AndLoopDerived(joined, r.value.1);
    } else {
      t := left;
    }
  }

  lemma {:induction false} ExprDerived(ts: seq<Token>) returns (t: Tree)
    requires ParseOr(ts).Ok?
    ensures IsExpr(t) && Found(t, ts, ParseOr(ts)) && Stops(ParseOr(ts).value.1)
    decreases |ts|, 2
  {
    OrAfter(ts);
    hide *;
    var first := TermDerived(ts);
    var r := ParseAnd(ts);
    ResultParts(first, ts, r);
    TermExpr(first);
    t := OrLoopDerived(first, r.value.1);
    ResultOf(t, ts, ParseOr(ts));
  }

  lemma OrAfter(ts: seq<Token>)
    ensures
      var r := ParseAnd(ts);
      ParseOr(ts) == if r.Err? then r else OrLoop(r.value.0, r.value.1)
  {
  }

  lemma TermExpr(t: Tree)
    requires IsTerm(t)
    ensures IsExpr(t)
  {
  }

  lemma {:induction false} OrLoopDerived(left: Tree, ts: seq<Token>) returns (t: Tree)
    requires IsExpr(left) && Fits(left, ts) && OrLoop(QueryOf(left), ts).Ok? && Head(ts).kind != TokenType.And
    ensures
      var r := OrLoop(QueryOf(left), ts).value;
      IsExpr(t) && Yield(t) + r.1 == Yield(left) + ts && Fits(t, r.1) && QueryOf(t) == r.0 && Stops(r.1)
    decreases |ts|, 2
  {
    hide IsTerm;
    hide IsExpr;
    hide Fits;
    hide QueryOf;
    hide Yield;
    hide Found;
    hide ParseAnd;
    if Head(ts).kind == TokenType.Or {
      var right := TermDerived(ts[1..]);
      var r := ParseAnd(ts[1..]);
      var joined := JoinedOr(left, right, ts, r);
      t := OrLoopDerived(joined, r.value.1);
    } else {
      t := left;
    }
  }

  // ----- what is accepted

  /** The parser accepts exactly the token lists of which a first part, with no connective after it, is derived by
      the grammar; it returns that part's query and leaves the rest. There is at most one such part and query. */
  lemma AcceptsExactly(ts: seq<Token>)
    ensures
      forall q: Query, rest: seq<Token> ::
        ParseOr(ts) == Ok((q, rest)) <==> Stops(rest) && exists t :: Derives(t, ts, rest) && QueryOf(t) == q
    ensures ParseOr(ts).Ok? <==> exists t, rest :: Derives(t, ts, rest) && Stops(rest)
  {
    hide *;
    if ParseOr(ts).Ok? {
      var t := DerivedTree(ts);
    }
    forall t, rest | Derives(t, ts, rest) && Stops(rest) ensures ParseOr(ts) == Ok((QueryOf(t), rest)) {
      DerivedParts(t, ts, rest);
      ExprParsed(t, rest);
    }
  }

  lemma DerivedTree(ts: seq<Token>) returns (t: Tree)
    requires ParseOr(ts).Ok?
    ensures
      var (q, rest) := ParseOr(ts).value;
      Derives(t, ts, rest) && QueryOf(t) == q && Stops(rest)
  {
    t := ExprDerived(ts);
    hide ParseOr;
    hide IsExpr;
  }

  lemma DerivedParts(t: Tree, ts: seq<Token>, rest: seq<Token>)
    requires Derives(t, ts, rest)
    ensures IsExpr(t) && Fits(t, rest) && ts == Yield(t) + rest
  {
  }

  /** Of all first parts that the grammar derives it consumes the longest. */
  lemma ConsumesLongest(ts: seq<Token>, t: Tree, rest: seq<Token>)
    requires ParseOr(ts).Ok? && Derives(t, ts, rest)
    ensures |ParseOr(ts).value.1| <= |rest|
  {
    ExprParsed(t, rest);
    hide AndLoop;
    hide OrLoop;
    hide ParseOr;
    hide IsExpr;
  }

  /** A derived part alone is not enough: with a connective after it and nothing more, every query is refused. */
  lemma DanglingConnective(t: Tree, op: Token)
    requires IsExpr(t) && Complete(t) && !Stops([op])
    ensures ParseOr(Yield(t) + [op]).Err?
  {
    hide *;
    CompleteFits(t, [op]);
    ExprParsed(t, [op]);
    OnwardsDangling(t, op);
  }

  lemma CompleteFits(t: Tree, rest: seq<Token>)
    requires Complete(t)
    ensures Fits(t, rest)
  {
  }

  lemma Dangling(q: Query, op: Token)
    requires !Stops([op])
    ensures if op.kind == TokenType.And then AndLoop(q, [op]).Err? else OrLoop(q, [op]).Err?
  {
    assert [op][1..] == [];
    assert ParseFactor([]).Err?;
    assert ParseAnd([]).Err?;
  }

  lemma OnwardsDangling(t: Tree, op: Token)
    requires !Stops([op])
    ensures Onwards(t, [op]).Err?
  {
    if op.kind == TokenType.And {
      Dangling(QueryOf(if t.OrT? then t.right else t), op);
    } else {
      OnwardsOr(t, [op]);
      Dangling(QueryOf(t), op);
    }
    hide AndLoop;
    hide OrLoop;
  }
}
