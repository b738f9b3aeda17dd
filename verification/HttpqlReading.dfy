/** What a parsed query means, read off the tokens the parser consumed (httpql/parser.go): split at
    the ORs outside all parentheses, then at the ANDs, then into clauses. */
module HttpqlReading {
  import opened Wrappers
  import opened HttpqlAst
  import opened HttpqlLexer
  import opened HttpqlSyntax
  import opened HttpqlEval
  import opened LikePattern

  datatype Unit = Open | Close | AndOp | OrOp | Clause(toks: seq<Token>)

  predicate Special(t: Token) {
    t.kind == LParen || t.kind == RParen || t.kind == TokenType.And || t.kind == TokenType.Or
  }

  function SpecialUnit(t: Token): Unit
    requires Special(t)
  {
    if t.kind == LParen then Open
    else if t.kind == RParen then Close
    else if t.kind == TokenType.And then AndOp
    else OrOp
  }

  /** A clause is a block of seven tokens, or what is left of them where the input ends. */
  function Units(ts: seq<Token>): seq<Unit> {
    if ts == [] then []
    else if Special(ts[0]) then [SpecialUnit(ts[0])] + Units(ts[1..])
    else if |ts| <= 7 then [Clause(ts)]
    else [Clause(ts[..7])] + Units(ts[7..])
  }

  /** Every clause in `ts` has its seven tokens. */
  predicate Complete(ts: seq<Token>) {
    ts == [] ||
    if Special(ts[0]) then Complete(ts[1..]) else |ts| >= 7 && Complete(ts[7..])
  }

  function Delta(u: Unit): int { if u == Open then 1 else if u == Close then -1 else 0 }

  /** `r` with `u` put in front of its first piece. */
  function Push(u: Unit, r: seq<seq<Unit>>): seq<seq<Unit>>
    requires |r| >= 1
  {
    [[u] + r[0]] + r[1..]
  }

  /** `us` cut at the separators found at depth 0, when it starts at depth `d`. */
  function Split(us: seq<Unit>, sep: Unit, d: int): (r: seq<seq<Unit>>)
    ensures |r| >= 1
  {
    if us == [] then [[]]
    else if d == 0 && us[0] == sep then [[]] + Split(us[1..], sep, d)
    else Push(us[0], Split(us[1..], sep, d + Delta(us[0])))
  }

  lemma {:induction false} SplitLengths(us: seq<Unit>, sep: Unit, d: int)
    ensures forall p :: p in Split(us, sep, d) ==> |p| <= |us|
  {
    if us != [] {
      SplitLengths(us[1..], sep, d);
      SplitLengths(us[1..], sep, d + Delta(us[0]));
    }
  }

  /** The port of a request: the number in its URL, the largest int for one too long, and without one, or with 0,
      the port of its scheme. */
  function PortOf(r: FlowRequest): int {
    match Atoi(r.port)
    case Some(n) => if n == 0 then SchemePort(r.scheme) else n
    case None => if r.port != "" && AllDigits(r.port) then MAX_INT else SchemePort(r.scheme)
  }

  function SchemePort(scheme: string): int { if scheme == "https" then 443 else 80 }

  /** What `req.field.op:value` says of a flow. */
  predicate RequestHolds(re: Engine, field: string, op: string, val: string, f: Flow) {
    f.request.Some? &&
    var r := f.request.value;
    match field
    case "method" => EvalString(re, StringExpr(val, op), r.verb)
    case "host" => EvalString(re, StringExpr(val, op), r.hostname)
    case "path" => EvalString(re, StringExpr(val, op), r.path)
    case "query" => EvalString(re, StringExpr(val, op), r.rawQuery)
    case "port" => Atoi(val).Some? && EvalInt(IntExpr(Atoi(val).value, op), PortOf(r))
    case "tls" => EvalBool(BoolExpr(ParseBool(val), op), r.scheme == "https")
    case _ => r.body.Some? ==> EvalString(re, StringExpr(val, op), r.body.value.text)
  }

  /** What `resp.field.op:value` says of a flow. */
  predicate ResponseHolds(re: Engine, field: string, op: string, val: string, f: Flow) {
    f.response.Some? &&
    var r := f.response.value;
    match field
    case "code" => Atoi(val).Some? && EvalInt(IntExpr(Atoi(val).value, op), r.statusCode)
    case "len" => Atoi(val).Some? && (r.body.Some? ==> EvalInt(IntExpr(Atoi(val).value, op), r.body.value.size))
    case _ => r.body.Some? ==> EvalString(re, StringExpr(val, op), r.body.value.text)
  }

  /** Namespace, field, operator and value stand at positions 0, 2, 4 and 6 of a clause; a value missing at
      the end of the input is the empty text. */
  predicate ReadClause(re: Engine, toks: seq<Token>, f: Flow) {
    |toks| >= 6 &&
    var val := if |toks| >= 7 then toks[6].literal else "";
    if toks[0].literal == "req" then RequestHolds(re, toks[2].literal, toks[4].literal, val, f)
    else ResponseHolds(re, toks[2].literal, toks[4].literal, val, f)
  }

  predicate ReadFactor(re: Engine, us: seq<Unit>, f: Flow)
    decreases |us|, 0
  {
    if |us| == 1 && us[0].Clause? then ReadClause(re, us[0].toks, f)
    else |us| >= 2 && us[0] == Open && us[|us| - 1] == Close && ReadOr(re, us[1..|us| - 1], f)
  }

  predicate ReadAnd(re: Engine, us: seq<Unit>, f: Flow)
    decreases |us|, 1
  {
    SplitLengths(us, AndOp, 0);
    forall p | p in Split(us, AndOp, 0) :: ReadFactor(re, p, f)
  }

  predicate ReadOr(re: Engine, us: seq<Unit>, f: Flow)
    decreases |us|, 2
  {
    SplitLengths(us, OrOp, 0);
    exists p | p in Split(us, OrOp, 0) :: ReadAnd(re, p, f)
  }

  // ----- units of consumed tokens

  lemma UnitsSpecial(t: Token, ts: seq<Token>)
    requires Special(t)
    ensures Units([t] + ts) == [SpecialUnit(t)] + Units(ts) && Complete([t] + ts) == Complete(ts)
  {
    assert ([t] + ts)[1..] == ts;
  }

  lemma UnitsClause(c: seq<Token>, ts: seq<Token>)
    requires |c| == 7 && !Special(c[0])
    ensures Units(c + ts) == [Clause(c)] + Units(ts) && Complete(c + ts) == Complete(ts)
  {
    assert (c + ts)[7..] == ts && (c + ts)[..7] == c;
    if ts == [] { assert c + ts == c; }
  }

  lemma {:induction false} UnitsAppend(a: seq<Token>, b: seq<Token>)
    requires Complete(a)
    ensures Units(a + b) == Units(a) + Units(b)
    ensures Complete(b) ==> Complete(a + b)
    decreases |a|
  {
    if a == [] {
      assert a + b == b;
    } else {
      var n := if Special(a[0]) then 1 else 7;
      var h, rest := a[..n], a[n..];
      assert Complete(rest);
      hide Units;
      hide Complete;
      UnitsAppend(rest, b);
      assert a == h + rest && a + b == h + (rest + b);
      if n == 1 {
        assert h == [a[0]];
        UnitsSpecial(a[0], rest);
        UnitsSpecial(a[0], rest + b);
      } else {
        UnitsClause(h, rest);
        UnitsClause(h, rest + b);
      }
    }
  }

  // ----- depth and splitting

  /** The depth after `us`, None when it would drop below 0 on the way. */
  function Depth(us: seq<Unit>, d: nat): Option<nat> {
    if us == [] then Some(d)
    else if d + Delta(us[0]) < 0 then None
    else Depth(us[1..], d + Delta(us[0]))
  }

  lemma {:induction false} DepthAppend(a: seq<Unit>, b: seq<Unit>, d: nat)
    requires Depth(a, d).Some?
    ensures Depth(a + b, d) == Depth(b, Depth(a, d).value)
  {
    if a == [] {
      assert a + b == b;
    } else {
      assert (a + b)[1..] == a[1..] + b;
      DepthAppend(a[1..], b, d + Delta(a[0]));
    }
  }

  lemma PushAppend(u: Unit, a: seq<seq<Unit>>, b: seq<seq<Unit>>)
    requires |a| >= 1
    ensures Push(u, a + b) == Push(u, a) + b
  {
    assert (a + b)[1..] == a[1..] + b;
  }

  lemma PushOne(u: Unit, a: seq<Unit>, r: seq<seq<Unit>>)
    requires |r| >= 1
    ensures Push(u, r) == [[u] + a] <==> r == [a]
  {
    if Push(u, r) == [[u] + a] {
      assert |r| == 1 && Push(u, r)[0] == [u] + r[0];
      assert ([u] + a)[1..] == a && ([u] + r[0])[1..] == r[0];
    }
  }

  /** What one unit does to the pieces of the units after it. */
  function CutOrPush(u: Unit, sep: Unit, d: int, r: seq<seq<Unit>>): seq<seq<Unit>>
    requires |r| >= 1
  {
    if d == 0 && u == sep then [[]] + r else Push(u, r)
  }

  lemma CutOrPushAppend(u: Unit, sep: Unit, d: int, r: seq<seq<Unit>>, t: seq<seq<Unit>>)
    requires |r| >= 1
    ensures CutOrPush(u, sep, d, r + t) == CutOrPush(u, sep, d, r) + t
  {
    if d == 0 && u == sep {
      assert [[]] + (r + t) == ([[]] + r) + t;
    } else {
      PushAppend(u, r, t);
    }
  }

  lemma SplitStep(u: Unit, us: seq<Unit>, sep: Unit, d: int)
    requires Delta(sep) == 0
    ensures Split([u] + us, sep, d) == CutOrPush(u, sep, d, Split(us, sep, d + Delta(u)))
  {
    assert ([u] + us)[1..] == us;
  }

  lemma DepthStep(u: Unit, us: seq<Unit>, d: nat)
    ensures Depth([u] + us, d) == if d + Delta(u) < 0 then None else Depth(us, d + Delta(u))
  {
    assert ([u] + us)[1..] == us;
  }

  lemma {:induction false} SplitAtSeparator(a: seq<Unit>, sep: Unit, b: seq<Unit>, d: nat)
    requires Depth(a, d) == Some(0) && Delta(sep) == 0
    ensures Split(a + ([sep] + b), sep, d) == Split(a, sep, d) + Split(b, sep, 0)
  {
    if a == [] {
      assert a + ([sep] + b) == [sep] + b;
      SplitStep(sep, b, sep, 0);
    } else {
      var c, a', e := a[0], a[1..], d + Delta(a[0]);
      assert a == [c] + a';
      DepthStep(c, a', d);
      hide *;
      SplitAtSeparator(a', sep, b, e);
      assert a + ([sep] + b) == [c] + (a' + ([sep] + b));
      SplitStep(c, a', sep, d);
      SplitStep(c, a' + ([sep] + b), sep, d);
      CutOrPushAppend(c, sep, d, Split(a', sep, e), Split(b, sep, 0));
    }
  }

  /** Pieces without a cut stay without one when they are put together. */
  lemma {:induction false} SplitNowhere(a: seq<Unit>, b: seq<Unit>, sep: Unit, d: nat)
    requires Delta(sep) == 0
    requires Depth(a, d).Some? && Split(a, sep, d) == [a] && Split(b, sep, Depth(a, d).value) == [b]
    ensures Split(a + b, sep, d) == [a + b]
  {
    if a == [] {
      assert a + b == b;
    } else {
      var c, a', e := a[0], a[1..], d + Delta(a[0]);
      hide Push;
      hide Split;
      assert a == [c] + a' && a + b == [c] + (a' + b);
      SplitStep(c, a', sep, d);
      SplitStep(c, a' + b, sep, d);
      PushOne(c, a', Split(a', sep, e));
      SplitNowhere(a', b, sep, e);
      PushOne(c, a' + b, Split(a' + b, sep, e));
    }
  }

  /** Inside parentheses nothing is cut. */
  lemma {:induction false} SplitInside(us: seq<Unit>, sep: Unit, d: nat, outer: nat)
    requires Depth(us, d).Some? && outer >= 1
    ensures Split(us, sep, outer + d) == [us]
  {
    if us != [] {
      SplitInside(us[1..], sep, d + Delta(us[0]), outer);
      assert [us[0]] + us[1..] == us;
      PushOne(us[0], us[1..], Split(us[1..], sep, outer + d + Delta(us[0])));
    }
  }

  lemma {:induction false} DepthShift(us: seq<Unit>, d: nat, k: nat)
    requires Depth(us, d).Some?
    ensures Depth(us, d + k) == Some(Depth(us, d).value + k)
  {
    if us != [] { DepthShift(us[1..], d + Delta(us[0]), k); }
  }

  /** Balanced, and with no OR (and for a factor no AND) outside all parentheses. */
  ghost predicate Balanced(us: seq<Unit>) { Depth(us, 0) == Some(0) }

  ghost predicate FactorUnits(us: seq<Unit>) {
    Balanced(us) && Split(us, AndOp, 0) == [us] && Split(us, OrOp, 0) == [us]
  }

  ghost predicate TermUnits(us: seq<Unit>) { Balanced(us) && Split(us, OrOp, 0) == [us] }

  lemma SplitOne(u: Unit, sep: Unit, d: int)
    requires u != sep || d != 0
    ensures Split([u], sep, d) == [[u]]
  {
    assert [u][1..] == [];
    assert Split([], sep, d + Delta(u)) == [[]];
    assert [u] + [] == [u];
    PushOne(u, [], [[]]);
  }

  lemma ClauseUnits(toks: seq<Token>)
    ensures FactorUnits([Clause(toks)])
  {
    SplitOne(Clause(toks), AndOp, 0);
    SplitOne(Clause(toks), OrOp, 0);
    assert [Clause(toks)][1..] == [];
  }

  lemma ParenUnits(inner: seq<Unit>)
    requires Balanced(inner)
    ensures FactorUnits([Open] + (inner + [Close]))
  {
    var shut := [Close];
    assert shut[1..] == [];
    DepthShift(inner, 0, 1);
    DepthAppend(inner, shut, 1);
    var tail := inner + shut;
    var us := [Open] + tail;
    assert us[1..] == tail;
    ParenSplit(inner, AndOp);
    ParenSplit(inner, OrOp);
  }

  lemma ParenSplit(inner: seq<Unit>, sep: Unit)
    requires Balanced(inner) && (sep == AndOp || sep == OrOp)
    ensures Split([Open] + (inner + [Close]), sep, 0) == [[Open] + (inner + [Close])]
  {
    var tail := inner + [Close];
    DepthShift(inner, 0, 1);
    SplitInside(inner, sep, 0, 1);
    SplitOne(Close, sep, 1);
    SplitNowhere(inner, [Close], sep, 1);
    assert ([Open] + tail)[1..] == tail;
    PushOne(Open, tail, Split(tail, sep, 1));
  }

  // ----- joining operands

  lemma JoinAnd(re: Engine, l: seq<Unit>, r: seq<Unit>, f: Flow)
    requires TermUnits(l) && FactorUnits(r)
    ensures TermUnits(l + ([AndOp] + r))
    ensures ReadAnd(re, l + ([AndOp] + r), f) == (ReadAnd(re, l, f) && ReadFactor(re, r, f))
  {
    var op := [AndOp];
    assert op[1..] == [];
    DepthAppend(op, r, 0);
    DepthAppend(l, op + r, 0);
    SplitOne(AndOp, OrOp, 0);
    SplitNowhere(op, r, OrOp, 0);
    SplitNowhere(l, op + r, OrOp, 0);
    SplitAtSeparator(l, AndOp, r, 0);
    var ps := Split(l, AndOp, 0);
    assert Split(l + (op + r), AndOp, 0) == ps + [r];
    assert forall p :: p in ps + [r] <==> p in ps || p == r;
    hide Split;
    hide ReadFactor;
  }

  lemma JoinOr(re: Engine, l: seq<Unit>, r: seq<Unit>, f: Flow)
    requires Balanced(l) && TermUnits(r)
    ensures Balanced(l + ([OrOp] + r))
    ensures ReadOr(re, l + ([OrOp] + r), f) == (ReadOr(re, l, f) || ReadAnd(re, r, f))
  {
    var op := [OrOp];
    assert op[1..] == [];
    DepthAppend(op, r, 0);
    DepthAppend(l, op + r, 0);
    SplitAtSeparator(l, OrOp, r, 0);
    var ps := Split(l, OrOp, 0);
    assert Split(l + (op + r), OrOp, 0) == ps + [r];
    assert forall p :: p in ps + [r] <==> p in ps || p == r;
    hide Split;
    hide ReadAnd;
  }

  lemma LoneFactor(re: Engine, us: seq<Unit>, f: Flow)
    requires FactorUnits(us)
    ensures TermUnits(us) && ReadAnd(re, us, f) == ReadFactor(re, us, f)
  {
    assert us in [us];
    assert forall p :: p in [us] <==> p == us;
  }

  lemma LoneTerm(re: Engine, us: seq<Unit>, f: Flow)
    requires TermUnits(us)
    ensures ReadOr(re, us, f) == ReadAnd(re, us, f)
  {
    assert us in [us];
    assert forall p :: p in [us] <==> p == us;
  }

  // ----- the parser's consumption

  /** `c` is what a parse of `ts` consumed. */
  ghost predicate Consumed(ts: seq<Token>, c: seq<Token>, rest: seq<Token>) {
    ts == c + rest && (rest != [] ==> Complete(c))
  }

  /** Tokens as the lexer delivers them. */
  predicate Lexed(ts: seq<Token>) { forall t :: t in ts ==> t.kind != Eof && (Special(t) ==> !IsNamespace(t.literal)) }

  lemma ClassifyLexed(u: Unicode, lit: string)
    requires lit != ""
    ensures var t := Classify(u, lit); t.kind != Eof && (Special(t) ==> !IsNamespace(t.literal))
  {
  }

  lemma {:induction false} LexIsLexed(u: Unicode, s: string)
    ensures Lexed(Lex(u, s))
    decreases |s|
  {
    LexStep(u, s);
    var t := s[SpaceRun(s)..];
    if t != "" {
      var n := TokenLength(u, t);
      ClassifyLexed(u, t[..n]);
      LexIsLexed(u, t[n..]);
      hide Lex;
      hide Classify;
      hide TokenLength;
      hide Special;
      var ts := Lex(u, s);
      assert ts == [ts[0]] + Tail(ts);
    }
  }

  /** A clause takes seven tokens, or the six that are left when the input ends after its colon. */
  lemma ClauseWindow(ts: seq<Token>)
    requires ParseClause(ts).Ok? && Lexed(ts)
    ensures |ts| >= 6 && !Special(ts[0])
    ensures |ts| >= 7 ==> ParseClause(ts).value.1 == ts[7..]
    ensures |ts| >= 7 ==> ParseClause(ts[..7]) == Ok((ParseClause(ts).value.0, []))
    ensures |ts| == 6 ==> ParseClause(ts).value.1 == []
  {
    hide BuildClause;
    var ts1 := Tail(ts);
    var ts2 := Tail(ts1);
    var ts3 := Tail(ts2);
    var ts4 := Tail(ts3);
    var ts5 := Tail(ts4);
    var ts6 := Tail(ts5);
    if |ts| >= 7 {
      var w := ts[..7];
      var w1 := Tail(w);
      var w2 := Tail(w1);
      var w3 := Tail(w2);
      var w4 := Tail(w3);
      var w5 := Tail(w4);
      var w6 := Tail(w5);
      assert Head(w) == Head(ts) && Head(w1) == Head(ts1) && Head(w2) == Head(ts2) && Head(w3) == Head(ts3);
      assert Head(w4) == Head(ts4) && Head(w5) == Head(ts5) && Head(w6) == Head(ts6);
      assert Tail(w6) == [] && Tail(ts6) == ts[7..];
    }
  }

  /** A parsed clause is built from the literals at these positions. */
  lemma ClauseFields(ts: seq<Token>)
    requires ParseClause(ts).Ok? && |ts| >= 6
    ensures
      var val := if |ts| >= 7 then ts[6].literal else "";
      BuildClause(ts[0].literal, ts[2].literal, ts[4].literal, val) == Ok(ParseClause(ts).value.0)
  {
    hide BuildClause;
    var ts1 := Tail(ts);
    var ts2 := Tail(ts1);
    var ts3 := Tail(ts2);
    var ts4 := Tail(ts3);
    var ts5 := Tail(ts4);
    var ts6 := Tail(ts5);
    assert Head(ts2) == ts[2] && Head(ts4) == ts[4];
    assert Head(ts6) == if |ts| >= 7 then ts[6] else EOF;
  }

  lemma PortIs(r: FlowRequest)
    ensures EffectivePort(r) == PortOf(r)
  {
    hide Atoi;
    hide AllDigits;
  }

  /** A built clause holds of just the flows of which its parts say so. */
  lemma BuiltClauseHolds(re: Engine, namespace: string, field: string, op: string, val: string, f: Flow)
    requires BuildClause(namespace, field, op, val).Ok?
    ensures
      Eval(re, BuildClause(namespace, field, op, val).value, f) ==
      if namespace == "req" then RequestHolds(re, field, op, val, f) else ResponseHolds(re, field, op, val, f)
  {
    hide EvalString;
    hide EvalInt;
    hide EvalBool;
    if f.request.Some? {
      PortIs(f.request.value);
    }
    hide EffectivePort;
    hide PortOf;
    hide Atoi;
    hide ParseBool;
  }

  lemma ClauseReads(re: Engine, ts: seq<Token>, f: Flow) returns (c: seq<Token>)
    requires ParseClause(ts).Ok? && Lexed(ts)
    ensures Consumed(ts, c, ParseClause(ts).value.1) && Units(c) == [Clause(c)]
    ensures ReadClause(re, c, f) == Eval(re, ParseClause(ts).value.0, f)
  {
    hide Eval;
    hide ParseClause;
    hide BuildClause;
    hide RequestHolds;
    hide ResponseHolds;
    ClauseWindow(ts);
    ClauseFields(ts);
    var val := if |ts| >= 7 then ts[6].literal else "";
    BuiltClauseHolds(re, ts[0].literal, ts[2].literal, ts[4].literal, val, f);
    if |ts| == 6 {
      c := ts;
      assert ts == c + [];
    } else {
      c := ts[..7];
      assert ts == c + ts[7..] && c[7..] == [] && Complete([]);
    }
  }

  /** `open inner shut` as one factor. */
  lemma ParenReads(re: Engine, open: Token, inner: seq<Token>, shut: Token, f: Flow)
    requires open.kind == LParen && shut.kind == RParen && Complete(inner) && Balanced(Units(inner))
    ensures
      var c := [open] + (inner + [shut]);
      Complete(c) && FactorUnits(Units(c)) && ReadFactor(re, Units(c), f) == ReadOr(re, Units(inner), f)
  {
    hide ReadOr;
    UnitsSpecial(shut, []);
    assert [shut] + [] == [shut];
    UnitsAppend(inner, [shut]);
    UnitsSpecial(open, inner + [shut]);
    ParenUnits(Units(inner));
    hide FactorUnits;
    hide Balanced;
    var us := [Open] + (Units(inner) + [Close]);
    assert us[1..|us| - 1] == Units(inner);
    assert Units([open] + (inner + [shut])) == us;
  }

  lemma {:induction false} FactorReads(re: Engine, ts: seq<Token>, f: Flow) returns (c: seq<Token>)
    requires ParseFactor(ts).Ok? && Lexed(ts)
    ensures Consumed(ts, c, ParseFactor(ts).value.1) && FactorUnits(Units(c))
    ensures ReadFactor(re, Units(c), f) == Eval(re, ParseFactor(ts).value.0, f)
    decreases |ts|, 0
  {
    hide Eval;
    hide ReadOr;
    hide ParseClause;
    hide FactorUnits;
    hide Balanced;
    hide Units;
    hide Complete;
    if Head(ts).kind == LParen {
      assert Lexed(Tail(ts));
      hide Lexed;
      var inner := OrReads(re, Tail(ts), f);
      var after := ParseOr(Tail(ts)).value.1;
      hide ParseOr;
      ParenReads(re, ts[0], inner, after[0], f);
      c := [ts[0]] + (inner + [after[0]]);
      assert ts == c + Tail(after) by {
        assert ts == [ts[0]] + Tail(ts) && after == [after[0]] + Tail(after);
      }
    } else {
      c := ClauseReads(re, ts, f);
      ClauseUnits(c);
      assert Units(c) == [Clause(c)];
    }
  }

  /** A connective and its right operand join what was consumed before. */
  lemma ConsumedMore(all: seq<Token>, done: seq<Token>, ts: seq<Token>, right: seq<Token>, rest: seq<Token>)
    requires ts != [] && Special(ts[0]) && Consumed(all, done, ts) && Consumed(Tail(ts), right, rest)
    ensures
      var c := done + ([ts[0]] + right);
      Consumed(all, c, rest) && Units(c) == Units(done) + ([SpecialUnit(ts[0])] + Units(right))
  {
    hide Units;
    hide Complete;
    hide Special;
    hide SpecialUnit;
    var t := [ts[0]];
    UnitsSpecial(ts[0], right);
    UnitsAppend(done, t + right);
    assert ts == t + Tail(ts);
    Regroup(done, t, right, rest);
  }

  lemma Regroup(a: seq<Token>, b: seq<Token>, c: seq<Token>, d: seq<Token>)
    ensures a + (b + (c + d)) == (a + (b + c)) + d
  {
    assert b + (c + d) == (b + c) + d;
  }

  lemma LexedTail(ts: seq<Token>)
    requires Lexed(ts)
    ensures Lexed(Tail(ts))
  {
  }

  lemma LexedRest(ts: seq<Token>, c: seq<Token>, rest: seq<Token>)
    requires Lexed(ts) && Consumed(ts, c, rest)
    ensures Lexed(rest)
  {
  }

  lemma {:induction false} AndReads(re: Engine, ts: seq<Token>, f: Flow) returns (c: seq<Token>)
    requires ParseAnd(ts).Ok? && Lexed(ts)
    ensures Consumed(ts, c, ParseAnd(ts).value.1) && TermUnits(Units(c))
    ensures ReadAnd(re, Units(c), f) == Eval(re, ParseAnd(ts).value.0, f)
    decreases |ts|, 1
  {
    var first := FactorReads(re, ts, f);
    LoneFactor(re, Units(first), f);
    var r := ParseFactor(ts).value;
    c := AndLoopReads(re, ts, first, r.0, r.1, f);
  }

  lemma AndLoopStep(left: Query, ts: seq<Token>)
    ensures
      AndLoop(left, ts) ==
      if Head(ts).kind == TokenType.And then
        var r := ParseFactor(Tail(ts));
        if r.Err? then r else AndLoop(AndQuery(left, r.value.0), r.value.1)
      else Ok((left, ts))
  {
  }

  /** `done` are the tokens already read as `left`. */
  lemma {:induction false} AndLoopReads(re: Engine, all: seq<Token>, done: seq<Token>, left: Query, ts: seq<Token>,
                                       f: Flow)
    returns (c: seq<Token>)
    requires AndLoop(left, ts).Ok? && Lexed(ts) && Consumed(all, done, ts)
    requires TermUnits(Units(done)) && ReadAnd(re, Units(done), f) == Eval(re, left, f)
    ensures Consumed(all, c, AndLoop(left, ts).value.1) && TermUnits(Units(c))
    ensures ReadAnd(re, Units(c), f) == Eval(re, AndLoop(left, ts).value.0, f)
    decreases |ts|, 1
  {
    hide Eval;
    hide ReadAnd;
    hide ReadOr;
    hide ReadFactor;
    hide Balanced;
    hide TermUnits;
    hide Units;
    hide Complete;
    hide FactorUnits;
    hide AndLoop;
    hide ParseFactor;
    hide Lexed;
    hide Consumed;
    AndLoopStep(left, ts);
    if Head(ts).kind == TokenType.And {
      LexedTail(ts);
      var right := FactorReads(re, Tail(ts), f);
      var r := ParseFactor(Tail(ts)).value;
      LexedRest(Tail(ts), right, r.1);
      ConsumedMore(all, done, ts, right, r.1);
      JoinAnd(re, Units(done), Units(right), f);
      EvalAndQuery(re, left, r.0, f);
      c := done + ([ts[0]] + right);
      c := AndLoopReads(re, all, c, AndQuery(left, r.0), r.1, f);
    } else {
      c := done;
    }
  }

  lemma {:induction false} OrReads(re: Engine, ts: seq<Token>, f: Flow) returns (c: seq<Token>)
    requires ParseOr(ts).Ok? && Lexed(ts)
    ensures Consumed(ts, c, ParseOr(ts).value.1) && Balanced(Units(c))
    ensures ReadOr(re, Units(c), f) == Eval(re, ParseOr(ts).value.0, f)
    decreases |ts|, 2
  {
    var first := AndReads(re, ts, f);
    LoneTerm(re, Units(first), f);
    var r := ParseAnd(ts).value;
    c := OrLoopReads(re, ts, first, r.0, r.1, f);
  }

  lemma OrLoopStep(left: Query, ts: seq<Token>)
    ensures
      OrLoop(left, ts) ==
      if Head(ts).kind == TokenType.Or then
        var r := ParseAnd(Tail(ts));
        if r.Err? then r else OrLoop(OrQuery(left, r.value.0), r.value.1)
      else Ok((left, ts))
  {
  }

  lemma {:induction false} OrLoopReads(re: Engine, all: seq<Token>, done: seq<Token>, left: Query, ts: seq<Token>,
                                       f: Flow)
    returns (c: seq<Token>)
    requires OrLoop(left, ts).Ok? && Lexed(ts) && Consumed(all, done, ts)
    requires Balanced(Units(done)) && ReadOr(re, Units(done), f) == Eval(re, left, f)
    ensures Consumed(all, c, OrLoop(left, ts).value.1) && Balanced(Units(c))
    ensures ReadOr(re, Units(c), f) == Eval(re, OrLoop(left, ts).value.0, f)
    decreases |ts|, 2
  {
    hide Eval;
    hide ReadAnd;
    hide ReadOr;
    hide ReadFactor;
    hide Balanced;
    hide TermUnits;
    hide Units;
    hide Complete;
    hide FactorUnits;
    hide OrLoop;
    hide ParseAnd;
    hide Lexed;
    hide Consumed;
    OrLoopStep(left, ts);
    if Head(ts).kind == TokenType.Or {
      LexedTail(ts);
      var right := AndReads(re, Tail(ts), f);
      var r := ParseAnd(Tail(ts)).value;
      LexedRest(Tail(ts), right, r.1);
      ConsumedMore(all, done, ts, right, r.1);
      JoinOr(re, Units(done), Units(right), f);
      EvalOrQuery(re, left, r.0, f);
      c := done + ([ts[0]] + right);
      c := OrLoopReads(re, all, c, OrQuery(left, r.0), r.1, f);
    } else {
      c := done;
    }
  }

  /** Whatever text is parsed, on success the query holds of a flow exactly when the consumed tokens,
      read with OR below AND below parentheses, hold of it. */
  lemma ParsedQueryReads(re: Engine, u: Unicode, text: string, f: Flow)
    requires ParseOr(Lex(u, text)).Ok?
    ensures
      var ts, (q, rest) := Lex(u, text), ParseOr(Lex(u, text)).value;
      var consumed := ts[..|ts| - |rest|];
      ts == consumed + rest && Eval(re, q, f) == ReadOr(re, Units(consumed), f)
  {
    LexIsLexed(u, text);
    var ts := Lex(u, text);
    hide Lex;
    var c := OrReads(re, ts, f);
    assert ts[..|ts| - |ParseOr(ts).value.1|] == c;
  }
}
