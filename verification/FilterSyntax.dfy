/** The filter grammar solved: every rule from Factor upwards always matches, so parsing is a total
    function that looks at each operand once. The functions are proved to be the grammar's meaning. */
module FilterSyntax {
  import opened Wrappers
  import opened Strings
  import opened FilterGrammar

  function SkipSpace(s: string, p: nat): (e: nat)
    requires p <= |s|
    ensures p <= e <= |s|
  {
    RunEnd(s, p, SPACE_CHARS, false)
  }

  /** A keyword between two `quote` characters. */
  function Quoted(s: string, p: nat, quote: char): (r: Option<(Rule, nat)>)
    requires p <= |s|
    ensures r.Some? ==> p < r.value.1 <= |s|
  {
    if p < |s| && s[p] == quote then
      var e := RunEnd(s, p + 1, {quote}, true);
      if e < |s| then Some((Keyword(s[p + 1..e]), e + 1)) else None
    else None
  }

  function BareEnd(s: string, p: nat): (e: nat)
    requires p <= |s|
    ensures p <= e <= |s|
  {
    RunEnd(s, p, {' ', '(', ')'}, true)
  }

  function KeywordAt(s: string, p: nat): (r: (Rule, nat))
    requires p <= |s|
    ensures p <= r.1 <= |s|
  {
    if Quoted(s, p, '"').Some? then Quoted(s, p, '"').value
    else if Quoted(s, p, '\'').Some? then Quoted(s, p, '\'').value
    else (Keyword(s[p..BareEnd(s, p)]), BareEnd(s, p))
  }

  function ParseFactor(s: string, p: nat): (r: (Rule, nat))
    requires p <= |s|
    ensures p <= r.1 <= |s|
    decreases |s| - p, 0
  {
    if p < |s| && s[p] == '(' then
      var (inner, e) := ParseOr(s, SkipSpace(s, p + 1));
      var close := SkipSpace(s, e);
      if close < |s| && s[close] == ')' then (inner, close + 1) else KeywordAt(s, p)
    else KeywordAt(s, p)
  }

  function ParseNot(s: string, p: nat): (r: (Rule, nat))
    requires p <= |s|
    ensures p <= r.1 <= |s|
    decreases |s| - p, 1
  {
    var w := SkipSpace(s, p);
    if At(s, w, "not") then
      var (inner, e) := ParseFactor(s, SkipSpace(s, w + 3));
      (Not(inner), e)
    else ParseFactor(s, p)
  }

  function ParseAnd(s: string, p: nat): (r: (Rule, nat))
    requires p <= |s|
    ensures p <= r.1 <= |s|
    decreases |s| - p, 2
  {
    var (left, e) := ParseNot(s, p);
    var w := SkipSpace(s, e);
    if At(s, w, "and") then
      var (right, e') := ParseAnd(s, SkipSpace(s, w + 3));
      (And(left, right), e')
    else (left, e)
  }

  function ParseOr(s: string, p: nat): (r: (Rule, nat))
    requires p <= |s|
    ensures p <= r.1 <= |s|
    decreases |s| - p, 3
  {
    var (left, e) := ParseAnd(s, p);
    var w := SkipSpace(s, e);
    if At(s, w, "or") then
      var (right, e') := ParseOr(s, SkipSpace(s, w + 2));
      (Or(left, right), e')
    else (left, e)
  }

  /** The whole text: accepted when all of it is consumed. */
  function ParseText(s: string): Option<Rule> {
    var (rule, e) := ParseOr(s, 0);
    if e == |s| then Some(rule) else None
  }

  // ----- agreement with the grammar

  function Found(r: (Rule, nat)): Outcome { Matched(r.1, [r.0]) }

  lemma SpaceDenotes(s: string, p: nat)
    requires p <= |s|
    ensures Denotes(Ref(NSpace), s, p, Matched(SkipSpace(s, p), []))
  {
    DenotesRun(s, p, SPACE_CHARS, false);
    DenotesRef(NSpace, s, p, Matched(SkipSpace(s, p), []));
  }

  lemma QuoteDenotes(s: string, p: nat, quote: char)
    requires p <= |s|
    ensures Denotes(Class({quote}, false), s, p, if p < |s| && s[p] == quote then Matched(p + 1, []) else Fail)
  {
    DenotesLeaf(Class({quote}, false), s, p);
  }

  lemma QuotedDenotes(s: string, p: nat, quote: char, name: Name)
    requires p <= |s| && name in {NKeyword1, NKeyword2} && quote == (if name == NKeyword1 then '"' else '\'')
    ensures
      Denotes(Ref(name), s, p, if Quoted(s, p, quote).Some? then Found(Quoted(s, p, quote).value) else Fail)
  {
    hide Denotes;
    hide RunEnd;
    var q, body := Class({quote}, false), Star(Class({quote}, true));
    var tail := Fail;
    QuoteDenotes(s, p, quote);
    if p < |s| && s[p] == quote {
      var e := RunEnd(s, p + 1, {quote}, true);
      DenotesRun(s, p + 1, {quote}, true);
      QuoteDenotes(s, e, quote);
      tail := if e < |s| then Matched(e + 1, []) else Fail;
      DenotesSeq(body, q, s, p + 1, Matched(e, []), tail);
    }
    var first := if p < |s| && s[p] == quote then Matched(p + 1, []) else Fail;
    DenotesSeq(q, Seq(body, q), s, p, first, tail);
    var whole := Then(first, tail);
    DenotesAct(MakeQuoted, Seq(q, Seq(body, q)), s, p, whole);
    var out := if Quoted(s, p, quote).Some? then Found(Quoted(s, p, quote).value) else Fail;
    if whole.Matched? {
      assert s[p..whole.end][1..whole.end - p - 1] == s[p + 1..whole.end - 1];
    }
    DenotesRef(name, s, p, out);
  }

  lemma BareDenotes(s: string, p: nat)
    requires p <= |s|
    ensures Denotes(Ref(NKeyword3), s, p, Matched(BareEnd(s, p), [Keyword(s[p..BareEnd(s, p)])]))
  {
    var chars := {' ', '(', ')'};
    DenotesRun(s, p, chars, true);
    DenotesAct(MakeText, Star(Class(chars, true)), s, p, Matched(BareEnd(s, p), []));
    DenotesRef(NKeyword3, s, p, Matched(BareEnd(s, p), [Keyword(s[p..BareEnd(s, p)])]));
  }

  const KEYWORDS := Alt(Ref(NKeyword1), Alt(Ref(NKeyword2), Ref(NKeyword3)))

  lemma KeywordDenotes(s: string, p: nat)
    requires p <= |s|
    ensures Denotes(KEYWORDS, s, p, Found(KeywordAt(s, p)))
  {
    var r1 := if Quoted(s, p, '"').Some? then Found(Quoted(s, p, '"').value) else Fail;
    var r2 := if Quoted(s, p, '\'').Some? then Found(Quoted(s, p, '\'').value) else Fail;
    var r3 := Matched(BareEnd(s, p), [Keyword(s[p..BareEnd(s, p)])]);
    QuotedDenotes(s, p, '"', NKeyword1);
    QuotedDenotes(s, p, '\'', NKeyword2);
    BareDenotes(s, p);
    hide Quoted;
    hide BareEnd;
    hide Denotes;
    DenotesAlt(Ref(NKeyword2), Ref(NKeyword3), s, p, r2, r3);
    DenotesAlt(Ref(NKeyword1), Alt(Ref(NKeyword2), Ref(NKeyword3)), s, p, r1, if r2.Fail? then r3 else r2);
  }

  /** A connective with space around it: where the right operand starts, or Fail. */
  function WordOutcome(s: string, p: nat, word: string): Outcome
    requires p <= |s|
  {
    var w := SkipSpace(s, p);
    if At(s, w, word) then Matched(SkipSpace(s, w + |word|), []) else Fail
  }

  /** `_ word _ right` */
  lemma WordThen(s: string, p: nat, word: string, right: Peg, out: Outcome)
    requires p <= |s| && !out.NoFuel?
    requires
      var w := WordOutcome(s, p, word);
      w.Matched? ==> Denotes(right, s, w.end, out)
    ensures
      Denotes(Seq(Ref(NSpace), Seq(Lit(word), Seq(Ref(NSpace), right))), s, p,
              Then(WordOutcome(s, p, word), out))
  {
    var w := SkipSpace(s, p);
    var lit := if At(s, w, word) then Matched(w + |word|, []) else Fail;
    SpaceDenotes(s, p);
    DenotesLeaf(Lit(word), s, w);
    assert Run(1, Lit(word), s, w) == lit;
    var inner := out;
    if lit.Matched? {
      var v := SkipSpace(s, w + |word|);
      SpaceDenotes(s, w + |word|);
      DenotesSeq(Ref(NSpace), right, s, w + |word|, Matched(v, []), out);
      inner := Then(Matched(v, []), out);
    }
    DenotesSeq(Lit(word), Seq(Ref(NSpace), right), s, w, lit, inner);
    DenotesSeq(Ref(NSpace), Seq(Lit(word), Seq(Ref(NSpace), right)), s, p, Matched(w, []), Then(lit, inner));
    var r := Then(Matched(w, []), Then(lit, inner));
    assert r == Then(WordOutcome(s, p, word), out) by {
      if lit.Matched? && out.Matched? { assert [] + ([] + ([] + out.rules)) == [] + out.rules; }
    }
  }

  /** `left _ word _ right / left` when `left` matches: the second alternative starts over, with the
      same outcome for `left`. */
  lemma BinaryDenotes(name: Name, operand: Name, action: Action, word: string, s: string, p: nat, left: (Rule, nat),
                      right: (Rule, nat))
    requires p <= left.1 <= |s| && p <= right.1 <= |s|
    requires Grammar(name) ==
             Alt(Act(action, Seq(Ref(operand), Seq(Ref(NSpace), Seq(Lit(word), Seq(Ref(NSpace), Ref(name)))))),
                 Ref(operand))
    requires Denotes(Ref(operand), s, p, Found(left))
    requires
      var w := WordOutcome(s, left.1, word);
      w.Matched? ==> Denotes(Ref(name), s, w.end, Found(right))
    ensures
      Denotes(Ref(name), s, p,
              if WordOutcome(s, left.1, word).Matched?
              then Matched(right.1, Apply(action, [left.0, right.0], s[p..right.1])) else Found(left))
  {
    var tail := Seq(Ref(NSpace), Seq(Lit(word), Seq(Ref(NSpace), Ref(name))));
    var w := WordOutcome(s, left.1, word);
    WordThen(s, left.1, word, Ref(name), Found(right));
    hide Denotes;
    hide WordOutcome;
    hide Grammar;
    hide Apply;
    DenotesSeq(Ref(operand), tail, s, p, Found(left), Then(w, Found(right)));
    var both := Then(Found(left), Then(w, Found(right)));
    if w.Matched? {
      assert both == Matched(right.1, [left.0, right.0]);
    }
    DenotesAct(action, Seq(Ref(operand), tail), s, p, both);
    var first := if w.Matched? then Matched(right.1, Apply(action, [left.0, right.0], s[p..right.1])) else Fail;
    DenotesAlt(Act(action, Seq(Ref(operand), tail)), Ref(operand), s, p, first, Found(left));
    DenotesRef(name, s, p, if w.Matched? then first else Found(left));
  }

  lemma {:induction false} FactorDenotes(s: string, p: nat)
    requires p <= |s|
    ensures Denotes(Ref(NFactor), s, p, Found(ParseFactor(s, p)))
    decreases |s| - p, 0
  {
    var body := Seq(Ref(NSpace), Seq(Ref(NExpression), Seq(Ref(NSpace), Lit(")"))));
    var open := if p < |s| && s[p] == '(' then Matched(p + 1, []) else Fail;
    DenotesLeaf(Lit("("), s, p);
    assert Run(1, Lit("("), s, p) == open;
    var rest := Fail;
    if open.Matched? {
      OrDenotes(s, SkipSpace(s, p + 1));
      rest := ParenRest(s, p + 1);
    }
    DenotesSeq(Lit("("), body, s, p, open, rest);
    var whole := Then(open, rest);
    DenotesAct(Return, Seq(Lit("("), body), s, p, whole);
    KeywordDenotes(s, p);
    hide Denotes;
    hide KeywordAt;
    DenotesAlt(Act(Return, Seq(Lit("("), body)), KEYWORDS, s, p, whole, Found(KeywordAt(s, p)));
    DenotesRef(NFactor, s, p, Found(ParseFactor(s, p)));
  }

  /** What follows an opening parenthesis: `_ Expression _ ")"`. */
  lemma ParenRest(s: string, p: nat) returns (out: Outcome)
    requires p <= |s| && Denotes(Ref(NOr), s, SkipSpace(s, p), Found(ParseOr(s, SkipSpace(s, p))))
    ensures Denotes(Seq(Ref(NSpace), Seq(Ref(NExpression), Seq(Ref(NSpace), Lit(")")))), s, p, out)
    ensures
      var (inner, e) := ParseOr(s, SkipSpace(s, p));
      var close := SkipSpace(s, e);
      out == if close < |s| && s[close] == ')' then Matched(close + 1, [inner]) else Fail
  {
    var w := SkipSpace(s, p);
    var r := ParseOr(s, w);
    var close := SkipSpace(s, r.1);
    var shut := if close < |s| && s[close] == ')' then Matched(close + 1, []) else Fail;
    DenotesRef(NExpression, s, w, Found(r));
    DenotesLeaf(Lit(")"), s, close);
    assert Run(1, Lit(")"), s, close) == shut;
    SpaceDenotes(s, r.1);
    SpaceDenotes(s, p);
    hide Denotes;
    hide ParseOr;
    DenotesSeq(Ref(NSpace), Lit(")"), s, r.1, Matched(close, []), shut);
    DenotesSeq(Ref(NExpression), Seq(Ref(NSpace), Lit(")")), s, w, Found(r), Then(Matched(close, []), shut));
    DenotesSeq(Ref(NSpace), Seq(Ref(NExpression), Seq(Ref(NSpace), Lit(")"))), s, p, Matched(w, []),
               Then(Found(r), Then(Matched(close, []), shut)));
    out := Then(Matched(w, []), Then(Found(r), Then(Matched(close, []), shut)));
  }

  lemma {:induction false} NotDenotes(s: string, p: nat)
    requires p <= |s|
    ensures Denotes(Ref(NNot), s, p, Found(ParseNot(s, p)))
    decreases |s| - p, 1
  {
    hide Denotes;
    hide ParseFactor;
    hide At;
    hide SkipSpace;
    var w := WordOutcome(s, p, "not");
    var inner := (Keyword(""), p);
    if w.Matched? {
      FactorDenotes(s, w.end);
      inner := ParseFactor(s, w.end);
    }
    FactorDenotes(s, p);
    WordThen(s, p, "not", Ref(NFactor), Found(inner));
    var body := Seq(Ref(NSpace), Seq(Lit("not"), Seq(Ref(NSpace), Ref(NFactor))));
    DenotesAct(MakeNot, body, s, p, Then(w, Found(inner)));
    var first := if w.Matched? then Matched(inner.1, [Not(inner.0)]) else Fail;
    assert w.Matched? ==> Then(w, Found(inner)) == Matched(inner.1, [inner.0]);
    DenotesAlt(Act(MakeNot, body), Ref(NFactor), s, p, first, Found(ParseFactor(s, p)));
    DenotesRef(NNot, s, p, Found(ParseNot(s, p)));
  }

  lemma {:induction false} AndDenotes(s: string, p: nat)
    requires p <= |s|
    ensures Denotes(Ref(NAnd), s, p, Found(ParseAnd(s, p)))
    decreases |s| - p, 2
  {
    hide Denotes;
    hide ParseNot;
    hide At;
    hide SkipSpace;
    NotDenotes(s, p);
    var left := ParseNot(s, p);
    var w := WordOutcome(s, left.1, "and");
    var right := left;
    if w.Matched? {
      AndDenotes(s, w.end);
      right := ParseAnd(s, w.end);
    }
    BinaryDenotes(NAnd, NNot, MakeAnd, "and", s, p, left, right);
  }

  lemma {:induction false} OrDenotes(s: string, p: nat)
    requires p <= |s|
    ensures Denotes(Ref(NOr), s, p, Found(ParseOr(s, p)))
    decreases |s| - p, 3
  {
    hide Denotes;
    hide ParseAnd;
    hide At;
    hide SkipSpace;
    AndDenotes(s, p);
    var left := ParseAnd(s, p);
    var w := WordOutcome(s, left.1, "or");
    var right := left;
    if w.Matched? {
      OrDenotes(s, w.end);
      right := ParseOr(s, w.end);
    }
    BinaryDenotes(NOr, NAnd, MakeOr, "or", s, p, left, right);
  }

  /** A text is accepted exactly when the grammar matches all of it, and then with the grammar's tree;
      the grammar itself never fails. */
  lemma ParseTextIsGrammar(s: string)
    ensures exists out: Outcome :: Denotes(Ref(NExpression), s, 0, out) && out.Matched?
    ensures
      forall rule: Rule :: ParseText(s) == Some(rule) <==> Denotes(Ref(NExpression), s, 0, Matched(|s|, [rule]))
  {
    OrDenotes(s, 0);
    var out := Found(ParseOr(s, 0));
    DenotesRef(NExpression, s, 0, out);
    forall rule: Rule
      ensures ParseText(s) == Some(rule) <==> Denotes(Ref(NExpression), s, 0, Matched(|s|, [rule]))
    {
      if Denotes(Ref(NExpression), s, 0, Matched(|s|, [rule])) {
        DenotesUnique(Ref(NExpression), s, 0, out, Matched(|s|, [rule]));
        assert [ParseOr(s, 0).0][0] == [rule][0];
      }
    }
  }
}
