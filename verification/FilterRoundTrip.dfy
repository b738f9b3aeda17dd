/** Every rule tree whose keywords have no double quote can be written as a filter text that parses
    back to it, so the language expresses all of them. */
module FilterRoundTrip {
  import opened Wrappers
  import opened Strings
  import opened FilterGrammar
  import opened FilterSyntax

  /** A rule as a factor: a double-quoted keyword, or anything else in parentheses. */
  function RenderFactor(r: Rule): (t: string)
    ensures t != "" && (t[0] == '"' || t[0] == '(')
    decreases r, 1
  {
    if r.Keyword? then "\"" + (r.value + "\"") else "(" + (RenderExpr(r) + ")")
  }

  function RenderExpr(r: Rule): (t: string)
    ensures t != "" && t[0] !in SPACE_CHARS
    decreases r, 0
  {
    match r
    case Keyword(v) => "\"" + (v + "\"")
    case Not(e) => "not " + RenderFactor(e)
    case And(a, b) => RenderFactor(a) + (" and " + RenderFactor(b))
    case Or(a, b) => RenderFactor(a) + (" or " + RenderFactor(b))
  }

  predicate Quotable(r: Rule) {
    match r
    case Keyword(v) => '"' !in v
    case Not(e) => Quotable(e)
    case And(a, b) => Quotable(a) && Quotable(b)
    case Or(a, b) => Quotable(a) && Quotable(b)
  }

  lemma AtSplit(s: string, p: nat, a: string, b: string)
    requires At(s, p, a + b)
    ensures At(s, p, a) && At(s, p + |a|, b)
  {
    var t := s[p..p + |a + b|];
    assert t[..|a|] == a && t[|a|..] == b;
    assert s[p..p + |a|] == t[..|a|] && s[p + |a|..p + |a| + |b|] == t[|a|..];
  }

  lemma AtHead(s: string, p: nat, t: string)
    requires At(s, p, t) && t != ""
    ensures p < |s| && s[p] == t[0]
  {
    assert s[p..p + |t|][0] == s[p];
  }

  lemma NotAt(s: string, p: nat, t: string)
    requires t != "" && (p < |s| ==> s[p] != t[0])
    ensures !At(s, p, t)
  {
    if At(s, p, t) { AtHead(s, p, t); }
  }

  lemma SkipNothing(s: string, p: nat)
    requires p <= |s| && (p < |s| ==> s[p] !in SPACE_CHARS)
    ensures SkipSpace(s, p) == p
  {
  }

  lemma SkipOneSpace(s: string, p: nat)
    requires p + 1 < |s| && s[p] == ' ' && s[p + 1] !in SPACE_CHARS
    ensures SkipSpace(s, p) == p + 1
  {
    SkipNothing(s, p + 1);
  }

  lemma {:induction false} QuoteRun(s: string, p: nat, v: string)
    requires At(s, p, v + "\"") && '"' !in v
    ensures RunEnd(s, p, {'"'}, true) == p + |v|
    decreases |v|
  {
    AtHead(s, p, v + "\"");
    if v != "" {
      assert v + "\"" == [v[0]] + (v[1..] + "\"");
      AtSplit(s, p, [v[0]], v[1..] + "\"");
      QuoteRun(s, p + 1, v[1..]);
    }
  }

  lemma KeywordRendered(v: string, s: string, p: nat)
    requires At(s, p, "\"" + (v + "\"")) && '"' !in v
    ensures ParseFactor(s, p) == (Keyword(v), p + |v| + 2)
  {
    AtHead(s, p, "\"" + (v + "\""));
    AtSplit(s, p, "\"", v + "\"");
    QuoteRun(s, p + 1, v);
    AtSplit(s, p + 1, v, "\"");
    AtHead(s, p + 1 + |v|, "\"");
  }

  /** No connective follows at `e`. */
  predicate Ends(s: string, e: nat)
    requires e <= |s|
  {
    !At(s, SkipSpace(s, e), "and") && !At(s, SkipSpace(s, e), "or")
  }

  lemma {:induction false} FactorRendered(r: Rule, s: string, p: nat)
    requires Quotable(r) && At(s, p, RenderFactor(r))
    ensures ParseFactor(s, p) == (r, p + |RenderFactor(r)|)
    decreases r, 2
  {
    if r.Keyword? {
      KeywordRendered(r.value, s, p);
    } else {
      var t := RenderExpr(r);
      Parenthesised(s, p, t);
      hide At;
      hide SkipSpace;
      ExprRendered(r, s, p + 1);
    }
  }

  /** A rendered tree between parentheses, with nothing that could belong to it after it. */
  lemma Parenthesised(s: string, p: nat, t: string)
    requires At(s, p, "(" + (t + ")")) && t != "" && t[0] !in SPACE_CHARS
    ensures
      var e := p + 1 + |t|;
      e < |s| && s[p] == '(' && s[e] == ')' && At(s, p + 1, t) && SkipSpace(s, p + 1) == p + 1 &&
      SkipSpace(s, e) == e && Ends(s, e)
  {
    AtHead(s, p, "(" + (t + ")"));
    AtSplit(s, p, "(", t + ")");
    AtSplit(s, p + 1, t, ")");
    AtHead(s, p + 1, t);
    var e := p + 1 + |t|;
    AtHead(s, e, ")");
    SkipNothing(s, p + 1);
    SkipNothing(s, e);
    NotAt(s, e, "and");
    NotAt(s, e, "or");
  }

  lemma OperandRendered(r: Rule, s: string, p: nat)
    requires At(s, p, RenderFactor(r)) && ParseFactor(s, p) == (r, p + |RenderFactor(r)|)
    ensures ParseNot(s, p) == (r, p + |RenderFactor(r)|)
  {
    AtHead(s, p, RenderFactor(r));
    SkipNothing(s, p);
    NotAt(s, p, "not");
  }

  /** ` word right` after a left operand: where the word and the right operand are found. */
  lemma WordRendered(s: string, p: nat, word: string, right: string)
    requires At(s, p, " " + (word + (" " + right))) && word in {"and", "or"}
    requires right != "" && right[0] !in SPACE_CHARS
    ensures p + 2 + |word| < |s| && SkipSpace(s, p) == p + 1 && At(s, p + 1, word)
    ensures word == "or" ==> !At(s, p + 1, "and")
    ensures SkipSpace(s, p + 1 + |word|) == p + 2 + |word| && At(s, p + 2 + |word|, right)
  {
    AtHead(s, p, " " + (word + (" " + right)));
    AtSplit(s, p, " ", word + (" " + right));
    AtHead(s, p + 1, word + (" " + right));
    SkipOneSpace(s, p);
    AtSplit(s, p + 1, word, " " + right);
    AtHead(s, p + 1 + |word|, " " + right);
    AtSplit(s, p + 1 + |word|, " ", right);
    AtHead(s, p + 2 + |word|, right);
    SkipOneSpace(s, p + 1 + |word|);
    if word == "or" { NotAt(s, p + 1, "and"); }
  }

  lemma LoneOperand(s: string, p: nat, a: Rule, e: nat)
    requires p <= e <= |s| && ParseNot(s, p) == (a, e)
    ensures !At(s, SkipSpace(s, e), "and") ==> ParseAnd(s, p) == (a, e)
    ensures Ends(s, e) ==> ParseOr(s, p) == (a, e)
  {
    hide At;
    hide SkipSpace;
    hide ParseNot;
  }

  lemma Conjunction(s: string, p: nat, a: Rule, b: Rule, q: nat, e: nat)
    requires p <= q && q + 5 <= e <= |s| && ParseNot(s, p) == (a, q) && ParseAnd(s, q + 5) == (b, e)
    requires SkipSpace(s, q) == q + 1 && At(s, q + 1, "and") && SkipSpace(s, q + 4) == q + 5
    requires Ends(s, e)
    ensures ParseOr(s, p) == (And(a, b), e)
  {
    hide At;
    hide SkipSpace;
    hide ParseNot;
    assert ParseAnd(s, p) == (And(a, b), e);
  }

  lemma Disjunction(s: string, p: nat, a: Rule, b: Rule, q: nat, e: nat)
    requires p <= q && q + 4 <= e <= |s| && ParseAnd(s, p) == (a, q) && ParseOr(s, q + 4) == (b, e)
    requires SkipSpace(s, q) == q + 1 && At(s, q + 1, "or") && SkipSpace(s, q + 3) == q + 4
    ensures ParseOr(s, p) == (Or(a, b), e)
  {
    hide At;
    hide SkipSpace;
    hide ParseAnd;
  }

  lemma {:induction false} ExprRendered(r: Rule, s: string, p: nat)
    requires Quotable(r) && At(s, p, RenderExpr(r)) && Ends(s, p + |RenderExpr(r)|)
    ensures ParseOr(s, p) == (r, p + |RenderExpr(r)|)
    decreases r, 1
  {
    hide SkipSpace;
    hide ParseFactor;
    hide ParseNot;
    hide ParseAnd;
    hide ParseOr;
    hide At;
    hide Ends;
    hide RenderFactor;
    var e := p + |RenderExpr(r)|;
    match r {
      case Keyword(v) =>
        KeywordRendered(v, s, p);
        QuotedFactor(r);
        OperandRendered(r, s, p);
        LoneOperand(s, p, r, e);
      case Not(x) =>
        FactorText(x);
        NotRendered(x, s, p);
      case And(a, b) =>
        var q := OperandsRendered(r, a, "and", b, s, p);
        EndsSplit(s, e);
        LoneOperand(s, q + 5, b, e);
        Conjunction(s, p, a, b, q, e);
      case Or(a, b) =>
        var q := OperandsRendered(r, a, "or", b, s, p);
        EndsSplit(s, e);
        LoneOperand(s, p, a, q);
        LoneOperand(s, q + 4, b, e);
        Disjunction(s, p, a, b, q, e);
    }
  }

  lemma QuotedFactor(r: Rule)
    requires r.Keyword?
    ensures RenderFactor(r) == RenderExpr(r)
  {
  }

  lemma FactorText(r: Rule)
    ensures RenderFactor(r) != "" && RenderFactor(r)[0] !in SPACE_CHARS
  {
  }

  lemma EndsSplit(s: string, e: nat)
    requires e <= |s| && Ends(s, e)
    ensures !At(s, SkipSpace(s, e), "and")
  {
  }

  /** Both operands of a connective parse, the left one up to the returned position. */
  lemma {:induction false} OperandsRendered(r: Rule, a: Rule, word: string, b: Rule, s: string, p: nat) returns (q: nat)
    requires r == if word == "and" then And(a, b) else Or(a, b)
    requires Quotable(a) && Quotable(b) && word in {"and", "or"}
    requires At(s, p, RenderExpr(r))
    ensures q == p + |RenderFactor(a)| && q < |s| && SkipSpace(s, q) == q + 1 && At(s, q + 1, word)
    ensures word == "or" ==> !At(s, q + 1, "and")
    ensures q + 2 + |word| <= |s| && SkipSpace(s, q + 1 + |word|) == q + 2 + |word|
    ensures ParseNot(s, p) == (a, q)
    ensures ParseNot(s, q + 2 + |word|) == (b, p + |RenderExpr(r)|)
    decreases r, 0
  {
    hide At;
    hide SkipSpace;
    hide ParseFactor;
    hide ParseNot;
    hide RenderFactor;
    hide RenderExpr;
    hide Quotable;
    var t := RenderFactor(b);
    FactorText(b);
    BinaryText(a, word, b);
    q := p + |RenderFactor(a)|;
    AtSplit(s, p, RenderFactor(a), " " + (word + (" " + t)));
    WordRendered(s, q, word, t);
    FactorRendered(a, s, p);
    OperandRendered(a, s, p);
    FactorRendered(b, s, q + 2 + |word|);
    OperandRendered(b, s, q + 2 + |word|);
    assert At(s, q + 2 + |word|, t);
  }

  lemma BinaryText(a: Rule, word: string, b: Rule)
    requires word in {"and", "or"}
    ensures
      RenderExpr(if word == "and" then And(a, b) else Or(a, b)) ==
      RenderFactor(a) + (" " + (word + (" " + RenderFactor(b))))
  {
    var t := RenderFactor(b);
    assert " and " + t == " " + ("and" + (" " + t));
    assert " or " + t == " " + ("or" + (" " + t));
  }

  lemma {:induction false} NotRendered(e: Rule, s: string, p: nat)
    requires Quotable(e) && At(s, p, "not " + RenderFactor(e)) && Ends(s, p + 4 + |RenderFactor(e)|)
    ensures ParseOr(s, p) == (Not(e), p + 4 + |RenderFactor(e)|)
    decreases e, 3
  {
    hide SkipSpace;
    hide ParseFactor;
    var t := RenderFactor(e);
    FactorText(e);
    assert "not " + t == "not" + (" " + t);
    AtHead(s, p, "not " + t);
    SkipNothing(s, p);
    AtSplit(s, p, "not", " " + t);
    AtHead(s, p + 3, " " + t);
    AtSplit(s, p + 3, " ", t);
    AtHead(s, p + 4, t);
    SkipOneSpace(s, p + 3);
    FactorRendered(e, s, p + 4);
    NegationSteps(s, p, e, p + 4 + |t|);
    LoneOperand(s, p, Not(e), p + 4 + |t|);
  }

  lemma NegationSteps(s: string, p: nat, x: Rule, e: nat)
    requires p + 4 <= e <= |s| && SkipSpace(s, p) == p && At(s, p, "not") && SkipSpace(s, p + 3) == p + 4
    requires ParseFactor(s, p + 4) == (x, e)
    ensures ParseNot(s, p) == (Not(x), e)
  {
    hide At;
    hide SkipSpace;
    hide ParseFactor;
  }

  /** Parsing the text written for a rule gives the rule back. */
  lemma RenderedTextParses(r: Rule)
    requires Quotable(r)
    ensures ParseText(RenderExpr(r)) == Some(r)
  {
    var s := RenderExpr(r);
    assert s[0..|s|] == s;
    SkipNothing(s, |s|);
    ExprRendered(r, s, 0);
  }
}
