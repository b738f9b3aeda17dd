/** How often the generated filter parser (web/client/src/utils/filterRuleParser.js) looks at a factor: Or and And
    parse their left operand again when no connective follows it. */
module FilterCost {
  import opened Strings
  import opened FilterGrammar
  import opened FilterSyntax

  // ----- the calls of peg$parseFactor that each rule makes

  function FactorCost(s: string, p: nat): (n: nat)
    requires p <= |s|
    decreases |s| - p, 0
  {
    1 + if p < |s| && s[p] == '(' then OrCost(s, SkipSpace(s, p + 1)) else 0
  }

  function NotCost(s: string, p: nat): (n: nat)
    requires p <= |s|
    decreases |s| - p, 1
  {
    var w := SkipSpace(s, p);
    FactorCost(s, if At(s, w, "not") then SkipSpace(s, w + 3) else p)
  }

  function AndCost(s: string, p: nat): (n: nat)
    requires p <= |s|
    decreases |s| - p, 2
  {
    var w := SkipSpace(s, ParseNot(s, p).1);
    NotCost(s, p) + if At(s, w, "and") then AndCost(s, SkipSpace(s, w + 3)) else NotCost(s, p)
  }

  function OrCost(s: string, p: nat): (n: nat)
    requires p <= |s|
    decreases |s| - p, 3
  {
    var w := SkipSpace(s, ParseAnd(s, p).1);
    AndCost(s, p) + if At(s, w, "or") then OrCost(s, SkipSpace(s, w + 2)) else AndCost(s, p)
  }

  // ----- nested parentheses

  /** `s` is a keyword between `n` pairs of parentheses; it ends at `e`. */
  predicate Nested(s: string, n: nat, e: nat) {
    n <= e && |s| == e + n && (forall i :: 0 <= i < n ==> s[i] == '(') && (forall i :: e <= i < |s| ==> s[i] == ')') &&
    KeywordAt(s, n).1 == e && !At(s, n, "not") && (n < |s| ==> s[n] != '(' && s[n] !in SPACE_CHARS)
  }

  function Pow4(n: nat): nat { if n == 0 then 1 else 4 * Pow4(n - 1) }

  lemma OtherLetter(s: string, p: nat, t: string)
    requires t != "" && p < |s| && s[p] != t[0]
    ensures !At(s, p, t)
  {
    if p + |t| <= |s| {
      assert s[p..p + |t|][0] == s[p];
    }
  }

  lemma StaysAt(s: string, p: nat)
    requires p <= |s| && (p < |s| ==> s[p] !in SPACE_CHARS)
    ensures SkipSpace(s, p) == p
  {
  }

  /** A factor that is followed by nothing or by a closing parenthesis is looked at four times. */
  lemma LoneFactor(s: string, p: nat, r: (Rule, nat))
    requires p <= |s| && SkipSpace(s, p) == p && !At(s, p, "not") && ParseFactor(s, p) == r
    requires r.1 <= |s| && SkipSpace(s, r.1) == r.1 && !At(s, r.1, "and") && !At(s, r.1, "or")
    ensures ParseOr(s, p) == r && OrCost(s, p) == 4 * FactorCost(s, p)
  {
    hide ParseFactor;
    hide FactorCost;
    hide SkipSpace;
    hide At;
    assert ParseNot(s, p) == r && NotCost(s, p) == FactorCost(s, p);
    hide ParseNot;
    hide NotCost;
    assert ParseAnd(s, p) == r && AndCost(s, p) == 2 * NotCost(s, p);
  }

  lemma ParenStep(s: string, p: nat, rule: Rule, end: nat)
    requires p < |s| && s[p] == '(' && SkipSpace(s, p + 1) == p + 1 && ParseOr(s, p + 1) == (rule, end)
    requires end < |s| && SkipSpace(s, end) == end && s[end] == ')'
    ensures ParseFactor(s, p) == (rule, end + 1) && FactorCost(s, p) == 1 + OrCost(s, p + 1)
  {
    hide ParseOr;
    hide OrCost;
    hide SkipSpace;
    hide KeywordAt;
  }

  /** What stands around the text inside the outer `k + 1` pairs. */
  lemma InPair(s: string, n: nat, e: nat, k: nat)
    requires Nested(s, n, e) && k < n
    ensures k + 1 <= |s| - k - 1 < |s| && s[k] == '(' && s[|s| - k - 1] == ')'
    ensures SkipSpace(s, k + 1) == k + 1 && !At(s, k + 1, "not")
    ensures
      var end := |s| - k - 1;
      SkipSpace(s, end) == end && !At(s, end, "and") && !At(s, end, "or")
  {
    var end := |s| - k - 1;
    hide KeywordAt;
    StaysAt(s, k + 1);
    StaysAt(s, end);
    hide SkipSpace;
    OtherLetter(s, end, "and");
    OtherLetter(s, end, "or");
    if k + 1 < n {
      OtherLetter(s, k + 1, "not");
    }
    hide At;
  }

  lemma Innermost(s: string, n: nat, e: nat)
    requires Nested(s, n, e)
    ensures ParseFactor(s, n) == (KeywordAt(s, n).0, |s| - n) && FactorCost(s, n) == 1
  {
    hide KeywordAt;
    hide At;
  }

  lemma {:induction false} NestedCost(s: string, n: nat, e: nat, k: nat)
    requires Nested(s, n, e) && k <= n
    ensures ParseFactor(s, k) == (KeywordAt(s, n).0, |s| - k)
    ensures 3 * FactorCost(s, k) + 1 == Pow4(n - k + 1)
    decreases n - k
  {
    hide KeywordAt;
    hide Nested;
    hide ParseFactor;
    hide ParseOr;
    hide FactorCost;
    hide OrCost;
    hide SkipSpace;
    hide At;
    if k < n {
      NestedCost(s, n, e, k + 1);
      InPair(s, n, e, k);
      var end := |s| - k - 1;
      LoneFactor(s, k + 1, (KeywordAt(s, n).0, end));
      ParenStep(s, k, KeywordAt(s, n).0, end);
    } else {
      Innermost(s, n, e);
      assert Pow4(1) == 4 * Pow4(0);
    }
  }

  /** A keyword between `n` pairs of parentheses is one rule, but the parser looks at (4^(n+2) - 4) / 3 factors to
      find it: each pair makes that four times as many. */
  lemma NestedIsExponential(s: string, n: nat, e: nat)
    requires Nested(s, n, e)
    ensures ParseOr(s, 0) == (KeywordAt(s, n).0, |s|)
    ensures 3 * OrCost(s, 0) + 4 == Pow4(n + 2)
  {
    hide KeywordAt;
    hide OrCost;
    hide ParseOr;
    hide ParseFactor;
    hide FactorCost;
    NestedCost(s, n, e, 0);
    StaysAt(s, 0);
    StaysAt(s, |s|);
    if n > 0 {
      OtherLetter(s, 0, "not");
    }
    LoneFactor(s, 0, ParseFactor(s, 0));
    assert Pow4(n + 2) == 4 * Pow4(n + 1);
  }
}
