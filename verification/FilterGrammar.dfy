/** The web client's filter language as the grammar in the header comment of filterRuleParser.js,
    with the usual meaning of a parsing expression grammar: ordered choice, greedy repetition. */
module FilterGrammar {
  import opened Strings

  /** The rule tree a filter text stands for (web/client/src/utils/filter.ts). */
  datatype Rule = Keyword(value: string) | Not(expr: Rule) | And(left: Rule, right: Rule) | Or(left: Rule, right: Rule)

  // ----- parsing expressions

  datatype Action = MakeOr | MakeAnd | MakeNot | Return | MakeQuoted | MakeText

  datatype Name = NExpression | NOr | NAnd | NNot | NFactor | NKeyword1 | NKeyword2 | NKeyword3 | NSpace

  datatype Peg =
    | Lit(text: string)
    | Class(chars: set<char>, inverted: bool)
    | Seq(first: Peg, second: Peg)
    | Alt(first: Peg, second: Peg)
    | Star(body: Peg)
    | Ref(name: Name)
    | Act(action: Action, body: Peg)

  const SPACE_CHARS := {' ', '\t', '\n', '\r'}

  /** The grammar of filterRuleParser.js, rule by rule. */
  function Grammar(name: Name): Peg {
    match name
    case NExpression => Ref(NOr)
    case NOr =>
      Alt(Act(MakeOr, Seq(Ref(NAnd), Seq(Ref(NSpace), Seq(Lit("or"), Seq(Ref(NSpace), Ref(NOr)))))), Ref(NAnd))
    case NAnd =>
      Alt(Act(MakeAnd, Seq(Ref(NNot), Seq(Ref(NSpace), Seq(Lit("and"), Seq(Ref(NSpace), Ref(NAnd)))))), Ref(NNot))
    case NNot => Alt(Act(MakeNot, Seq(Ref(NSpace), Seq(Lit("not"), Seq(Ref(NSpace), Ref(NFactor))))), Ref(NFactor))
    case NFactor =>
      Alt(Act(Return, Seq(Lit("("), Seq(Ref(NSpace), Seq(Ref(NExpression), Seq(Ref(NSpace), Lit(")")))))),
          Alt(Ref(NKeyword1), Alt(Ref(NKeyword2), Ref(NKeyword3))))
    case NKeyword1 => Act(MakeQuoted, Seq(Class({'"'}, false), Seq(Star(Class({'"'}, true)), Class({'"'}, false))))
    case NKeyword2 => Act(MakeQuoted, Seq(Class({'\''}, false), Seq(Star(Class({'\''}, true)), Class({'\''}, false))))
    case NKeyword3 => Act(MakeText, Star(Class({' ', '(', ')'}, true)))
    case NSpace => Star(Class(SPACE_CHARS, false))
  }

  // ----- their meaning

  /** `rules` are the values of the labelled parts, in order. */
  datatype Outcome = NoFuel | Fail | Matched(end: nat, rules: seq<Rule>)

  function Apply(action: Action, rules: seq<Rule>, text: string): seq<Rule> {
    match action
    case MakeOr => if |rules| == 2 then [Or(rules[0], rules[1])] else []
    case MakeAnd => if |rules| == 2 then [And(rules[0], rules[1])] else []
    case MakeNot => if |rules| == 1 then [Not(rules[0])] else []
    case Return => rules
    case MakeQuoted => if |text| >= 2 then [Keyword(text[1..|text| - 1])] else []
    case MakeText => [Keyword(text)]
  }

  /** Matching `e` at position `p` of `s`; `fuel` bounds the depth of the evaluation. */
  function Run(fuel: nat, e: Peg, s: string, p: nat): (r: Outcome)
    requires p <= |s|
    ensures r.Matched? ==> p <= r.end <= |s|
    decreases fuel
  {
    if fuel == 0 then NoFuel else
    match e
    case Lit(t) => if At(s, p, t) then Matched(p + |t|, []) else Fail
    case Class(chars, inverted) => if p < |s| && (s[p] in chars) != inverted then Matched(p + 1, []) else Fail
    case Seq(a, b) =>
      var ra := Run(fuel - 1, a, s, p);
      if !ra.Matched? then ra else
        var rb := Run(fuel - 1, b, s, ra.end);
        if !rb.Matched? then rb else Matched(rb.end, ra.rules + rb.rules)
    case Alt(a, b) =>
      var ra := Run(fuel - 1, a, s, p);
      if ra.Fail? then Run(fuel - 1, b, s, p) else ra
    case Star(a) =>
      var ra := Run(fuel - 1, a, s, p);
      if ra.NoFuel? then NoFuel
      else if ra.Fail? || ra.end == p then Matched(p, [])
      else
        var rest := Run(fuel - 1, e, s, ra.end);
        if !rest.Matched? then rest else Matched(rest.end, ra.rules + rest.rules)
    case Ref(n) => Run(fuel - 1, Grammar(n), s, p)
    case Act(action, a) =>
      var ra := Run(fuel - 1, a, s, p);
      if !ra.Matched? then ra else Matched(ra.end, Apply(action, ra.rules, s[p..ra.end]))
  }

  lemma {:induction false} MoreFuel(n: nat, m: nat, e: Peg, s: string, p: nat)
    requires p <= |s| && n <= m && !Run(n, e, s, p).NoFuel?
    ensures Run(m, e, s, p) == Run(n, e, s, p)
    decreases n
  {
    hide At;
    hide Grammar;
    hide Apply;
    match e
    case Lit(_) =>
    case Class(_, _) =>
    case Seq(a, b) =>
      MoreFuel(n - 1, m - 1, a, s, p);
      var ra := Run(n - 1, a, s, p);
      if ra.Matched? { MoreFuel(n - 1, m - 1, b, s, ra.end); }
    case Alt(a, b) =>
      MoreFuel(n - 1, m - 1, a, s, p);
      if Run(n - 1, a, s, p).Fail? { MoreFuel(n - 1, m - 1, b, s, p); }
    case Star(a) =>
      MoreFuel(n - 1, m - 1, a, s, p);
      var ra := Run(n - 1, a, s, p);
      if ra.Matched? && ra.end != p { MoreFuel(n - 1, m - 1, e, s, ra.end); }
    case Ref(name) => MoreFuel(n - 1, m - 1, Grammar(name), s, p);
    case Act(_, a) => MoreFuel(n - 1, m - 1, a, s, p);
  }

  /** The grammar gives `e` at `p` the outcome `out`. */
  ghost predicate Denotes(e: Peg, s: string, p: nat, out: Outcome)
    requires p <= |s|
  {
    !out.NoFuel? && exists n: nat :: Run(n, e, s, p) == out
  }

  /** There is at most one such outcome. */
  lemma DenotesUnique(e: Peg, s: string, p: nat, a: Outcome, b: Outcome)
    requires p <= |s| && Denotes(e, s, p, a) && Denotes(e, s, p, b)
    ensures a == b
  {
    var n: nat :| Run(n, e, s, p) == a;
    var m: nat :| Run(m, e, s, p) == b;
    MoreFuel(n, n + m, e, s, p);
    MoreFuel(m, n + m, e, s, p);
  }

  // ----- composing outcomes

  lemma DenotesLeaf(e: Peg, s: string, p: nat)
    requires p <= |s| && (e.Lit? || e.Class?)
    ensures Denotes(e, s, p, Run(1, e, s, p))
  {
  }

  function Then(ra: Outcome, rb: Outcome): Outcome {
    if ra.Matched? && rb.Matched? then Matched(rb.end, ra.rules + rb.rules) else if ra.Matched? then rb else ra
  }

  lemma DenotesSeq(a: Peg, b: Peg, s: string, p: nat, ra: Outcome, rb: Outcome)
    requires p <= |s| && Denotes(a, s, p, ra)
    requires ra.Matched? ==> ra.end <= |s| && Denotes(b, s, ra.end, rb)
    ensures Denotes(Seq(a, b), s, p, Then(ra, rb))
  {
    var n: nat :| Run(n, a, s, p) == ra;
    if ra.Matched? {
      var m: nat :| Run(m, b, s, ra.end) == rb;
      MoreFuel(n, n + m, a, s, p);
      MoreFuel(m, n + m, b, s, ra.end);
      assert Run(n + m + 1, Seq(a, b), s, p) == Then(ra, rb);
    } else {
      assert Run(n + 1, Seq(a, b), s, p) == ra;
    }
  }

  lemma DenotesAlt(a: Peg, b: Peg, s: string, p: nat, ra: Outcome, rb: Outcome)
    requires p <= |s| && Denotes(a, s, p, ra) && (ra.Fail? ==> Denotes(b, s, p, rb))
    ensures Denotes(Alt(a, b), s, p, if ra.Fail? then rb else ra)
  {
    var n: nat :| Run(n, a, s, p) == ra;
    if ra.Fail? {
      var m: nat :| Run(m, b, s, p) == rb;
      MoreFuel(n, n + m, a, s, p);
      MoreFuel(m, n + m, b, s, p);
      assert Run(n + m + 1, Alt(a, b), s, p) == rb;
    } else {
      assert Run(n + 1, Alt(a, b), s, p) == ra;
    }
  }

  lemma DenotesRef(name: Name, s: string, p: nat, out: Outcome)
    requires p <= |s| && Denotes(Grammar(name), s, p, out)
    ensures Denotes(Ref(name), s, p, out)
  {
    var n: nat :| Run(n, Grammar(name), s, p) == out;
    hide Grammar;
    assert Run(n + 1, Ref(name), s, p) == out;
  }

  lemma DenotesAct(action: Action, a: Peg, s: string, p: nat, ra: Outcome)
    requires p <= |s| && Denotes(a, s, p, ra) && (ra.Matched? ==> p <= ra.end <= |s|)
    ensures
      Denotes(Act(action, a), s, p,
              if ra.Matched? then Matched(ra.end, Apply(action, ra.rules, s[p..ra.end])) else ra)
  {
    var n: nat :| Run(n, a, s, p) == ra;
    hide Apply;
    var out := if ra.Matched? then Matched(ra.end, Apply(action, ra.rules, s[p..ra.end])) else ra;
    assert Run(n + 1, Act(action, a), s, p) == out;
  }

  // ----- runs of a character class

  predicate InClass(chars: set<char>, inverted: bool, c: char) { (c in chars) != inverted }

  /** Where the longest run of class characters from `p` ends. */
  function RunEnd(s: string, p: nat, chars: set<char>, inverted: bool): (e: nat)
    requires p <= |s|
    ensures p <= e <= |s|
    ensures e < |s| ==> !InClass(chars, inverted, s[e])
    decreases |s| - p
  {
    if p < |s| && InClass(chars, inverted, s[p]) then RunEnd(s, p + 1, chars, inverted) else p
  }

  lemma {:induction false} DenotesRun(s: string, p: nat, chars: set<char>, inverted: bool)
    requires p <= |s|
    ensures Denotes(Star(Class(chars, inverted)), s, p, Matched(RunEnd(s, p, chars, inverted), []))
    decreases |s| - p
  {
    var c := Class(chars, inverted);
    var e := RunEnd(s, p, chars, inverted);
    if p < |s| && InClass(chars, inverted, s[p]) {
      DenotesRun(s, p + 1, chars, inverted);
      var m: nat :| Run(m, Star(c), s, p + 1) == Matched(e, []);
      MoreFuel(m, m + 1, Star(c), s, p + 1);
      assert Run(m + 1, c, s, p) == Matched(p + 1, []);
      assert Run(m + 2, Star(c), s, p) == Matched(e, []);
    } else {
      assert Run(1, c, s, p) == Fail;
      assert Run(2, Star(c), s, p) == Matched(p, []);
    }
  }
}
