/** From a rule tree to the flows it shows: rendered, trimmed, parsed and matched, every rule means its own
    boolean formula (web/client/src/utils/filter.ts, web/client/src/utils/filterRuleParser.js). */
module FilterMeaning {
  import opened Wrappers
  import opened FilterGrammar
  import opened FilterRoundTrip
  import FilterSyntax
  import opened FlowFilter

  lemma FactorEnds(r: Rule)
    ensures var t := RenderFactor(r); t[|t| - 1] == '"' || t[|t| - 1] == ')'
  {
    var t := RenderFactor(r);
    if r.Keyword? {
      assert t == ("\"" + r.value) + "\"";
    } else {
      assert t == ("(" + RenderExpr(r)) + ")";
    }
  }

  /** A rendering begins and ends with characters that trimming keeps. */
  lemma RenderedEnds(r: Rule)
    ensures
      var t := RenderExpr(r);
      t[0] in {'"', '(', 'n'} && (t[|t| - 1] == '"' || t[|t| - 1] == ')')
  {
    match r
    case Keyword(v) => assert RenderExpr(r) == ("\"" + v) + "\"";
    case Not(e) => FactorEnds(e);
    case And(_, b) => FactorEnds(b);
    case Or(_, b) => FactorEnds(b);
  }

  lemma TrimKeeps(s: string)
    requires s != "" && !FlowFilter.IsSpace(s[0]) && !FlowFilter.IsSpace(s[|s| - 1])
    ensures Trim(s) == s
  {
  }

  /** For every rule tree whose keywords hold no double quote and build, the filter made from its rendering
      answers the formula of the tree on every flow. */
  lemma RenderedTextMeans(engine: RegExpEngine, r: Rule, f: Flow)
    requires Quotable(r) && Builds(engine, r)
    ensures Trim(RenderExpr(r)) == RenderExpr(r) && FilterSyntax.ParseText(RenderExpr(r)) == Some(r)
    ensures TextMeaning(engine, RenderExpr(r), f) == Some(Formula(engine, r, f))
  {
    hide RenderExpr;
    hide Trim;
    hide FilterSyntax.ParseText;
    hide Builds;
    hide Formula;
    hide Meaning;
    hide Quotable;
    RenderedEnds(r);
    TrimKeeps(RenderExpr(r));
    RenderedTextParses(r);
    MeaningIsFormula(engine, r, f);
  }

  /** The same of the filter object, for any number of flows one after the other. */
  method ShowRendered(engine: RegExpEngine, r: Rule, flows: seq<Flow>) returns (shown: seq<bool>)
    requires Quotable(r) && Builds(engine, r)
    ensures |shown| == |flows| && forall i :: 0 <= i < |flows| ==> shown[i] == Formula(engine, r, flows[i])
  {
    hide Formula;
    hide Builds;
    hide Quotable;
    hide TextMeaning;
    hide RenderExpr;
    hide Trim;
    hide FilterSyntax.ParseText;
    shown := [];
    if |flows| == 0 {
      return;
    }
    RenderedTextMeans(engine, r, flows[0]);
    var filter := new Filter(engine, RenderExpr(r));
    for i := 0 to |flows|
      invariant filter.Valid() && (filter.rule != null ==> fresh(filter.rule.nodes))
      invariant |shown| == i && forall j :: 0 <= j < i ==> shown[j] == Formula(engine, r, flows[j])
    {
      RenderedTextMeans(engine, r, flows[i]);
      var b := filter.Match(flows[i]);
      shown := shown + [b.value];
    }
  }
}
