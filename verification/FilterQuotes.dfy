/** Quotes after a scope, as docs/web-filter-rules_CN.md writes them (`resbody:"hello world"`), in the grammar of
    filterRuleParser.js: a keyword that begins without a quote ends at the first blank or parenthesis, and a
    quote inside it is one of its characters. */
module FilterQuotes {
  import opened Wrappers
  import opened Strings
  import opened FilterGrammar
  import opened FilterSyntax
  import opened FlowFilter

  const STOPS := {' ', '(', ')'}

  /** No character of `s` ends a bare keyword. */
  predicate Unstopped(s: string) { forall i :: 0 <= i < |s| ==> s[i] !in STOPS }

  /** `s` does not begin with a quote or with white space. */
  predicate StartsBare(s: string) { s == "" || (s[0] != '"' && s[0] != '\'' && s[0] !in SPACE_CHARS) }

  function InQuotes(s: string): string { ['"'] + s + ['"'] }

  // ----- bare keywords

  lemma {:induction false} RunStops(s: string, p: nat, chars: set<char>, inverted: bool, e: nat)
    requires p <= e <= |s| && forall i :: p <= i < e ==> InClass(chars, inverted, s[i])
    requires e < |s| ==> !InClass(chars, inverted, s[e])
    ensures RunEnd(s, p, chars, inverted) == e
    decreases e - p
  {
    if p < e {
      RunStops(s, p + 1, chars, inverted, e);
    }
  }

  lemma {:induction false} RunReaches(s: string, p: nat)
    requires p <= |s| && BareEnd(s, p) == |s|
    ensures forall i :: p <= i < |s| ==> s[i] !in STOPS
    decreases |s| - p
  {
    if p < |s| {
      RunReaches(s, p + 1);
    }
  }

  predicate BareAt(s: string, p: nat) {
    p <= |s| && (p < |s| ==> s[p] != '(' && s[p] != '"' && s[p] != '\'' && s[p] !in SPACE_CHARS) && !At(s, p, "not")
  }

  /** An operand that begins bare and not with `not` is a bare keyword. */
  lemma BareOperand(s: string, p: nat)
    requires BareAt(s, p)
    ensures ParseNot(s, p) == (Keyword(s[p..BareEnd(s, p)]), BareEnd(s, p))
  {
    hide RunEnd;
    RunStops(s, p, SPACE_CHARS, false, p);
  }

  lemma NothingFollows(s: string, word: string)
    requires word != ""
    ensures SkipSpace(s, |s|) == |s| && !At(s, |s|, word)
  {
  }

  /** It is all there is when the text ends with it. */
  lemma BareToEnd(s: string, p: nat)
    requires BareAt(s, p) && BareEnd(s, p) == |s|
    ensures ParseAnd(s, p) == (Keyword(s[p..]), |s|) && ParseOr(s, p) == (Keyword(s[p..]), |s|)
  {
    BareOperand(s, p);
    NothingFollows(s, "and");
    NothingFollows(s, "or");
    assert s[p..|s|] == s[p..];
    hide ParseNot;
    hide BareEnd;
    hide SkipSpace;
    hide At;
  }

  lemma AtStart(s: string, t: string)
    ensures At(s, 0, t) <==> t <= s
  {
    if t <= s {
      assert s[0..0 + |t|] == t;
    }
  }

  /** A text that begins bare and not with `not` is one keyword exactly when nothing stops it; otherwise it is
      refused or read as more than one. */
  lemma BareText(s: string)
    requires StartsBare(s) && (s != "" ==> s[0] != '(') && !("not" <= s)
    ensures ParseText(s) == Some(Keyword(s)) <==> BareEnd(s, 0) == |s|
    ensures BareEnd(s, 0) != |s| ==> ParseText(s) == None || ParseText(s).value.And? || ParseText(s).value.Or?
  {
    AtStart(s, "not");
    BareOperand(s, 0);
    var e := BareEnd(s, 0);
    if e == |s| {
      BareToEnd(s, 0);
      assert s[0..] == s;
    } else {
      hide BareEnd;
      ShortOperand(s, e);
    }
  }

  lemma ShortOperand(s: string, e: nat)
    requires e < |s| && ParseNot(s, 0) == (Keyword(s[0..e]), e)
    ensures ParseText(s) == None || ParseText(s).value.And? || ParseText(s).value.Or?
  {
    hide ParseNot;
    hide SkipSpace;
    assert ParseAnd(s, 0) == (Keyword(s[0..e]), e) || ParseAnd(s, 0).0.And?;
  }

  /** It is refused when it is stopped and no connective follows. */
  lemma StoppedText(s: string)
    requires BareAt(s, 0) && BareEnd(s, 0) < |s|
    requires !At(s, SkipSpace(s, BareEnd(s, 0)), "and") && !At(s, SkipSpace(s, BareEnd(s, 0)), "or")
    ensures ParseText(s) == None
  {
    BareOperand(s, 0);
    var e := BareEnd(s, 0);
    hide ParseNot;
    hide BareEnd;
    hide SkipSpace;
    hide At;
    assert ParseAnd(s, 0) == (Keyword(s[0..e]), e);
  }

  lemma BareEndExactly(s: string)
    ensures BareEnd(s, 0) == |s| <==> Unstopped(s)
  {
    if Unstopped(s) {
      RunStops(s, 0, STOPS, true, |s|);
    } else if BareEnd(s, 0) == |s| {
      RunReaches(s, 0);
    }
  }

  /** A word without blanks and parentheses is one keyword exactly when it does not begin with `not`. */
  lemma BareWordExactly(w: string)
    requires Unstopped(w) && StartsBare(w)
    ensures ParseText(w) == Some(Keyword(w)) <==> !("not" <= w)
  {
    if "not" <= w {
      NotFirst(w);
    } else {
      BareEndExactly(w);
      BareText(w);
    }
  }

  lemma NotFirst(w: string)
    requires "not" <= w
    ensures ParseText(w).Some? ==> !ParseText(w).value.Keyword?
  {
    RunStops(w, 0, SPACE_CHARS, false, 0);
    AtStart(w, "not");
    hide ParseFactor;
    hide RunEnd;
    assert ParseNot(w, 0).0.Not?;
    hide ParseNot;
    assert !ParseAnd(w, 0).0.Keyword?;
    hide ParseAnd;
  }

  lemma QuoteAfterNot(k: string, rest: string)
    ensures "not" <= k + ['"'] + rest <==> "not" <= k
  {
    var s := k + ['"'] + rest;
    if |k| >= 3 {
      assert s[..3] == k[..3];
    } else {
      assert s[|k|] == '"' && "not"[|k|] != '"';
    }
  }

  /** A keyword followed by a quoted text is read as one keyword exactly when the quoted text has no blank and no
      parenthesis, and then the quotes belong to the keyword; otherwise it is refused or read as more than one. */
  lemma QuotedTailExactly(k: string, v: string)
    requires k != "" && Unstopped(k) && StartsBare(k) && !("not" <= k)
    ensures
      var r := ParseText(k + InQuotes(v));
      (r == Some(Keyword(k + InQuotes(v))) <==> Unstopped(v)) &&
      (!Unstopped(v) ==> r == None || r.value.And? || r.value.Or?)
  {
    var s := k + InQuotes(v);
    assert s[0] == k[0] && k[0] !in STOPS;
    assert s == k + ['"'] + (v + ['"']);
    QuoteAfterNot(k, v + ['"']);
    BareText(s);
    BareEndExactly(s);
    TailStops(k, v);
  }

  /** With a blank in it, and no connective after that, the text is refused. */
  lemma QuotedBlankRefused(k: string, v: string, w: string)
    requires k != "" && Unstopped(k) && StartsBare(k) && !("not" <= k)
    requires Unstopped(v) && (w != "" ==> w[0] !in SPACE_CHARS) && !("and" <= w) && !("or" <= w)
    ensures ParseText(k + InQuotes(v + [' '] + w)) == None
  {
    hide ParseText;
    hide ParseNot;
    hide ParseOr;
    hide At;
    hide RunEnd;
    var s, e := k + InQuotes(v + [' '] + w), |k| + 1 + |v|;
    var rest := w + ['"'];
    assert s == k + ['"'] + (v + [' '] + w + ['"']);
    BlankAt(s, k, v, w);
    QuoteAfterNot(k, v + [' '] + w + ['"']);
    AtStart(s, "not");
    RunStops(s, 0, STOPS, true, e);
    RunStops(s, e, SPACE_CHARS, false, e + 1);
    NoWord(s, e + 1, w, "and");
    NoWord(s, e + 1, w, "or");
    StoppedText(s);
  }

  lemma AtIn(s: string, p: nat, rest: string, word: string)
    requires p <= |s| && s[p..] == rest
    ensures At(s, p, word) <==> word <= rest
  {
    if |word| <= |rest| {
      assert s[p..p + |word|] == rest[..|word|];
    }
  }

  lemma BeforeQuote(word: string, w: string)
    requires '"' !in word
    ensures word <= w + ['"'] <==> word <= w
  {
    if |word| <= |w| {
      assert (w + ['"'])[..|word|] == w[..|word|];
    } else {
      assert (w + ['"'])[|w|] == '"' && word[|w|] != '"';
    }
  }

  lemma NoWord(s: string, p: nat, w: string, word: string)
    requires p <= |s| && s[p..] == w + ['"'] && '"' !in word && !(word <= w)
    ensures !At(s, p, word)
  {
    AtIn(s, p, w + ['"'], word);
    BeforeQuote(word, w);
  }

  /** Where the blank is, and what is around it. */
  lemma BlankAt(s: string, k: string, v: string, w: string)
    requires k != "" && Unstopped(k) && StartsBare(k) && Unstopped(v) && (w != "" ==> w[0] !in SPACE_CHARS)
    requires s == k + InQuotes(v + [' '] + w)
    ensures
      var e := |k| + 1 + |v|;
      e + 1 < |s| && s[e] == ' ' && s[e + 1] !in SPACE_CHARS && s[e + 1..] == w + ['"'] && s[..e] == k + ['"'] + v &&
      (forall i :: 0 <= i < e ==> s[i] !in STOPS) && s[0] == k[0]
  {
    var e := |k| + 1 + |v|;
    assert s == (k + ['"'] + v) + [' '] + (w + ['"']);
    assert forall i :: 0 <= i < |v| ==> s[|k| + 1 + i] == v[i];
    forall i | 0 <= i < e ensures s[i] !in STOPS {
      assert s[i] == if i < |k| then k[i] else if i == |k| then '"' else v[i - |k| - 1];
    }
  }

  /** With a blank and then `or` in it, it is taken for two keywords. */
  lemma QuotedOrSplits(k: string, v: string, w: string)
    requires k != "" && Unstopped(k) && StartsBare(k) && !("not" <= k) && Unstopped(v)
    requires w != "" && Unstopped(w) && StartsBare(w) && !("not" <= w)
    ensures ParseText(k + InQuotes(v + " or" + w)) == Some(Or(Keyword(k + ['"'] + v), Keyword(w + ['"'])))
  {
    hide ParseText;
    hide ParseNot;
    hide ParseOr;
    hide At;
    hide RunEnd;
    var s, e := k + InQuotes(v + " or" + w), |k| + 1 + |v|;
    assert v + [' '] + ("or" + w) == v + " or" + w;
    BlankAt(s, k, v, "or" + w);
    assert s == k + ['"'] + (v + " or" + w + ['"']);
    QuoteAfterNot(k, v + " or" + w + ['"']);
    AtStart(s, "not");
    RunStops(s, 0, STOPS, true, e);
    RunStops(s, e, SPACE_CHARS, false, e + 1);
    BareOperand(s, 0);
    assert s[0..e] == s[..e];
    OrFollows(s, e + 1, w);
    AtSplit(s, e, w);
  }

  lemma OrFollows(s: string, p: nat, w: string)
    requires p <= |s| && s[p..] == "or" + w + ['"'] && w != "" && Unstopped(w) && StartsBare(w) && !("not" <= w)
    ensures At(s, p, "or") && !At(s, p, "and")
    ensures SkipSpace(s, p + 2) == p + 2 && ParseOr(s, p + 2) == (Keyword(w + ['"']), |s|)
  {
    var q := p + 2;
    assert s[q..] == w + ['"'];
    AtIn(s, p, "or" + w + ['"'], "or");
    AtIn(s, p, "or" + w + ['"'], "and");
    assert ("or" + w + ['"'])[0] == 'o';
    assert s[q] == s[q..][0] == w[0];
    assert w[0] !in STOPS;
    RunStops(s, q, SPACE_CHARS, false, q);
    NoWord(s, q, w, "not");
    forall i | q <= i < |s| ensures s[i] !in STOPS {
      assert s[i] == s[q..][i - q];
    }
    RunStops(s, q, STOPS, true, |s|);
    BareToEnd(s, q);
  }

  lemma AtSplit(s: string, e: nat, w: string)
    requires e + 3 <= |s| && ParseNot(s, 0) == (Keyword(s[..e]), e) && SkipSpace(s, e) == e + 1
    requires At(s, e + 1, "or") && !At(s, e + 1, "and")
    requires SkipSpace(s, e + 3) == e + 3 && ParseOr(s, e + 3) == (Keyword(w + ['"']), |s|)
    ensures ParseText(s) == Some(Or(Keyword(s[..e]), Keyword(w + ['"'])))
  {
    hide ParseNot;
    hide SkipSpace;
    hide At;
    assert ParseAnd(s, 0) == (Keyword(s[..e]), e);
    hide ParseAnd;
  }

  lemma TailStops(k: string, v: string)
    requires Unstopped(k)
    ensures Unstopped(k + InQuotes(v)) <==> Unstopped(v)
  {
    var s := k + InQuotes(v);
    assert forall i :: 0 <= i < |v| ==> s[|k| + 1 + i] == v[i];
    if Unstopped(s) {
      forall i | 0 <= i < |v| ensures v[i] !in STOPS {
        assert s[|k| + 1 + i] !in STOPS;
      }
    }
  }

  // ----- scopes

  lemma ScopesDiffer(j: nat, k: nat)
    requires j < k < |SCOPES|
    ensures |SCOPES[j].0| >= 4 && |SCOPES[k].0| >= 4
    ensures
      SCOPES[j].0[0] != SCOPES[k].0[0] || SCOPES[j].0[2] != SCOPES[k].0[2] || SCOPES[j].0[3] != SCOPES[k].0[3]
  {
  }

  lemma {:induction false} ScopeFound(k: nat, rest: string, j: nat)
    requires j <= k < |SCOPES|
    ensures SplitScope(SCOPES[k].0 + rest, j) == (SCOPES[k].1, Trim(rest))
    decreases k - j
  {
    var text := SCOPES[k].0 + rest;
    if j < k {
      ScopesDiffer(j, k);
      hide Trim;
      assert text[0] == SCOPES[k].0[0] && text[2] == SCOPES[k].0[2] && text[3] == SCOPES[k].0[3];
      assert !(SCOPES[j].0 <= text);
      ScopeFound(k, rest, j + 1);
    } else {
      hide Trim;
      assert text[|SCOPES[k].0|..] == rest;
    }
  }

  lemma NothingToTrim(s: string)
    requires s != "" && !IsSpace(s[0]) && !IsSpace(s[|s| - 1])
    ensures Trim(s) == s
  {
  }

  lemma ScopeStarts(k: nat)
    requires k < |SCOPES|
    ensures
      var p := SCOPES[k].0;
      p != "" && Unstopped(p) && StartsBare(p) && !("not" <= p) && !IsSpace(p[0]) && '"' !in p
  {
  }

  /** The keyword of a scope with a quoted text looks for the text with its quotes. */
  lemma ScopedQuotes(engine: RegExpEngine, k: nat, v: string)
    requires k < |SCOPES|
    ensures
      MakeKeyword(engine, SCOPES[k].0 + InQuotes(v)) == Some(KeywordFilter(SCOPES[k].1, Matcher.Text(InQuotes(v))))
  {
    ScopeStarts(k);
    var text := SCOPES[k].0 + InQuotes(v);
    assert text[0] == SCOPES[k].0[0] && text[|text| - 1] == '"';
    NothingToTrim(text);
    NothingToTrim(InQuotes(v));
    ScopeFound(k, InQuotes(v), 0);
    hide Trim;
    hide SplitScope;
  }

  /** `scope:"v"` is one keyword exactly when `v` needs no quotes, and it then looks for the text with the quotes:
      it never is the keyword of that scope that looks for `v`. */
  lemma ScopedQuotesNeverMean(engine: RegExpEngine, k: nat, v: string)
    requires k < |SCOPES|
    ensures
      var text := SCOPES[k].0 + InQuotes(v);
      (ParseText(text) == Some(Keyword(text)) <==> Unstopped(v)) &&
      (forall f :: Meaning(engine, Keyword(text), f) == Some(MatchScope(SCOPES[k].1, Matcher.Text(InQuotes(v)), f))) &&
      (forall f: Flow :: SCOPES[k].1 == ResBody && f.resBody == Some(v) && v != "" ==>
         MatchScope(ResBody, Matcher.Text(v), f) && !MatchScope(ResBody, Matcher.Text(InQuotes(v)), f))
  {
    ScopeStarts(k);
    QuotedTailExactly(SCOPES[k].0, v);
    ScopedQuotes(engine, k, v);
    assert v <= v[0..];
    hide ParseText;
    hide MakeKeyword;
  }

  /** Quotes around the whole keyword do: any text without a double quote can follow the scope, and the keyword
      looks for it if it is trimmed and does not begin with a slash. */
  lemma WholeQuotesMean(engine: RegExpEngine, k: nat, v: string)
    requires k < |SCOPES| && '"' !in v
    ensures ParseText(InQuotes(SCOPES[k].0 + v)) == Some(Keyword(SCOPES[k].0 + v))
    ensures
      v != "" && !IsSpace(v[0]) && !IsSpace(v[|v| - 1]) && v[0] != '/' ==>
        MakeKeyword(engine, SCOPES[k].0 + v) == Some(KeywordFilter(SCOPES[k].1, Matcher.Text(v)))
  {
    ScopeStarts(k);
    WholeQuotes(SCOPES[k].0 + v);
    if v != "" && !IsSpace(v[0]) && !IsSpace(v[|v| - 1]) && v[0] != '/' {
      var text := SCOPES[k].0 + v;
      assert text[0] == SCOPES[k].0[0] && text[|text| - 1] == v[|v| - 1];
      NothingToTrim(text);
      NothingToTrim(v);
      ScopeFound(k, v, 0);
      hide Trim;
      hide SplitScope;
    }
  }

  lemma WholeQuotes(t: string)
    requires '"' !in t
    ensures ParseText(InQuotes(t)) == Some(Keyword(t))
  {
    var s := InQuotes(t);
    assert forall i :: 0 <= i < |t| ==> s[1 + i] == t[i];
    RunStops(s, 1, {'"'}, true, |t| + 1);
    RunStops(s, 0, SPACE_CHARS, false, 0);
    assert s[1..|t| + 1] == t;
    hide RunEnd;
    assert ParseFactor(s, 0) == (Keyword(t), |s|);
    hide ParseFactor;
    NothingFollows(s, "and");
    NothingFollows(s, "or");
    assert ParseNot(s, 0) == (Keyword(t), |s|);
    hide ParseNot;
    assert ParseAnd(s, 0) == (Keyword(t), |s|);
  }

  // ----- two texts

  /** The documented text is refused. */
  lemma DocumentedTextRefused()
    ensures ParseText("resbody:\"hello world\"") == None
  {
    hide ParseText;
    QuotedBlankRefused("resbody:", "hello", "world");
    assert "resbody:" + InQuotes("hello" + [' '] + "world") == "resbody:\"hello world\"";
  }

  lemma ShortTextRefused()
    ensures ParseText("url:\"a b\"") == None
  {
    hide ParseText;
    QuotedBlankRefused("url:", "a", "b");
    assert "url:" + InQuotes("a" + [' '] + "b") == "url:\"a b\"";
  }

  /** One like it is accepted and means something else. */
  lemma SplitText()
    ensures ParseText("a:\"x orb\"") == Some(Or(Keyword("a:\"x"), Keyword("b\"")))
  {
    hide ParseText;
    QuotedOrSplits("a:", "x", "b");
    assert "a:" + InQuotes("x" + " or" + "b") == "a:\"x orb\"";
    assert "a:" + ['"'] + "x" == "a:\"x" && "b" + ['"'] == "b\"";
  }
}
