/** Which texts of a flow a keyword searches, and for what (web/client/src/utils/filter.ts, FlowFilterKeyword): the
    reading of `scope:text`, `scope:/regexp/` and `scope:/regexp/i` for each scope by its name. */
module FilterScopes {
  import opened Wrappers
  import opened Strings
  import opened FilterGrammar
  import FilterSyntax
  import opened FlowFilter
  import opened FilterQuotes

  const NAMES := ["url", "method", "code", "header", "reqheader", "resheader", "body", "reqbody", "resbody", "all"]

  /** Names and values of headers. */
  function HeaderTexts(hs: Headers): set<string> { set h, t | h in hs && t in [h.0] + h.1 :: t }

  function Given(t: Option<string>): set<string> { if t.Some? then {t.value} else {} }

  /** The texts that a scope stands for; an empty body is none. */
  function Searched(name: string, f: Flow): set<string>
    decreases if name == "all" then 2 else if name in {"header", "body"} then 1 else 0
  {
    match name
    case "url" => {f.url}
    case "method" => {f.verb, f.lowerVerb}
    case "code" => Given(f.code)
    case "reqheader" => HeaderTexts(f.reqHeader)
    case "resheader" => if f.resHeader.Some? then HeaderTexts(f.resHeader.value) else {}
    case "header" => Searched("reqheader", f) + Searched("resheader", f)
    case "reqbody" => Given(f.reqBody) - {""}
    case "resbody" => Given(f.resBody) - {""}
    case "body" => Searched("reqbody", f) + Searched("resbody", f)
    case "all" => Searched("url", f) + Searched("method", f) + Searched("header", f) + Searched("body", f)
    case _ => {}
  }

  /** One of the texts has `sub` in it. */
  ghost predicate SomeHolds(texts: set<string>, sub: string) {
    exists t, a: string, b: string :: t in texts && t == a + sub + b
  }

  /** One of the texts that are not empty meets `test`. */
  predicate SomeMeets(texts: set<string>, test: string -> bool) { exists t | t in texts :: t != "" && test(t) }

  // ----- what a scope searches

  /** A matcher finds something among the texts. */
  ghost predicate Finds(m: Matcher, texts: set<string>) { exists t :: t in texts && MatchText(m, t) }

  lemma HeaderSearched(m: Matcher, key: string, vals: seq<string>)
    ensures
      MatchText(m, key) || (exists j | 0 <= j < |vals| :: MatchText(m, vals[j])) <==>
      exists t :: t in [key] + vals && MatchText(m, t)
  {
    hide MatchText;
    var all := [key] + vals;
    assert all[0] == key;
    if j :| 0 <= j < |vals| && MatchText(m, vals[j]) {
      assert all[j + 1] == vals[j];
    }
    if t :| t in all && MatchText(m, t) {
      var i :| 0 <= i < |all| && all[i] == t;
      if i > 0 {
        assert vals[i - 1] == t;
      }
    }
  }

  lemma HeadersSearched(m: Matcher, hs: Headers)
    ensures MatchHeaders(m, hs) <==> Finds(m, HeaderTexts(hs))
  {
    hide MatchText;
    forall i | 0 <= i < |hs|
      ensures
        MatchText(m, hs[i].0) || (exists j | 0 <= j < |hs[i].1| :: MatchText(m, hs[i].1[j])) <==>
        exists t :: t in [hs[i].0] + hs[i].1 && MatchText(m, t)
    {
      HeaderSearched(m, hs[i].0, hs[i].1);
    }
    if t :| t in HeaderTexts(hs) && MatchText(m, t) {
      var h :| h in hs && t in [h.0] + h.1;
      var i :| 0 <= i < |hs| && hs[i] == h;
      assert t in [hs[i].0] + hs[i].1;
    }
    if MatchHeaders(m, hs) {
      var i :| 0 <= i < |hs| &&
               (MatchText(m, hs[i].0) || exists j | 0 <= j < |hs[i].1| :: MatchText(m, hs[i].1[j]));
      var t :| t in [hs[i].0] + hs[i].1 && MatchText(m, t);
      assert t in HeaderTexts(hs);
    }
  }

  lemma FindsUnion(m: Matcher, a: set<string>, b: set<string>)
    ensures Finds(m, a + b) <==> Finds(m, a) || Finds(m, b)
  {
    hide MatchText;
    if t :| t in a && MatchText(m, t) {
      assert t in a + b;
    }
    if t :| t in b && MatchText(m, t) {
      assert t in a + b;
    }
  }

  lemma FindsOne(m: Matcher, t: string)
    ensures Finds(m, {t}) <==> MatchText(m, t)
  {
    hide MatchText;
    assert t in {t};
  }

  lemma FindsGiven(m: Matcher, t: Option<string>)
    ensures Finds(m, Given(t)) <==> t.Some? && MatchText(m, t.value)
    ensures Finds(m, Given(t) - {""}) <==> MatchBody(m, t)
  {
    hide MatchText;
    if t.Some? {
      assert t.value in Given(t);
    }
  }

  /** A scope holds exactly when one of its texts does. */
  lemma PlainScopes(m: Matcher, f: Flow)
    ensures MatchScope(Url, m, f) <==> Finds(m, Searched("url", f))
    ensures MatchScope(Method, m, f) <==> Finds(m, Searched("method", f))
    ensures MatchScope(Code, m, f) <==> Finds(m, Searched("code", f))
    ensures MatchScope(ReqHeader, m, f) <==> Finds(m, Searched("reqheader", f))
    ensures MatchScope(ResHeader, m, f) <==> Finds(m, Searched("resheader", f))
    ensures MatchScope(ReqBody, m, f) <==> Finds(m, Searched("reqbody", f))
    ensures MatchScope(ResBody, m, f) <==> Finds(m, Searched("resbody", f))
  {
    FindsOne(m, f.url);
    FindsOne(m, f.verb);
    FindsOne(m, f.lowerVerb);
    FindsUnion(m, {f.verb}, {f.lowerVerb});
    assert {f.verb} + {f.lowerVerb} == {f.verb, f.lowerVerb};
    FindsGiven(m, f.code);
    FindsGiven(m, f.reqBody);
    FindsGiven(m, f.resBody);
    HeadersSearched(m, f.reqHeader);
    if f.resHeader.Some? {
      HeadersSearched(m, f.resHeader.value);
    }
    hide MatchText;
    hide MatchHeaders;
    hide MatchBody;
    hide HeaderTexts;
    hide Given;
  }

  lemma JoinedScopes(m: Matcher, f: Flow)
    ensures MatchScope(Header, m, f) <==> Finds(m, Searched("header", f))
    ensures MatchScope(Body, m, f) <==> Finds(m, Searched("body", f))
    ensures MatchScope(All, m, f) <==> Finds(m, Searched("all", f))
  {
    PlainScopes(m, f);
    FindsUnion(m, Searched("reqheader", f), Searched("resheader", f));
    FindsUnion(m, Searched("reqbody", f), Searched("resbody", f));
    FindsUnion(m, Searched("url", f), Searched("method", f));
    FindsUnion(m, Searched("url", f) + Searched("method", f), Searched("header", f));
    FindsUnion(m, Searched("url", f) + Searched("method", f) + Searched("header", f), Searched("body", f));
    hide MatchText;
    hide MatchHeaders;
    hide MatchBody;
    hide Finds;
    hide HeaderTexts;
    hide Given;
  }

  lemma NamesAreScopes(k: nat)
    requires k < |NAMES|
    ensures |NAMES| == |SCOPES| && SCOPES[k].0 == NAMES[k] + ":"
  {
  }

  lemma NamedScopes(k: nat, m: Matcher, f: Flow)
    requires k < |NAMES|
    ensures |NAMES| == |SCOPES| && (MatchScope(SCOPES[k].1, m, f) <==> Finds(m, Searched(NAMES[k], f)))
  {
    hide MatchScope;
    hide Searched;
    hide Finds;
    PlainScopes(m, f);
    JoinedScopes(m, f);
    if k < 3 {
      assert k == 0 || k == 1 || k == 2;
    } else if k < 6 {
      assert k == 3 || k == 4 || k == 5;
    } else {
      assert k == 6 || k == 7 || k == 8 || k == 9;
    }
  }

  // ----- what it looks for

  lemma FindsText(texts: set<string>, v: string)
    requires v != ""
    ensures Finds(Matcher.Text(v), texts) <==> SomeHolds(texts, v)
  {
    hide Contains;
    forall t ensures MatchText(Matcher.Text(v), t) <==> exists a: string, b: string :: t == a + v + b {
      ContainsMeans(t, v);
    }
  }

  lemma FindsPattern(texts: set<string>, test: string -> bool)
    ensures Finds(RegExp(test), texts) <==> SomeMeets(texts, test)
  {
  }

  lemma FindsAnything(texts: set<string>)
    ensures Finds(Anything, texts) <==> texts != {}
  {
    if texts != {} {
      var t :| t in texts;
      assert MatchText(Anything, t);
    }
  }

  predicate Trimmed(s: string) { s != "" && !IsSpace(s[0]) && !IsSpace(s[|s| - 1]) }

  lemma Scoped(engine: RegExpEngine, k: nat, v: string)
    requires k < |NAMES| && Trimmed(v)
    ensures |NAMES| == |SCOPES|
    ensures
      MakeKeyword(engine, NAMES[k] + ":" + v) ==
      if MakeMatcher(engine, v).Some? then Some(KeywordFilter(SCOPES[k].1, MakeMatcher(engine, v).value)) else None
  {
    NamesAreScopes(k);
    ScopeStarts(k);
    var text := SCOPES[k].0 + v;
    assert text[0] == SCOPES[k].0[0] && text[|text| - 1] == v[|v| - 1];
    NothingToTrim(text);
    NothingToTrim(v);
    ScopeFound(k, v, 0);
    hide Trim;
    hide SplitScope;
    hide MakeMatcher;
  }

  /** `v` is written as a regular expression. */
  predicate Slashed(v: string) {
    v != "" && v[0] == '/' && (v[|v| - 1] == '/' || (|v| >= 2 && v[|v| - 2] == '/' && v[|v| - 1] == 'i'))
  }

  lemma PlainMatcher(engine: RegExpEngine, v: string)
    requires v != "" && !Slashed(v)
    ensures MakeMatcher(engine, v) == Some(Matcher.Text(v))
  {
    if EndsWith(v, "/i") {
      assert v[|v| - 2..][0] == v[|v| - 2] && v[|v| - 2..][1] == v[|v| - 1];
    }
    if EndsWith(v, "/") {
      assert v[|v| - 1..][0] == v[|v| - 1];
    }
  }

  /** `scope:text` holds of a flow exactly when one of the texts of the scope has the text in it. */
  lemma TextKeyword(engine: RegExpEngine, k: nat, v: string, f: Flow)
    requires k < |NAMES| && Trimmed(v) && !Slashed(v)
    ensures Meaning(engine, Keyword(NAMES[k] + ":" + v), f) == Some(SomeHolds(Searched(NAMES[k], f), v))
  {
    Scoped(engine, k, v);
    NamedScopes(k, Matcher.Text(v), f);
    FindsText(Searched(NAMES[k], f), v);
    PlainMatcher(engine, v);
    hide MakeMatcher;
    hide MakeKeyword;
    hide MatchScope;
    hide Searched;
    hide Finds;
  }

  lemma PatternMatcher(engine: RegExpEngine, src: string, ignoreCase: bool)
    ensures
      var v := "/" + src + if ignoreCase then "/i" else "/";
      Trimmed(v) &&
      MakeMatcher(engine, v) ==
      if Trim(src) == "" then Some(Anything)
      else if engine(Trim(src), ignoreCase).Some? then Some(RegExp(engine(Trim(src), ignoreCase).value))
      else None
  {
    var v := "/" + src + if ignoreCase then "/i" else "/";
    var inner := "/" + src + "/";
    assert v[|v| - 1] == if ignoreCase then 'i' else '/';
    assert EndsWith(v, if ignoreCase then "/i" else "/");
    assert EndsWith(v, "i") <==> ignoreCase;
    if ignoreCase {
      assert v[..|v| - 1] == inner;
    }
    assert Inner(inner) == src;
    hide Trim;
  }

  /** `scope:/src/` and `scope:/src/i` ask the engine for `src`, trimmed, without and with ignoring case, and hold
      exactly when a text of the scope that is not empty matches; they throw where the engine refuses it. A blank
      `src` holds where the scope has any text. */
  lemma PatternKeyword(engine: RegExpEngine, k: nat, src: string, ignoreCase: bool, f: Flow)
    requires k < |NAMES|
    ensures
      var v, test := "/" + src + (if ignoreCase then "/i" else "/"), engine(Trim(src), ignoreCase);
      Meaning(engine, Keyword(NAMES[k] + ":" + v), f) ==
      if Trim(src) == "" then Some(Searched(NAMES[k], f) != {})
      else if test.Some? then Some(SomeMeets(Searched(NAMES[k], f), test.value))
      else None
  {
    var v, test := "/" + src + (if ignoreCase then "/i" else "/"), engine(Trim(src), ignoreCase);
    PatternMatcher(engine, src, ignoreCase);
    Scoped(engine, k, v);
    if Trim(src) == "" {
      NamedScopes(k, Anything, f);
      FindsAnything(Searched(NAMES[k], f));
    } else if test.Some? {
      NamedScopes(k, RegExp(test.value), f);
      FindsPattern(Searched(NAMES[k], f), test.value);
    }
    hide Trim;
    hide MakeMatcher;
    hide MakeKeyword;
    hide MatchScope;
    hide Searched;
    hide Finds;
    hide SomeMeets;
  }

  lemma LoneSlashMatcher(engine: RegExpEngine)
    ensures MakeMatcher(engine, "/") == Some(Anything) && MakeMatcher(engine, "/i") == Some(Anything)
  {
    assert Inner("/") == "" && Trim("") == "";
    assert EndsWith("/", "/") && !EndsWith("/", "i");
    assert EndsWith("/i", "/i") && EndsWith("/i", "i") && "/i"[..1] == "/";
    hide Trim;
    hide Inner;
    hide EndsWith;
  }

  /** A slash alone, also with an `i`, is a blank regular expression. */
  lemma LoneSlash(engine: RegExpEngine, k: nat, v: string, f: Flow)
    requires k < |NAMES| && v in {"/", "/i"}
    ensures Meaning(engine, Keyword(NAMES[k] + ":" + v), f) == Some(Searched(NAMES[k], f) != {})
  {
    assert Trimmed(v) by { assert v[0] == '/' && v[|v| - 1] in {'/', 'i'}; }
    LoneSlashMatcher(engine);
    AnythingKeyword(engine, k, v, f);
  }

  lemma AnythingKeyword(engine: RegExpEngine, k: nat, v: string, f: Flow)
    requires k < |NAMES| && Trimmed(v) && MakeMatcher(engine, v) == Some(Anything)
    ensures Meaning(engine, Keyword(NAMES[k] + ":" + v), f) == Some(Searched(NAMES[k], f) != {})
  {
    hide Trim;
    hide MakeMatcher;
    hide MakeKeyword;
    hide MatchScope;
    hide Searched;
    hide Finds;
    Scoped(engine, k, v);
    NamedScopes(k, Anything, f);
    FindsAnything(Searched(NAMES[k], f));
  }

  /** Every text of a keyword is one of these: a text, a slash alone, or something between slashes. */
  lemma EveryText(v: string)
    requires Trimmed(v) && Slashed(v) && v != "/" && v != "/i"
    ensures exists src: string :: v == "/" + src + "/" || v == "/" + src + "/i"
  {
    if v[|v| - 1] == '/' {
      assert v == "/" + v[1..|v| - 1] + "/";
    } else if |v| > 2 {
      assert v == "/" + v[1..|v| - 2] + "/i";
    }
  }

  /** A scope without a text holds exactly of the flows that have a text of that scope. */
  lemma EmptyKeyword(engine: RegExpEngine, k: nat, f: Flow)
    requires k < |NAMES|
    ensures Meaning(engine, Keyword(NAMES[k] + ":"), f) == Some(Searched(NAMES[k], f) != {})
  {
    NamesAreScopes(k);
    ScopeStarts(k);
    var text := SCOPES[k].0 + "";
    assert text == NAMES[k] + ":" && text[|text| - 1] == ':';
    NothingToTrim(text);
    ScopeFound(k, "", 0);
    assert Trim("") == "";
    NamedScopes(k, Anything, f);
    FindsAnything(Searched(NAMES[k], f));
    hide Trim;
    hide SplitScope;
    hide MatchScope;
    hide Searched;
    hide Finds;
  }

  /** A text without a scope is looked for in the URL. */
  lemma UnscopedKeyword(engine: RegExpEngine, v: string, f: Flow)
    requires Trimmed(v) && !Slashed(v) && forall k :: 0 <= k < |NAMES| ==> !(NAMES[k] + ":" <= v)
    ensures Meaning(engine, Keyword(v), f) == Some(exists a: string, b: string :: f.url == a + v + b)
  {
    NothingToTrim(v);
    NoScope(v, 0);
    PlainMatcher(engine, v);
    PlainScopes(Matcher.Text(v), f);
    FindsText(Searched("url", f), v);
    hide Trim;
    hide SplitScope;
    hide MakeMatcher;
    hide MatchScope;
    hide Finds;
  }

  lemma {:induction false} NoScope(v: string, k: nat)
    requires k <= |SCOPES| && forall k :: 0 <= k < |NAMES| ==> !(NAMES[k] + ":" <= v)
    ensures SplitScope(v, k) == (Url, v)
    decreases |SCOPES| - k
  {
    if k < |SCOPES| {
      NamesAreScopes(k);
      NoScope(v, k + 1);
      hide Trim;
    }
  }

  // ----- whole filter texts

  predicate Blank(s: string) { forall i :: 0 <= i < |s| ==> IsSpace(s[i]) }

  lemma {:induction false} TrimStartMeans(s: string) returns (a: string)
    ensures s == a + TrimStart(s) && Blank(a) && (TrimStart(s) != "" ==> !IsSpace(TrimStart(s)[0]))
  {
    hide IsSpace;
    if s != "" && IsSpace(s[0]) {
      var rest := TrimStartMeans(s[1..]);
      a := [s[0]] + rest;
      assert s == [s[0]] + s[1..];
    } else {
      a := "";
    }
  }

  lemma {:induction false} TrimEndMeans(s: string) returns (b: string)
    ensures s == TrimEnd(s) + b && Blank(b) && TrimEnd(s) <= s
    ensures TrimEnd(s) != "" ==> !IsSpace(TrimEnd(s)[|TrimEnd(s)| - 1])
  {
    hide IsSpace;
    if s != "" && IsSpace(s[|s| - 1]) {
      var n := |s| - 1;
      var rest := TrimEndMeans(s[..n]);
      b := rest + [s[n]];
      assert s == s[..n] + [s[n]];
    } else {
      b := "";
      assert s + "" == s;
    }
  }

  /** Trimming takes away just the white space at both ends. */
  lemma TrimMeans(s: string) returns (a: string, b: string)
    ensures s == a + Trim(s) + b && Blank(a) && Blank(b)
    ensures Trim(s) == "" || Trimmed(Trim(s))
    ensures Trim(s) == "" <==> Blank(s)
  {
    a := TrimStartMeans(s);
    b := TrimEndMeans(TrimStart(s));
    hide IsSpace;
    var t, u := TrimStart(s), Trim(s);
    assert a + (u + b) == a + u + b;
    if u != "" {
      assert u[0] == t[0];
      assert s[|a|] == u[0];
    }
  }

  /** A blank filter shows every flow. */
  lemma BlankShowsAll(engine: RegExpEngine, text: string, f: Flow)
    requires Blank(text)
    ensures Trim(text) == "" && TextMeaning(engine, text, f) == Some(true)
  {
    var a, b := TrimMeans(text);
  }

  /** The quoted keyword as a filter text shows exactly the flows with the text in the scope. */
  lemma QuotedFilterShows(engine: RegExpEngine, k: nat, v: string, f: Flow)
    requires k < |NAMES| && Trimmed(v) && v[0] != '/' && '"' !in v
    ensures
      var text := InQuotes(NAMES[k] + ":" + v);
      FilterSyntax.ParseText(Trim(text)).Some? &&
      TextMeaning(engine, text, f) == Some(SomeHolds(Searched(NAMES[k], f), v))
  {
    var text := InQuotes(NAMES[k] + ":" + v);
    NamesAreScopes(k);
    WholeQuotesMean(engine, k, v);
    TextKeyword(engine, k, v, f);
    NothingToTrim(text);
    hide Trim;
    hide FilterSyntax.ParseText;
    hide Meaning;
    hide SomeHolds;
    hide Searched;
  }

  /** Operands are evaluated from the left: one that throws ends it, one that decides spares the other. */
  lemma LeftFirst(engine: RegExpEngine, l: Rule, r: Rule, f: Flow)
    ensures
      Meaning(engine, l, f) == None ==>
        Meaning(engine, And(l, r), f) == None && Meaning(engine, Or(l, r), f) == None &&
        Meaning(engine, Not(l), f) == None
    ensures Meaning(engine, l, f) == Some(false) ==> Meaning(engine, And(l, r), f) == Some(false)
    ensures Meaning(engine, l, f) == Some(true) ==> Meaning(engine, Or(l, r), f) == Some(true)
  {
    hide MakeKeyword;
    hide MatchKeyword;
  }
}
