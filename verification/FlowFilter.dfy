/** Filtering the flow list of the web client (web/client/src/utils/filter.ts): keywords with a scope,
    and the rule tree that remembers the matcher built for each keyword. */
module FlowFilter {
  import opened Wrappers
  import opened Strings
  import opened FilterGrammar
  import FilterSyntax
  import FilterParser

  // ----- keywords

  datatype Scope = Url | Method | Code | Header | ReqHeader | ResHeader | Body | ReqBody | ResBody | All

  type Headers = seq<(string, seq<string>)>

  /** What the matchers read of a flow; `code` is the status code as text. */
  datatype Flow = Flow(
    url: string, verb: string, lowerVerb: string, code: Option<string>, reqHeader: Headers,
    resHeader: Option<Headers>, reqBody: Option<string>, resBody: Option<string>)

  /** `new RegExp(source, flags)`: None when it throws. */
  type RegExpEngine = (string, bool) -> Option<string -> bool>

  datatype Matcher = Anything | Text(text: string) | RegExp(test: string -> bool)

  datatype KeywordFilter = KeywordFilter(scope: Scope, matcher: Matcher)

  predicate IsSpace(c: char) {
    var n := c as int;
    9 <= n <= 13 || n == 0x20 || n == 0xA0 || n == 0x1680 || 0x2000 <= n <= 0x200A || n == 0x2028 || n == 0x2029 ||
    n == 0x202F || n == 0x205F || n == 0x3000 || n == 0xFEFF
  }

  function TrimStart(s: string): string { if s != "" && IsSpace(s[0]) then TrimStart(s[1..]) else s }

  function TrimEnd(s: string): string { if s != "" && IsSpace(s[|s| - 1]) then TrimEnd(s[..|s| - 1]) else s }

  function Trim(s: string): string { TrimEnd(TrimStart(s)) }

  const SCOPES := [("url:", Url), ("method:", Method), ("code:", Code), ("header:", Header), ("reqheader:", ReqHeader),
                   ("resheader:", ResHeader), ("body:", Body), ("reqbody:", ReqBody), ("resbody:", ResBody),
                   ("all:", All)]

  /** The first scope in the list whose prefix the text has, and the text after it. */
  function SplitScope(text: string, k: nat): (Scope, string)
    requires k <= |SCOPES|
    decreases |SCOPES| - k
  {
    if k == |SCOPES| then (Url, text)
    else if SCOPES[k].0 <= text then (SCOPES[k].1, Trim(text[|SCOPES[k].0|..]))
    else SplitScope(text, k + 1)
  }

  predicate EndsWith(s: string, t: string) { |t| <= |s| && s[|s| - |t|..] == t }

  /** JavaScript's `slice(1, -1)` */
  function Inner(s: string): string { if |s| >= 2 then s[1..|s| - 1] else "" }

  function MakeMatcher(engine: RegExpEngine, text: string): Option<Matcher> {
    if text == "" then Some(Anything)
    else if text[0] == '/' && (EndsWith(text, "/") || EndsWith(text, "/i")) then
      var ignoreCase := EndsWith(text, "i");
      var source := Trim(Inner(if ignoreCase then text[..|text| - 1] else text));
      if source == "" then Some(Anything)
      else if engine(source, ignoreCase).Some? then Some(RegExp(engine(source, ignoreCase).value))
      else None
    else Some(Text(text))
  }

  /** `new FlowFilterKeyword(text)`: None when its regular expression does not compile. */
  function MakeKeyword(engine: RegExpEngine, text: string): Option<KeywordFilter> {
    var trimmed := Trim(text);
    if trimmed == "" then Some(KeywordFilter(Url, Anything)) else
      var (scope, rest) := SplitScope(trimmed, 0);
      var m := MakeMatcher(engine, rest);
      if m.Some? then Some(KeywordFilter(scope, m.value)) else None
  }

  predicate MatchText(m: Matcher, text: string) {
    match m
    case Anything => true
    case RegExp(test) => text != "" && test(text)
    case Text(t) => text != "" && Contains(text, t)
  }

  predicate MatchHeaders(m: Matcher, hs: Headers) {
    exists i | 0 <= i < |hs| :: MatchText(m, hs[i].0) || exists j | 0 <= j < |hs[i].1| :: MatchText(m, hs[i].1[j])
  }

  predicate MatchBody(m: Matcher, body: Option<string>) { body.Some? && body.value != "" && MatchText(m, body.value) }

  predicate MatchScope(scope: Scope, m: Matcher, f: Flow) {
    match scope
    case Url => MatchText(m, f.url)
    case Method => MatchText(m, f.verb) || MatchText(m, f.lowerVerb)
    case Code => f.code.Some? && MatchText(m, f.code.value)
    case ReqHeader => MatchHeaders(m, f.reqHeader)
    case ResHeader => f.resHeader.Some? && MatchHeaders(m, f.resHeader.value)
    case Header => MatchHeaders(m, f.reqHeader) || (f.resHeader.Some? && MatchHeaders(m, f.resHeader.value))
    case ReqBody => MatchBody(m, f.reqBody)
    case ResBody => MatchBody(m, f.resBody)
    case Body => MatchBody(m, f.reqBody) || MatchBody(m, f.resBody)
    case All =>
      MatchText(m, f.url) || MatchText(m, f.verb) || MatchText(m, f.lowerVerb) || MatchHeaders(m, f.reqHeader) ||
      (f.resHeader.Some? && MatchHeaders(m, f.resHeader.value)) || MatchBody(m, f.reqBody) || MatchBody(m, f.resBody)
  }

  predicate MatchKeyword(k: KeywordFilter, f: Flow) { MatchScope(k.scope, k.matcher, f) }

  // ----- the meaning of a rule

  /** The boolean a rule gives on a flow, or None when building a keyword it reaches throws. Operands
      are evaluated from the left, and only as far as needed. */
  function Meaning(engine: RegExpEngine, r: Rule, f: Flow): Option<bool> {
    match r
    case Keyword(v) =>
      var k := MakeKeyword(engine, v);
      if k.Some? then Some(MatchKeyword(k.value, f)) else None
    case Not(e) =>
      var b := Meaning(engine, e, f);
      if b.Some? then Some(!b.value) else None
    case And(l, r) => if Meaning(engine, l, f) == Some(true) then Meaning(engine, r, f) else Meaning(engine, l, f)
    case Or(l, r) => if Meaning(engine, l, f) == Some(false) then Meaning(engine, r, f) else Meaning(engine, l, f)
  }

  /** Every keyword of the rule builds. */
  predicate Builds(engine: RegExpEngine, r: Rule) {
    match r
    case Keyword(v) => MakeKeyword(engine, v).Some?
    case Not(e) => Builds(engine, e)
    case And(l, r) => Builds(engine, l) && Builds(engine, r)
    case Or(l, r) => Builds(engine, l) && Builds(engine, r)
  }

  /** A rule whose keywords build is an ordinary boolean formula over them. */
  predicate Formula(engine: RegExpEngine, r: Rule, f: Flow)
    requires Builds(engine, r)
  {
    match r
    case Keyword(v) => MatchKeyword(MakeKeyword(engine, v).value, f)
    case Not(e) => !Formula(engine, e, f)
    case And(l, r) => Formula(engine, l, f) && Formula(engine, r, f)
    case Or(l, r) => Formula(engine, l, f) || Formula(engine, r, f)
  }

  lemma {:induction false} MeaningIsFormula(engine: RegExpEngine, r: Rule, f: Flow)
    requires Builds(engine, r)
    ensures Meaning(engine, r, f) == Some(Formula(engine, r, f))
  {
    hide MakeKeyword;
    hide MatchKeyword;
    match r
    case Keyword(_) =>
    case Not(e) => MeaningIsFormula(engine, e, f);
    case And(a, b) =>
      MeaningIsFormula(engine, a, f);
      MeaningIsFormula(engine, b, f);
    case Or(a, b) =>
      MeaningIsFormula(engine, a, f);
      MeaningIsFormula(engine, b, f);
  }

  // ----- the rule tree with its memo

  datatype Kind = KeywordKind | NotKind | AndKind | OrKind

  /** A node of the parsed rule; a keyword node keeps the filter built for it. */
  class Node {
    const kind: Kind
    const value: string
    const left: Node?
    const right: Node?
    var filter: Option<KeywordFilter>
    ghost const rule: Rule
    ghost const nodes: set<Node>

    constructor (kind: Kind, value: string, left: Node?, right: Node?, ghost rule: Rule)
      requires Spells(kind, value, left, right, rule)
      ensures this.rule == rule && filter == None && Tree()
      ensures
        nodes == {this} + (if left == null then {} else left.nodes) + (if right == null then {} else right.nodes)
    {
      this.kind, this.value, this.left, this.right := kind, value, left, right;
      this.filter := None;
      this.rule := rule;
      this.nodes := {this} + (if left == null then {} else left.nodes) + (if right == null then {} else right.nodes);
    }

    /** The object graph spells out `rule`; none of this ever changes. */
    ghost predicate Tree()
      decreases rule, 1
    {
      this in nodes &&
      (left != null ==> left.nodes <= nodes) && (right != null ==> right.nodes <= nodes) &&
      Spells(kind, value, left, right, rule)
    }

    static ghost predicate Spells(kind: Kind, value: string, left: Node?, right: Node?, rule: Rule)
      decreases rule, 0
    {
      match rule
      case Keyword(v) => kind == KeywordKind && value == v && left == null && right == null
      case Not(e) => kind == NotKind && left != null && left.rule == e && left.Tree() && right == null
      case And(a, b) =>
        kind == AndKind && left != null && left.rule == a && left.Tree() &&
        right != null && right.rule == b && right.Tree()
      case Or(a, b) =>
        kind == OrKind && left != null && left.rule == a && left.Tree() &&
        right != null && right.rule == b && right.Tree()
    }

    /** Whatever is remembered is what building the keyword gives. */
    ghost predicate Valid(engine: RegExpEngine)
      reads nodes
    {
      Tree() &&
      forall n | n in nodes && n.filter.Some? :: MakeKeyword(engine, n.value) == n.filter
    }

    /** getFlowFilterKeyword */
    method GetKeyword(engine: RegExpEngine) returns (k: Option<KeywordFilter>)
      requires filter.Some? ==> MakeKeyword(engine, value) == filter
      modifies this`filter
      ensures k == MakeKeyword(engine, value)
      ensures filter == old(filter) || filter == k
    {
      if filter.Some? {
        return filter;
      }
      k := MakeKeyword(engine, value);
      filter := k;
    }
  }

  /** The tree objects for a parsed rule, with nothing remembered yet. */
  method BuildTree(rule: Rule) returns (n: Node)
    ensures n.rule == rule && n.Tree() && fresh(n.nodes)
    ensures forall m | m in n.nodes :: m.filter == None
    decreases rule
  {
    match rule {
      case Keyword(v) => n := new Node(KeywordKind, v, null, null, rule);
      case Not(e) =>
        var l := BuildTree(e);
        n := new Node(NotKind, "", l, null, rule);
      case And(a, b) =>
        var l := BuildTree(a);
        var r := BuildTree(b);
        n := new Node(AndKind, "", l, r, rule);
      case Or(a, b) =>
        var l := BuildTree(a);
        var r := BuildTree(b);
        n := new Node(OrKind, "", l, r, rule);
    }
  }

  /** `_match`: the answer is the meaning of the rule, and the memo writes change no later answer. */
  method MatchNode(engine: RegExpEngine, n: Node, ghost root: Node, f: Flow) returns (b: Option<bool>)
    requires n.Tree() && n.nodes <= root.nodes && root.Valid(engine)
    modifies root.nodes
    ensures root.Valid(engine) && b == Meaning(engine, n.rule, f)
    decreases n.rule
  {
    hide MakeKeyword;
    hide MatchKeyword;
    match n.kind {
      case KeywordKind =>
        var k := n.GetKeyword(engine);
        b := if k.Some? then Some(MatchKeyword(k.value, f)) else None;
      case NotKind =>
        b := MatchNode(engine, n.left, root, f);
        if b.Some? {
          b := Some(!b.value);
        }
      case AndKind =>
        b := MatchNode(engine, n.left, root, f);
        if b == Some(true) {
          b := MatchNode(engine, n.right, root, f);
        }
      case OrKind =>
        b := MatchNode(engine, n.left, root, f);
        if b == Some(false) {
          b := MatchNode(engine, n.right, root, f);
        }
    }
  }

  /** What a filter text means: None for a syntax error, else the answer on each flow. */
  function TextMeaning(engine: RegExpEngine, text: string, f: Flow): Option<bool>
    requires Trim(text) != "" ==> FilterSyntax.ParseText(Trim(text)).Some?
  {
    if Trim(text) == "" then Some(true) else Meaning(engine, FilterSyntax.ParseText(Trim(text)).value, f)
  }

  class Filter {
    const engine: RegExpEngine
    const text: string
    var rule: Node?
    var valid: bool  // false after the constructor threw a syntax error

    constructor (engine: RegExpEngine, text: string)
      ensures this.engine == engine && this.text == text
      ensures valid <==> Trim(text) == "" || FilterSyntax.ParseText(Trim(text)).Some?
      ensures valid ==> Valid() && (rule != null ==> fresh(rule.nodes))
    {
      this.engine, this.text := engine, text;
      this.rule, this.valid := null, true;
      new;
      var trimmed := Trim(text);
      if trimmed != "" {
        var p := new FilterParser.Parser(trimmed);
        var r := p.Parse();
        if r.Some? {
          var n := BuildTree(r.value);
          rule := n;
        } else {
          valid := false;
        }
      }
    }

    ghost predicate Valid()
      reads this, if rule == null then {} else rule.nodes
    {
      valid &&
      if Trim(text) == "" then rule == null
      else rule != null && rule.Valid(engine) && FilterSyntax.ParseText(Trim(text)) == Some(rule.rule)
    }

    method Match(f: Flow) returns (b: Option<bool>)
      requires Valid()
      modifies if rule == null then {} else rule.nodes
      ensures Valid() && rule == old(rule) && b == TextMeaning(engine, text, f)
    {
      if rule == null {
        return Some(true);
      }
      b := MatchNode(engine, rule, rule, f);
    }
  }
}
