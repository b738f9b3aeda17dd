/** `like` patterns: the chain of textual rewrites that turns one into a regular expression
    (httpql/eval.go, ConvertLikeToRegex), and what that expression matches. */
module LikePattern {
  import opened Wrappers

  // ----- the library functions

  predicate IsMeta(c: char) { c in {'\\', '.', '+', '*', '?', '(', ')', '|', '[', ']', '{', '}', '^', '$'} }

  /** regexp.QuoteMeta */
  function QuoteMeta(s: string): string {
    if s == "" then "" else (if IsMeta(s[0]) then ['\\', s[0]] else [s[0]]) + QuoteMeta(s[1..])
  }

  /** strings.ReplaceAll: leftmost occurrences, without overlap */
  function ReplaceAll(s: string, from: string, to: string): string
    requires from != ""
    decreases |s|
  {
    if s == "" then ""
    else if from <= s then to + ReplaceAll(s[|from|..], from, to)
    else [s[0]] + ReplaceAll(s[1..], from, to)
  }

  function ConvertLikeToRegex(like: string): string {
    var regex := QuoteMeta(like);
    var regex := ReplaceAll(regex, "\\*", ".*");
    var regex := ReplaceAll(regex, "\\?", ".");
    var regex := ReplaceAll(regex, "%", ".*");
    var regex := ReplaceAll(regex, "_", ".");
    "^" + regex + "$"
  }

  // ----- the rewrite as one pass over the characters

  function TranslateChar(c: char): string {
    if c == '*' || c == '%' then ".*"
    else if c == '?' || c == '_' then "."
    else if IsMeta(c) then ['\\', c]
    else [c]
  }

  function Translate(like: string): string {
    if like == "" then "" else TranslateChar(like[0]) + Translate(like[1..])
  }

  /** The text that stands for `c` after the first `k` replacements. */
  function Piece(k: nat, c: char): (s: string)
    ensures 1 <= |s| <= 2 && s[0] != '*' && s[0] != '?'
  {
    if k >= 1 && c == '*' then ".*"
    else if k >= 2 && c == '?' then "."
    else if k >= 3 && c == '%' then ".*"
    else if k >= 4 && c == '_' then "."
    else if IsMeta(c) then ['\\', c]
    else [c]
  }

  function Pieces(k: nat, like: string): (s: string)
    ensures s != "" ==> s[0] != '*' && s[0] != '?'
  {
    if like == "" then "" else Piece(k, like[0]) + Pieces(k, like[1..])
  }

  function From(k: nat): (s: string)
    ensures s != ""
  {
    match k
    case 0 => "\\*"
    case 1 => "\\?"
    case 2 => "%"
    case _ => "_"
  }

  function To(k: nat): string { if k == 0 || k == 2 then ".*" else "." }

  /** Where no occurrence starts, the replacement moves on by one character. */
  lemma PassBy(c: char, rest: string, k: nat)
    requires c == From(k)[0] ==> |From(k)| == 2 && (rest == "" || rest[0] != From(k)[1])
    ensures ReplaceAll([c] + rest, From(k), To(k)) == [c] + ReplaceAll(rest, From(k), To(k))
  {
    var s, from := [c] + rest, From(k);
    assert s[1..] == rest;
    assert s[0] != from[0] || (|from| == 2 && (|s| < 2 || s[1] != from[1]));
  }

  lemma PassByPiece(p: string, rest: string, k: nat)
    requires |p| == 2
    requires p[0] == From(k)[0] ==> |From(k)| == 2 && p[1] != From(k)[1]
    requires p[1] == From(k)[0] ==> |From(k)| == 2 && (rest == "" || rest[0] != From(k)[1])
    ensures ReplaceAll(p + rest, From(k), To(k)) == p + ReplaceAll(rest, From(k), To(k))
  {
    hide ReplaceAll;
    assert p + rest == [p[0]] + ([p[1]] + rest);
    PassBy(p[1], rest, k);
    PassBy(p[0], [p[1]] + rest, k);
    var r := ReplaceAll(rest, From(k), To(k));
    assert p + r == [p[0]] + ([p[1]] + r);
  }

  lemma ReplaceHere(rest: string, k: nat)
    ensures ReplaceAll(From(k) + rest, From(k), To(k)) == To(k) + ReplaceAll(rest, From(k), To(k))
  {
    assert (From(k) + rest)[|From(k)|..] == rest;
  }

  lemma ReplacePiece(k: nat, c: char, rest: string)
    requires k < 4
    requires rest != "" ==> rest[0] != '*' && rest[0] != '?'
    ensures ReplaceAll(Piece(k, c) + rest, From(k), To(k)) == Piece(k + 1, c) + ReplaceAll(rest, From(k), To(k))
  {
    hide ReplaceAll;
    var p := Piece(k, c);
    if p == From(k) {
      ReplaceHere(rest, k);
    } else if |p| == 2 {
      PassByPiece(p, rest, k);
    } else {
      PassBy(p[0], rest, k);
    }
  }

  lemma {:induction false} ReplacePass(k: nat, like: string)
    requires k < 4
    ensures ReplaceAll(Pieces(k, like), From(k), To(k)) == Pieces(k + 1, like)
  {
    if like != "" {
      ReplacePiece(k, like[0], Pieces(k, like[1..]));
      ReplacePass(k, like[1..]);
    }
  }

  lemma {:induction false} FirstAndLastPieces(like: string)
    ensures QuoteMeta(like) == Pieces(0, like) && Translate(like) == Pieces(4, like)
  {
    if like != "" { FirstAndLastPieces(like[1..]); }
  }

  /** Quoting followed by the four replacements rewrites each character on its own. */
  lemma ConvertIsTranslate(like: string)
    ensures ConvertLikeToRegex(like) == "^" + Translate(like) + "$"
  {
    FirstAndLastPieces(like);
    ReplacePass(0, like);
    ReplacePass(1, like);
    ReplacePass(2, like);
    ReplacePass(3, like);
  }

  // ----- the regular expressions that occur

  datatype Item = Literal(c: char) | AnyChar | AnyRun

  /** The pattern between the anchors: literals, `\` before a metacharacter, `.` and `.*`. */
  function ParseItems(p: string): Option<seq<Item>>
    decreases |p|
  {
    if p == "" then Some([])
    else if p[0] == '\\' then
      if |p| >= 2 && IsMeta(p[1]) then Prepend(Literal(p[1]), ParseItems(p[2..])) else None
    else if p[0] == '.' then
      if |p| >= 2 && p[1] == '*' then Prepend(AnyRun, ParseItems(p[2..])) else Prepend(AnyChar, ParseItems(p[1..]))
    else if IsMeta(p[0]) then None
    else Prepend(Literal(p[0]), ParseItems(p[1..]))
  }

  function Prepend(i: Item, rest: Option<seq<Item>>): Option<seq<Item>> {
    if rest.Some? then Some([i] + rest.value) else None
  }

  /** `.` excludes the line feed, and the anchors mean the ends of the text. */
  predicate Match(items: seq<Item>, s: string)
    decreases |items| + |s|
  {
    if items == [] then s == ""
    else match items[0]
      case Literal(c) => s != "" && s[0] == c && Match(items[1..], s[1..])
      case AnyChar => s != "" && s[0] != '\n' && Match(items[1..], s[1..])
      case AnyRun => Match(items[1..], s) || (s != "" && s[0] != '\n' && Match(items, s[1..]))
  }

  function Anchored(p: string): Option<seq<Item>> {
    if |p| >= 2 && p[0] == '^' && p[|p| - 1] == '$' then ParseItems(p[1..|p| - 1]) else None
  }

  /** regexp.MatchString, false when the pattern does not compile */
  type Engine = (string, string) -> bool

  /** The engine gives the anchored fragment its meaning; of other patterns nothing is assumed. */
  ghost predicate Implements(engine: Engine) {
    forall p: string, s: string :: Anchored(p).Some? ==> engine(p, s) == Match(Anchored(p).value, s)
  }

  // ----- what a pattern is meant to match

  predicate NoNewline(s: string) { forall i :: 0 <= i < |s| ==> s[i] != '\n' }

  /** `*` and `%` stand for any run of characters, `?` and `_` for one, anything else for itself. */
  predicate GlobMatch(like: string, s: string)
    decreases |like|
  {
    if like == "" then s == ""
    else if like[0] == '*' || like[0] == '%' then
      exists k :: 0 <= k <= |s| && NoNewline(s[..k]) && GlobMatch(like[1..], s[k..])
    else if like[0] == '?' || like[0] == '_' then s != "" && s[0] != '\n' && GlobMatch(like[1..], s[1..])
    else s != "" && s[0] == like[0] && GlobMatch(like[1..], s[1..])
  }

  function ItemOf(c: char): Item {
    if c == '*' || c == '%' then AnyRun else if c == '?' || c == '_' then AnyChar else Literal(c)
  }

  function Items(like: string): seq<Item> {
    if like == "" then [] else [ItemOf(like[0])] + Items(like[1..])
  }

  /** The expression reads back as the pattern's own items: no rewrite merges with its neighbours. */
  lemma {:induction false} TranslateParses(like: string)
    ensures ParseItems(Translate(like)) == Some(Items(like))
    ensures Translate(like) != "" ==> Translate(like)[0] != '*'
  {
    if like != "" {
      var p, rest := TranslateChar(like[0]), Translate(like[1..]);
      TranslateParses(like[1..]);
      assert (p + rest)[|p|..] == rest;
    }
  }

  /** A run is a prefix without line feeds. */
  lemma {:induction false} RunIsPrefix(rest: seq<Item>, s: string)
    ensures Match([AnyRun] + rest, s) <==> exists k :: 0 <= k <= |s| && NoNewline(s[..k]) && Match(rest, s[k..])
    decreases |s|
  {
    var items := [AnyRun] + rest;
    assert items[1..] == rest && s[0..] == s;
    if Match(rest, s) {
      assert NoNewline(s[..0]);
    }
    if s != "" && s[0] != '\n' {
      RunIsPrefix(rest, s[1..]);
      if Match(items, s[1..]) {
        var k :| 0 <= k <= |s| - 1 && NoNewline(s[1..][..k]) && Match(rest, s[1..][k..]);
        assert s[1..][k..] == s[k + 1..];
        assert NoNewline(s[..k + 1]) by {
          forall i | 0 <= i < k + 1 ensures s[i] != '\n' {
            if i > 0 { assert s[1..][..k][i - 1] == s[i]; }
          }
        }
      }
    }
    forall k | 0 < k <= |s| && NoNewline(s[..k]) && Match(rest, s[k..])
      ensures Match(items, s)
    {
      assert s[..k][0] == s[0];
      assert s[1..][k - 1..] == s[k..];
      assert NoNewline(s[1..][..k - 1]) by {
        forall i | 0 <= i < k - 1 ensures s[1..][i] != '\n' { assert s[..k][i + 1] == s[1..][i]; }
      }
    }
  }

  lemma {:induction false} ItemsMatchGlob(like: string, s: string)
    ensures Match(Items(like), s) == GlobMatch(like, s)
    decreases |like|
  {
    if like != "" {
      var rest := Items(like[1..]);
      assert Items(like)[1..] == rest;
      if ItemOf(like[0]) == AnyRun {
        RunIsPrefix(rest, s);
        forall k | 0 <= k <= |s| ensures Match(rest, s[k..]) == GlobMatch(like[1..], s[k..]) {
          ItemsMatchGlob(like[1..], s[k..]);
        }
      } else if s != "" {
        ItemsMatchGlob(like[1..], s[1..]);
      }
    }
  }

  /** For every pattern, backslashes and other metacharacters included, the regular expression that is
      built matches exactly the texts the pattern describes. */
  lemma LikeMatchesGlob(engine: Engine, like: string, s: string)
    requires Implements(engine)
    ensures engine(ConvertLikeToRegex(like), s) == GlobMatch(like, s)
  {
    ConvertIsTranslate(like);
    TranslateParses(like);
    ItemsMatchGlob(like, s);
    var p := ConvertLikeToRegex(like);
    assert p[1..|p| - 1] == Translate(like);
  }

  predicate IsWildcard(c: char) { c in {'*', '%', '?', '_'} }

  /** Without wildcards a pattern describes just its own text. */
  lemma {:induction false} PlainPattern(like: string, s: string)
    requires forall i :: 0 <= i < |like| ==> !IsWildcard(like[i])
    ensures GlobMatch(like, s) <==> s == like
  {
    if like != "" && s != "" {
      PlainPattern(like[1..], s[1..]);
      assert s == [s[0]] + s[1..] && like == [like[0]] + like[1..];
    }
  }

  /** A pattern with a wildcard describes another text too. */
  lemma {:induction false} WildPattern(like: string, i: nat) returns (s: string)
    requires i < |like| && IsWildcard(like[i])
    requires forall j :: 0 <= j < i ==> !IsWildcard(like[j])
    ensures s != like && GlobMatch(like, s)
  {
    if i > 0 {
      var rest := WildPattern(like[1..], i - 1);
      s := [like[0]] + rest;
      assert s[1..] == rest && like == [like[0]] + like[1..];
    } else {
      s := ['a'] + like[1..];
      assert s[0] != like[0] && s[1..] == like[1..] && s[..1] == ['a'];
      MatchesItself(like[1..]);
      assert NoNewline(s[..1]) && GlobMatch(like[1..], s[1..]);
    }
  }

  lemma {:induction false} MatchesItself(like: string)
    ensures GlobMatch(like, like)
  {
    if like != "" {
      assert like[..1] == [like[0]];
      MatchesItself(like[1..]);
      if like[0] == '*' || like[0] == '%' {
        assert NoNewline(like[..1]) && GlobMatch(like[1..], like[1..]);
      }
    }
  }

  /** `like` means equality exactly for the patterns without wildcards. */
  lemma PlainExactly(like: string)
    ensures
      (forall s: string :: GlobMatch(like, s) <==> s == like) <==>
      (forall i :: 0 <= i < |like| ==> !IsWildcard(like[i]))
  {
    if forall i :: 0 <= i < |like| ==> !IsWildcard(like[i]) {
      forall s: string ensures GlobMatch(like, s) <==> s == like {
        PlainPattern(like, s);
      }
    } else {
      var i := FirstWildcard(like);
      var s := WildPattern(like, i);
      assert GlobMatch(like, s) && s != like;
    }
  }

  lemma FirstWildcard(like: string) returns (i: nat)
    requires exists k :: 0 <= k < |like| && IsWildcard(like[k])
    ensures i < |like| && IsWildcard(like[i])
    ensures forall j :: 0 <= j < i ==> !IsWildcard(like[j])
  {
    i := 0;
    while !IsWildcard(like[i])
      invariant i < |like| && forall j :: 0 <= j < i ==> !IsWildcard(like[j])
      decreases |like| - i
    {
      i := i + 1;
    }
  }
}
