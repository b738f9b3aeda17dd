/** What the tokens of a text are, without following the scanner (httpql/lexer.go): at each place the longest
    piece of text of its kind, and together with the space between them the whole text. */
module HttpqlTokens {
  import opened HttpqlAst
  import opened HttpqlLexer

  // ----- the texts of tokens

  predicate IsIdentifier(u: Unicode, t: string) {
    t != "" && IdentStart(u, t[0]) && forall i :: 0 <= i < |t| ==> IdentPart(u, t[i])
  }

  predicate IsNumber(t: string) {
    t != "" && IsDecimal(t[0]) &&
    (Decimals(t, 1) || (t[0] == '0' && |t| >= 2 && t[1] in {'x', 'X'} && Hexes(t, 2)) ||
     (t[0] == '0' && |t| >= 2 && t[1] in {'o', 'O', 'b', 'B'} && Decimals(t, 2)))
  }

  predicate Decimals(t: string, from: nat) { forall i :: from <= i < |t| ==> IsDecimal(t[i]) || t[i] == '_' }

  predicate Hexes(t: string, from: nat) { forall i :: from <= i < |t| ==> IsHex(t[i]) || t[i] == '_' }

  /** An odd number of backslashes stands right before position `i`. */
  predicate Escaped(s: string, i: nat)
    requires i < |s|
  {
    i > 0 && s[i - 1] == '\\' && !Escaped(s, i - 1)
  }

  /** A quoted text ends at a line feed or at a quote that is not escaped. */
  predicate Ends(s: string, i: nat)
    requires i < |s|
  {
    s[i] == '\n' || (s[i] == '"' && !Escaped(s, i))
  }

  /** A quote and what follows it, with no end before the last character. */
  predicate IsQuoted(t: string) { t != "" && t[0] == '"' && forall i :: 0 <= i < |t| - 2 ==> !Ends(t[1..], i) }

  /** `t` is the text of one token. */
  predicate IsTokenText(u: Unicode, t: string) {
    t != "" &&
    if IdentStart(u, t[0]) then IsIdentifier(u, t)
    else if IsDecimal(t[0]) then IsNumber(t)
    else if t[0] == '"' then IsQuoted(t)
    else |t| == 1
  }

  // ----- identifiers and numbers

  lemma {:induction false} IdentRunReaches(u: Unicode, s: string)
    ensures forall i :: 0 <= i < IdentRun(u, s) ==> IdentPart(u, s[i])
    ensures IdentRun(u, s) < |s| ==> !IdentPart(u, s[IdentRun(u, s)])
  {
    hide IdentPart;
    if s != "" && IdentPart(u, s[0]) {
      IdentRunReaches(u, s[1..]);
      assert forall i :: 1 <= i < |s| ==> s[i] == s[1..][i - 1];
    }
  }

  lemma {:induction false} DecimalRunReaches(s: string)
    ensures forall i :: 0 <= i < DecimalRun(s) ==> IsDecimal(s[i]) || s[i] == '_'
    ensures DecimalRun(s) < |s| ==> !IsDecimal(s[DecimalRun(s)]) && s[DecimalRun(s)] != '_'
  {
    if s != "" && (IsDecimal(s[0]) || s[0] == '_') {
      DecimalRunReaches(s[1..]);
      assert forall i :: 1 <= i < |s| ==> s[i] == s[1..][i - 1];
    }
  }

  lemma {:induction false} HexRunReaches(s: string)
    ensures forall i :: 0 <= i < HexRun(s) ==> IsHex(s[i]) || s[i] == '_'
    ensures HexRun(s) < |s| ==> !IsHex(s[HexRun(s)]) && s[HexRun(s)] != '_'
  {
    if s != "" && (IsHex(s[0]) || s[0] == '_') {
      HexRunReaches(s[1..]);
      assert forall i :: 1 <= i < |s| ==> s[i] == s[1..][i - 1];
    }
  }

  lemma IdentifierLength(u: Unicode, s: string, m: nat)
    requires s != "" && IdentStart(u, s[0]) && 1 <= m <= |s|
    ensures IsIdentifier(u, s[..m]) <==> m <= TokenLength(u, s)
  {
    hide IdentStart;
    hide IdentRun;
    var n := TokenLength(u, s);
    IdentRunReaches(u, s[1..]);
    assert forall i :: 1 <= i < |s| ==> s[i] == s[1..][i - 1];
    assert n < |s| ==> !IdentPart(u, s[n]);
    if n < m {
      assert s[..m][n] == s[n];
    }
  }

  lemma NumberReaches(s: string, m: nat)
    requires s != "" && IsDecimal(s[0]) && 1 <= m <= |s|
    ensures IsNumber(s[..m]) <==> m <= NumberLength(s)
  {
    var n, p := NumberLength(s), s[..m];
    hide DecimalRun;
    hide HexRun;
    if s[0] == '0' && |s| > 1 && (s[1] == 'x' || s[1] == 'X') {
      HexRunReaches(s[2..]);
      assert forall i :: 2 <= i < |s| ==> s[i] == s[2..][i - 2];
      if m <= n { assert m >= 2 ==> Hexes(p, 2); assert m == 1 ==> Decimals(p, 1); }
      if n < m { assert p[n] == s[n] && p[1] == s[1]; }
    } else if s[0] == '0' && |s| > 1 && s[1] in {'o', 'O', 'b', 'B'} {
      DecimalRunReaches(s[2..]);
      assert forall i :: 2 <= i < |s| ==> s[i] == s[2..][i - 2];
      if m <= n { assert m >= 2 ==> Decimals(p, 2); assert m == 1 ==> Decimals(p, 1); }
      if n < m { assert p[n] == s[n] && p[1] == s[1]; }
    } else {
      DecimalRunReaches(s[1..]);
      assert forall i :: 1 <= i < |s| ==> s[i] == s[1..][i - 1];
      if m <= n { assert Decimals(p, 1); }
      if n < m { assert p[n] == s[n]; }
    }
  }

  // ----- quoted texts

  /** After a place that is not escaped, escapes are those of the rest alone. */
  lemma {:induction false} EscapedShift(s: string, k: nat, i: nat)
    requires k + i < |s| && !Escaped(s, k)
    ensures Escaped(s, k + i) == Escaped(s[k..], i)
  {
    if i > 0 {
      EscapedShift(s, k, i - 1);
    }
  }

  lemma EndsShift(s: string, k: nat)
    requires k < |s| ==> !Escaped(s, k)
    requires k <= |s|
    ensures forall i :: 0 <= i < |s| - k ==> (Ends(s, k + i) <==> Ends(s[k..], i))
  {
    forall i | 0 <= i < |s| - k ensures Ends(s, k + i) <==> Ends(s[k..], i) {
      EscapedShift(s, k, i);
    }
  }

  lemma {:induction false} OctalAre(s: string, max: nat)
    ensures forall i :: 0 <= i < OctalDigits(s, max) ==> '0' <= s[i] <= '7'
  {
    if max > 0 && s != "" && '0' <= s[0] <= '7' {
      OctalAre(s[1..], max - 1);
      assert forall i :: 1 <= i < |s| ==> s[i] == s[1..][i - 1];
    }
  }

  lemma {:induction false} HexAre(s: string, max: nat)
    ensures forall i :: 0 <= i < HexDigits(s, max) ==> IsHex(s[i])
  {
    if max > 0 && s != "" && IsHex(s[0]) {
      HexAre(s[1..], max - 1);
      assert forall i :: 1 <= i < |s| ==> s[i] == s[1..][i - 1];
    }
  }

  /** An escape takes the escaped character and plain ones after it, or nothing when it is unknown. */
  lemma EscapeTakes(s: string)
    ensures
      var e := EscapeLength(s);
      (forall i :: 1 <= i < e ==> IsHex(s[i])) && (e > 0 ==> s[0] != '\n') &&
      (e == 0 && s != "" ==> s[0] != '"' && s[0] != '\\')
  {
    if s != "" {
      OctalAre(s, 3);
      HexAre(s[1..], 2);
      HexAre(s[1..], 4);
      HexAre(s[1..], 8);
      assert forall i :: 1 <= i < |s| ==> s[i] == s[1..][i - 1];
    }
  }

  /** The text after an opening quote is taken up to its first end, or as a whole. */
  predicate TakenToEnd(s: string, n: nat) {
    n <= |s| && (forall i :: 0 <= i < n - 1 ==> !Ends(s, i)) &&
    if n == 0 then s == "" else Ends(s, n - 1) || n == |s|
  }

  /** Skipping `k` characters among which none ends the text. */
  lemma TakenLater(s: string, k: nat, n: nat)
    requires 0 < k <= |s| && (k < |s| ==> !Escaped(s, k)) && forall i :: 0 <= i < k ==> !Ends(s, i)
    requires TakenToEnd(s[k..], n)
    ensures TakenToEnd(s, k + n)
  {
    EndsShift(s, k);
    forall i | 0 <= i < k + n - 1 ensures !Ends(s, i) {
      if i >= k {
        assert !Ends(s[k..], i - k);
      }
    }
    if n > 0 && k + n != |s| {
      assert Ends(s[k..], n - 1);
      assert Ends(s, k + (n - 1));
    }
  }

  /** Nothing ends inside an escape, and what follows it is not escaped. */
  lemma EscapeInside(s: string, e: nat)
    requires s != "" && s[0] == '\\' && 1 <= e < |s| && s[1] != '\n' && forall i :: 2 <= i <= e ==> IsHex(s[i])
    ensures forall i :: 0 <= i < 1 + e ==> !Ends(s, i)
    ensures 1 + e < |s| ==> !Escaped(s, 1 + e)
  {
    assert !Escaped(s, 0) && Escaped(s, 1);
    assert e > 1 ==> IsHex(s[e]);
  }

  /** A backslash and what it escapes are taken together. */
  lemma EscapeStep(s: string) returns (k: nat)
    requires |s| > 1 && s[0] == '\\' && s[1] != '\n'
    ensures 2 <= k <= |s| && StringTail(s) == k + StringTail(s[k..])
    ensures (forall i :: 0 <= i < k ==> !Ends(s, i)) && (k < |s| ==> !Escaped(s, k))
  {
    var e := EscapeLength(s[1..]);
    EscapeTakes(s[1..]);
    assert forall i :: 1 <= i < |s| ==> s[i] == s[1..][i - 1];
    hide EscapeLength;
    if e > 0 {
      k := 1 + e;
      EscapeInside(s, e);
    } else {
      k := 2;
      BackslashAlone(s);
      assert Escaped(s, 1);
      assert s[1..][1..] == s[2..];
    }
  }

  lemma {:induction false} StringTailTakes(s: string)
    ensures TakenToEnd(s, StringTail(s))
    decreases |s|
  {
    hide TakenToEnd;
    hide Ends;
    hide Escaped;
    if s == "" || s[0] == '"' || s[0] == '\n' {
      FirstEnds(s);
    } else if s[0] == '\\' {
      if |s| > 1 && s[1] != '\n' {
        var k := EscapeStep(s);
        hide StringTail;
        StringTailTakes(s[k..]);
        TakenLater(s, k, StringTail(s[k..]));
      } else {
        BackslashAlone(s);
      }
    } else {
      StringTailTakes(s[1..]);
      PlainFirst(s);
      TakenLater(s, 1, StringTail(s[1..]));
    }
  }

  lemma PlainFirst(s: string)
    requires s != "" && s[0] != '"' && s[0] != '\n' && s[0] != '\\'
    ensures !Ends(s, 0) && (|s| > 1 ==> !Escaped(s, 1))
  {
  }

  lemma FirstEnds(s: string)
    requires s == "" || s[0] == '"' || s[0] == '\n'
    ensures TakenToEnd(s, StringTail(s))
  {
  }

  lemma BackslashAlone(s: string)
    requires s != "" && s[0] == '\\' && EscapeLength(s[1..]) == 0
    ensures |s| == 1 || s[1] == '\n' ==> TakenToEnd(s, StringTail(s))
  {
    assert s[1..] != "" ==> s[1..][0] == s[1];
    if |s| == 1 {
      assert s[1..] == "";
    }
  }

  lemma QuotedLength(s: string, m: nat)
    requires s != "" && s[0] == '"' && 1 <= m <= |s|
    ensures IsQuoted(s[..m]) <==> m <= 1 + StringTail(s[1..])
  {
    var rest, p := s[1..], s[..m];
    var n := StringTail(rest);
    StringTailTakes(rest);
    assert p[1..] == rest[..m - 1];
    forall i | 0 <= i < m - 1 ensures Ends(p[1..], i) <==> Ends(rest, i) {
      EscapedPrefix(rest, m - 1, i);
    }
    if 1 + n < m {
      assert n > 0 && Ends(rest, n - 1);
      assert Ends(p[1..], n - 1);
    }
  }

  lemma {:induction false} EscapedPrefix(s: string, k: nat, i: nat)
    requires i < k <= |s|
    ensures Escaped(s[..k], i) == Escaped(s, i)
  {
    if i > 0 {
      EscapedPrefix(s, k, i - 1);
    }
  }

  // ----- the whole text

  /** The first `n` characters of `s` are a token, and so is no longer piece; the shorter ones are of its kind. */
  predicate Longest(u: Unicode, s: string, n: nat) {
    1 <= n <= |s| && forall m :: 1 <= m <= |s| ==> (IsTokenText(u, s[..m]) <==> m <= n)
  }

  /** The scanner takes the longest token, whatever its kind. */
  lemma LongestToken(u: Unicode, s: string)
    requires s != ""
    ensures Longest(u, s, TokenLength(u, s))
  {
    forall m | 1 <= m <= |s| ensures IsTokenText(u, s[..m]) <==> m <= TokenLength(u, s) {
      hide IsIdentifier;
      hide IsNumber;
      hide IsQuoted;
      hide IdentStart;
      assert s[..m][0] == s[0];
      if IdentStart(u, s[0]) {
        IdentifierLength(u, s, m);
      } else if IsDecimal(s[0]) {
        NumberReaches(s, m);
      } else if s[0] == '"' {
        QuotedLength(s, m);
      }
    }
  }

  /** White space and the token text after it. */
  datatype Piece = Piece(gap: string, text: string)

  predicate AllSpace(s: string) { forall i :: 0 <= i < |s| ==> IsSpace(s[i]) }

  /** The text that the pieces and the space after them make up. */
  function Whole(ps: seq<Piece>, rest: string): string {
    if ps == [] then rest else ps[0].gap + (ps[0].text + Whole(ps[1..], rest))
  }

  /** Each piece of the list is the longest token where it stands. */
  predicate Munched(u: Unicode, ps: seq<Piece>, rest: string) {
    ps == [] ||
    (AllSpace(ps[0].gap) && ps[0].text != "" && !IsSpace(ps[0].text[0]) &&
     Longest(u, ps[0].text + Whole(ps[1..], rest), |ps[0].text|) && Munched(u, ps[1..], rest))
  }

  function Classified(u: Unicode, ps: seq<Piece>): seq<Token> {
    if ps == [] then [] else
      (if ps[0].text == "" then [] else [Classify(u, ps[0].text)]) + Classified(u, ps[1..])
  }

  lemma {:induction false} SpaceRunIs(s: string)
    ensures AllSpace(s[..SpaceRun(s)])
  {
    if s != "" && IsSpace(s[0]) {
      SpaceRunIs(s[1..]);
      assert forall i :: 1 <= i < |s| ==> s[i] == s[1..][i - 1];
      assert forall i :: 0 <= i < SpaceRun(s[1..]) ==> s[1..][..SpaceRun(s[1..])][i] == s[1..][i];
    }
  }

  /** One more piece at the front. */
  lemma PieceFirst(u: Unicode, p: Piece, later: seq<Piece>, rest: string)
    requires AllSpace(p.gap) && p.text != "" && !IsSpace(p.text[0])
    requires Longest(u, p.text + Whole(later, rest), |p.text|) && Munched(u, later, rest)
    ensures
      Munched(u, [p] + later, rest) && Whole([p] + later, rest) == p.gap + (p.text + Whole(later, rest)) &&
      Classified(u, [p] + later) == [Classify(u, p.text)] + Classified(u, later)
  {
    hide Longest;
    hide Classify;
    assert ([p] + later)[1..] == later;
  }

  /** Every text is white space and tokens in turn, each token the longest that starts at its place, and the
      lexer delivers just these, in order: nothing is lost, invented or cut short. */
  lemma {:induction false} LexCovers(u: Unicode, s: string) returns (ps: seq<Piece>, rest: string)
    ensures s == Whole(ps, rest) && AllSpace(rest) && Munched(u, ps, rest)
    ensures Lex(u, s) == Classified(u, ps)
    decreases |s|
  {
    hide *;
    var t := s[SpaceRun(s)..];
    LexStep(u, s);
    SpaceRunIs(s);
    if t == "" {
      ps, rest := [], s;
      assert s[..SpaceRun(s)] == s;
      PieceNone(u, s);
    } else {
      var n := TokenLength(u, t);
      LongestToken(u, t);
      var later;
      later, rest := LexCovers(u, t[n..]);
      var p := Piece(s[..SpaceRun(s)], t[..n]);
      assert t == p.text + t[n..] && s == p.gap + t && p.text[0] == s[SpaceRun(s)];
      PieceFirst(u, p, later, rest);
      ps := [p] + later;
      HeadAndTail(Lex(u, s));
    }
  }

  lemma PieceNone(u: Unicode, s: string)
    ensures Whole([], s) == s && Munched(u, [], s) && Classified(u, []) == []
  {
  }

  lemma HeadAndTail(ts: seq<Token>)
    requires ts != []
    ensures ts == [Head(ts)] + Tail(ts)
  {
  }

  // ----- the characters of tokens

  /** Below 128 an identifier is of letters, digits and the underscore and begins with no digit, and white space is
      the blank, the tab and both line ends; beyond that the tables decide. */
  lemma CharacterClasses(u: Unicode, c: char)
    ensures
      var letter := if c as int < 128 then 'a' <= c <= 'z' || 'A' <= c <= 'Z' else u.isLetter(c);
      var digit := if c as int < 128 then '0' <= c <= '9' else u.isDigit(c);
      (IdentStart(u, c) <==> letter || c == '_') && (IdentPart(u, c) <==> letter || digit || c == '_') &&
      (IsDecimal(c) <==> '0' <= c <= '9') && (IsSpace(c) <==> c in {' ', '\t', '\r', '\n'})
  {
  }

  // ----- what the token of a text is

  /** A letter in lower case: the 26 of ASCII, and beyond ASCII what the tables say. */
  function Lowered(u: Unicode, c: char): char {
    if 'A' <= c <= 'Z' then "abcdefghijklmnopqrstuvwxyz"[c as int - 'A' as int]
    else if c as int < 128 then c
    else u.lower(c)
  }

  predicate Quotes(s: string) { forall i :: 0 <= i < |s| ==> s[i] == '"' }

  lemma ToLowerMeans(u: Unicode, s: string)
    ensures |ToLower(u, s)| == |s| && forall i :: 0 <= i < |s| ==> ToLower(u, s)[i] == Lowered(u, s[i])
  {
    forall c: char ensures LowerChar(u, c) == Lowered(u, c) {
    }
    hide LowerChar;
    hide Lowered;
  }

  lemma {:induction false} TrimLeftMeans(s: string) returns (a: string)
    ensures s == a + TrimLeft(s) && Quotes(a) && (TrimLeft(s) != "" ==> TrimLeft(s)[0] != '"')
  {
    if s != "" && s[0] == '"' {
      var rest := TrimLeftMeans(s[1..]);
      a := [s[0]] + rest;
      assert s == [s[0]] + s[1..];
    } else {
      a := "";
    }
  }

  lemma {:induction false} TrimRightMeans(s: string) returns (b: string)
    ensures s == TrimRight(s) + b && Quotes(b)
    ensures TrimRight(s) != "" ==> TrimRight(s)[|TrimRight(s)| - 1] != '"'
  {
    if s != "" && s[|s| - 1] == '"' {
      var n := |s| - 1;
      var rest := TrimRightMeans(s[..n]);
      b := rest + [s[n]];
      assert s == s[..n] + [s[n]];
    } else {
      b := "";
      assert s + "" == s;
    }
  }

  /** The value of a quoted text is what is left without all quotes at its ends. */
  lemma TrimQuotesMeans(s: string) returns (a: string, b: string)
    ensures s == a + TrimQuotes(s) + b && Quotes(a) && Quotes(b)
    ensures TrimQuotes(s) != "" ==> TrimQuotes(s)[0] != '"' && TrimQuotes(s)[|TrimQuotes(s)| - 1] != '"'
  {
    a := TrimLeftMeans(s);
    b := TrimRightMeans(TrimLeft(s));
    assert a + (TrimQuotes(s) + b) == a + TrimQuotes(s) + b;
    if TrimQuotes(s) != "" {
      assert TrimLeft(s)[0] == TrimQuotes(s)[0];
    }
  }

  /** An identifier is lowered letter by letter and is a keyword when it then spells one; a number is kept, a quoted
      text loses the quotes at its ends, and of the other characters four are tokens of their own. */
  lemma TokenMeans(u: Unicode, t: string)
    requires IsTokenText(u, t)
    ensures
      var token := Classify(u, t);
      if IdentStart(u, t[0]) then
        |token.literal| == |t| && (forall i :: 0 <= i < |t| ==> token.literal[i] == Lowered(u, t[i])) &&
        (token.kind == TokenType.And <==> token.literal == "and") &&
        (token.kind == TokenType.Or <==> token.literal == "or") &&
        (token.kind == TokenType.Not <==> token.literal == "not") &&
        token.kind in {TokenType.And, TokenType.Or, TokenType.Not, TokenType.Ident}
      else if IsDecimal(t[0]) then token == Token(TokenType.Int, t)
      else if t[0] == '"' then
        token.kind == TokenType.Str &&
        (exists a: string, b: string :: t == a + token.literal + b && Quotes(a) && Quotes(b)) &&
        (token.literal != "" ==> token.literal[0] != '"' && token.literal[|token.literal| - 1] != '"')
      else
        token.literal == t &&
        token.kind == match t[0]
                      case '.' => TokenType.Dot
                      case ':' => TokenType.Colon
                      case '(' => TokenType.LParen
                      case ')' => TokenType.RParen
                      case _ => TokenType.Ident
  {
    ToLowerMeans(u, t);
    var a, b := TrimQuotesMeans(t);
    hide ToLower;
    hide TrimQuotes;
    hide IsQuoted;
  }
}
