/** The HTTPQL lexer (httpql/lexer.go) on top of the part of Go's text/scanner that its mode switches on. */
module HttpqlLexer {
  import opened HttpqlAst

  datatype TokenType = Eof | Ident | Str | Int | Dot | Colon | LParen | RParen | And | Or | Not

  datatype Token = Token(kind: TokenType, literal: string)

  const EOF := Token(Eof, "")

  // ----- character classes

  predicate IsSpace(c: char) { c == '\t' || c == '\n' || c == '\r' || c == ' ' }

  predicate IsDecimal(c: char) { '0' <= c <= '9' }

  predicate IsHex(c: char) { '0' <= c <= '9' || 'a' <= c <= 'f' || 'A' <= c <= 'F' }

  predicate IdentStart(u: Unicode, c: char) {
    c == '_' || (if c as int < 128 then 'a' <= c <= 'z' || 'A' <= c <= 'Z' else u.isLetter(c))
  }

  predicate IdentPart(u: Unicode, c: char) {
    IdentStart(u, c) || (if c as int < 128 then IsDecimal(c) else u.isDigit(c))
  }

  function LowerChar(u: Unicode, c: char): char {
    if 'A' <= c <= 'Z' then (c as int + 32) as char else if c as int < 128 then c else u.lower(c)
  }

  function ToLower(u: Unicode, s: string): string { seq(|s|, i requires 0 <= i < |s| => LowerChar(u, s[i])) }

  // ----- how far each kind of token reaches

  function SpaceRun(s: string): (n: nat)
    ensures n <= |s|
    ensures n < |s| ==> !IsSpace(s[n])
  {
    if s != "" && IsSpace(s[0]) then 1 + SpaceRun(s[1..]) else 0
  }

  function IdentRun(u: Unicode, s: string): (n: nat)
    ensures n <= |s|
  {
    if s != "" && IdentPart(u, s[0]) then 1 + IdentRun(u, s[1..]) else 0
  }

  function DecimalRun(s: string): (n: nat)
    ensures n <= |s|
  {
    if s != "" && (IsDecimal(s[0]) || s[0] == '_') then 1 + DecimalRun(s[1..]) else 0
  }

  function HexRun(s: string): (n: nat)
    ensures n <= |s|
  {
    if s != "" && (IsHex(s[0]) || s[0] == '_') then 1 + HexRun(s[1..]) else 0
  }

  /** `s` starts with a digit. */
  function NumberLength(s: string): (n: nat)
    requires s != "" && IsDecimal(s[0])
    ensures 1 <= n <= |s|
  {
    if s[0] == '0' && |s| > 1 && (s[1] == 'x' || s[1] == 'X') then 2 + HexRun(s[2..])
    else if s[0] == '0' && |s| > 1 && s[1] in {'o', 'O', 'b', 'B'} then 2 + DecimalRun(s[2..])
    else 1 + DecimalRun(s[1..])
  }

  function OctalDigits(s: string, max: nat): (n: nat)
    ensures n <= |s| && n <= max
  {
    if max > 0 && s != "" && '0' <= s[0] <= '7' then 1 + OctalDigits(s[1..], max - 1) else 0
  }

  function HexDigits(s: string, max: nat): (n: nat)
    ensures n <= |s| && n <= max
  {
    if max > 0 && s != "" && IsHex(s[0]) then 1 + HexDigits(s[1..], max - 1) else 0
  }

  /** What the scanner takes after a backslash; an unknown escape takes nothing. */
  function EscapeLength(s: string): (n: nat)
    ensures n <= |s|
  {
    if s == "" then 0
    else if s[0] in {'a', 'b', 'f', 'n', 'r', 't', 'v', '\\', '"'} then 1
    else if '0' <= s[0] <= '7' then OctalDigits(s, 3)
    else if s[0] == 'x' then 1 + HexDigits(s[1..], 2)
    else if s[0] == 'u' then 1 + HexDigits(s[1..], 4)
    else if s[0] == 'U' then 1 + HexDigits(s[1..], 8)
    else 0
  }

  /** What the scanner takes after an opening quote: up to the closing quote, a line end or the end of input. */
  function StringTail(s: string): (n: nat)
    ensures n <= |s|
    decreases |s|
  {
    if s == "" then 0
    else if s[0] == '"' || s[0] == '\n' then 1
    else if s[0] == '\\' then
      var e := EscapeLength(s[1..]);
      1 + e + StringTail(s[1 + e..])
    else 1 + StringTail(s[1..])
  }

  function TokenLength(u: Unicode, s: string): (n: nat)
    requires s != ""
    ensures 1 <= n <= |s|
  {
    if IdentStart(u, s[0]) then 1 + IdentRun(u, s[1..])
    else if IsDecimal(s[0]) then NumberLength(s)
    else if s[0] == '"' then 1 + StringTail(s[1..])
    else 1
  }

  // ----- the tokens

  function TrimLeft(s: string): string {
    if s != "" && s[0] == '"' then TrimLeft(s[1..]) else s
  }

  function TrimRight(s: string): string {
    if s != "" && s[|s| - 1] == '"' then TrimRight(s[..|s| - 1]) else s
  }

  /** strings.Trim(s, "\"") */
  function TrimQuotes(s: string): string { TrimRight(TrimLeft(s)) }

  function IdentToken(lit: string): Token {
    if lit == "and" then Token(And, lit)
    else if lit == "or" then Token(Or, lit)
    else if lit == "not" then Token(Not, lit)
    else Token(Ident, lit)
  }

  /** The token for the scanned text `lit`. */
  function Classify(u: Unicode, lit: string): (t: Token)
    requires lit != ""
    ensures t.kind != Eof
  {
    if IdentStart(u, lit[0]) then IdentToken(ToLower(u, lit))
    else if IsDecimal(lit[0]) then Token(Int, lit)
    else if lit[0] == '"' then Token(Str, TrimQuotes(lit))
    else if lit[0] == '.' then Token(Dot, ".")
    else if lit[0] == ':' then Token(Colon, ":")
    else if lit[0] == '(' then Token(LParen, "(")
    else if lit[0] == ')' then Token(RParen, ")")
    else Token(Ident, lit)
  }

  /** All tokens of `s` before the end of input. */
  function Lex(u: Unicode, s: string): (ts: seq<Token>)
    ensures forall t :: t in ts ==> t.kind != Eof
    decreases |s|
  {
    var t := s[SpaceRun(s)..];
    if t == "" then [] else
      var n := TokenLength(u, t);
      [Classify(u, t[..n])] + Lex(u, t[n..])
  }

  /** Past its end a token stream repeats EOF. */
  function Head(ts: seq<Token>): Token { if ts == [] then EOF else ts[0] }

  function Tail(ts: seq<Token>): seq<Token> { if ts == [] then [] else ts[1..] }

  /** The scanner ignores a byte order mark at the very start. */
  function WithoutByteOrderMark(s: string): string { if s != "" && s[0] as int == 0xFEFF then s[1..] else s }

  lemma LexStep(u: Unicode, s: string)
    ensures
      var t := s[SpaceRun(s)..];
      if t == "" then Lex(u, s) == [] else
        Lex(u, s) != [] && Head(Lex(u, s)) == Classify(u, t[..TokenLength(u, t)]) &&
        Tail(Lex(u, s)) == Lex(u, t[TokenLength(u, t)..])
  {
  }

  // ----- the lexer object

  /** The scanner's state is the text it has not read yet. */
  class Lexer {
    const u: Unicode
    var unread: string

    constructor (u: Unicode, input: string)
      ensures this.u == u
      ensures Remaining() == Lex(u, WithoutByteOrderMark(input))
    {
      this.u := u;
      this.unread := WithoutByteOrderMark(input);
    }

    /** The tokens that later calls of NextToken still deliver. */
    ghost function Remaining(): seq<Token>
      reads this
    {
      Lex(u, unread)
    }

    method NextToken() returns (t: Token)
      modifies this
      ensures t == Head(old(Remaining())) && Remaining() == Tail(old(Remaining()))
      ensures t.kind == Eof <==> old(Remaining()) == []
    {
      LexStep(u, unread);
      LexStep(u, "");
      hide Lex;
      hide TokenLength;
      unread := unread[SpaceRun(unread)..];
      if unread == "" {
        return EOF;
      }
      var n := TokenLength(u, unread);
      t := Classify(u, unread[..n]);
      unread := unread[n..];
    }
  }
}
