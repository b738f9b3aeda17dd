/** What a printed value stands for (fmt's %q, httpql/ast.go): reading its escapes as Go does gives the value back. The
    lexer (httpql/lexer.go) does not read them, and so keeps them in the value. */
module HttpqlQuoting {
  import opened Wrappers
  import opened HttpqlAst

  // ----- reading escapes

  function HexValue(c: char): Option<nat> {
    if '0' <= c <= '9' then Some(c as int - '0' as int)
    else if 'a' <= c <= 'f' then Some(c as int - 'a' as int + 10)
    else None
  }

  function HexNumber(s: string): Option<nat> {
    if s == "" then Some(0) else
      var before, last := HexNumber(s[..|s| - 1]), HexValue(s[|s| - 1]);
      if before.None? || last.None? then None else Some(16 * before.value + last.value)
  }

  /** The characters that stand after a backslash for one that is not written itself. */
  function Named(c: char): Option<char> {
    match c
    case 'a' => Some(7 as char)
    case 'b' => Some(8 as char)
    case 'f' => Some(12 as char)
    case 'n' => Some(10 as char)
    case 'r' => Some(13 as char)
    case 't' => Some(9 as char)
    case 'v' => Some(11 as char)
    case '\\' => Some(c)
    case '"' => Some(c)
    case _ => None
  }

  /** How many digits follow. */
  function Width(c: char): nat { if c == 'x' then 2 else if c == 'u' then 4 else if c == 'U' then 8 else 0 }

  /** A text with its escapes read; None where one is malformed. */
  function Unescape(s: string): Option<string>
    decreases |s|
  {
    if s == "" then Some("")
    else if s[0] != '\\' then
      var rest := Unescape(s[1..]);
      if rest.None? then None else Some([s[0]] + rest.value)
    else if |s| == 1 then None
    else if Named(s[1]).Some? then
      var rest := Unescape(s[2..]);
      if rest.None? then None else Some([Named(s[1]).value] + rest.value)
    else
      var w := Width(s[1]);
      if w == 0 || |s| < 2 + w then None else
        var n, rest := HexNumber(s[2..2 + w]), Unescape(s[2 + w..]);
        if n.None? || rest.None? || n.value > 0x10_FFFF || 0xD800 <= n.value < 0xE000 then None
        else Some([n.value as char] + rest.value)
  }

  // ----- the inverse of printing

  function Pow16(n: nat): nat { if n == 0 then 1 else 16 * Pow16(n - 1) }

  lemma {:induction false} HexInverse(n: nat, width: nat)
    requires n < Pow16(width)
    ensures HexNumber(Hex(n, width)) == Some(n)
  {
    if width > 0 {
      var h := Hex(n, width);
      HexInverse(n / 16, width - 1);
      assert h[..|h| - 1] == Hex(n / 16, width - 1) && h[|h| - 1] == HexDigit(n % 16);
    }
  }

  lemma Widths()
    ensures Pow16(2) == 0x100 && Pow16(4) == 0x1_0000 && Pow16(8) == 0x1_0000_0000
  {
    assert Pow16(1) == 16 * Pow16(0);
    assert Pow16(3) == 16 * Pow16(2);
    assert Pow16(5) == 16 * Pow16(4) && Pow16(6) == 16 * Pow16(5) && Pow16(7) == 16 * Pow16(6);
  }

  /** The three ways in which a character is written. */
  lemma QuoteCharIs(u: Unicode, c: char)
    ensures
      var e := QuoteChar(u, c);
      (e == [c] && c != '\\') || (|e| == 2 && e[0] == '\\' && Named(e[1]) == Some(c)) ||
      (|e| in {4, 6, 10} && e == ['\\', e[1]] + Hex(c as int, |e| - 2) && Named(e[1]) == None &&
       Width(e[1]) == |e| - 2 && c as int < if |e| == 4 then 0x100 else if |e| == 6 then 0x1_0000 else 0x1_0000_0000)
  {
    hide Hex;
  }

  lemma PlainInverse(c: char, rest: string)
    requires Unescape(rest).Some? && c != '\\'
    ensures Unescape([c] + rest) == Some([c] + Unescape(rest).value)
  {
    assert ([c] + rest)[1..] == rest;
  }

  lemma NamedInverse(k: char, rest: string)
    requires Unescape(rest).Some? && Named(k).Some?
    ensures Unescape(['\\', k] + rest) == Some([Named(k).value] + Unescape(rest).value)
  {
    assert (['\\', k] + rest)[2..] == rest;
    hide Named;
  }

  lemma NumberInverse(k: char, digits: string, rest: string, c: char)
    requires Unescape(rest).Some? && Named(k) == None && Width(k) == |digits| > 0
    requires HexNumber(digits) == Some(c as int)
    ensures Unescape(['\\', k] + digits + rest) == Some([c] + Unescape(rest).value)
  {
    var s := ['\\', k] + digits + rest;
    assert s[2..2 + |digits|] == digits && s[2 + |digits|..] == rest;
    hide Named;
    hide Width;
    hide HexNumber;
  }

  /** One quoted character stands for itself. */
  lemma CharInverse(u: Unicode, c: char, rest: string)
    requires Unescape(rest).Some?
    ensures Unescape(QuoteChar(u, c) + rest) == Some([c] + Unescape(rest).value)
  {
    QuoteCharIs(u, c);
    Widths();
    var e := QuoteChar(u, c);
    hide *;
    if e == [c] && c != '\\' {
      PlainInverse(c, rest);
    } else if |e| == 2 {
      assert e == ['\\', e[1]];
      NamedInverse(e[1], rest);
    } else {
      HexInverse(c as int, |e| - 2);
      NumberInverse(e[1], Hex(c as int, |e| - 2), rest, c);
    }
  }

  /** For every value: what %q writes, its escapes read, is the value. */
  lemma {:induction false} QuotingKeeps(u: Unicode, v: string)
    ensures Unescape(QuoteBody(u, v)) == Some(v)
  {
    if v != "" {
      QuotingKeeps(u, v[1..]);
      CharInverse(u, v[0], QuoteBody(u, v[1..]));
      hide Unescape;
      hide QuoteChar;
      assert [v[0]] + v[1..] == v;
    }
  }
}
