/** Text operations the models share. */
module Strings {

  /** `t` stands in `s` from place `i` on. */
  predicate At(s: string, i: int, t: string) { 0 <= i && i + |t| <= |s| && s[i..i + |t|] == t }

  predicate Contains(s: string, sub: string) { exists i :: 0 <= i <= |s| && sub <= s[i..] }

  lemma ContainsSelf(s: string)
    ensures Contains(s, s)
  {
    assert s <= s[0..];
  }

  /** A text contains what it is made of with something before and after. */
  lemma ContainsMeans(s: string, sub: string)
    ensures Contains(s, sub) <==> exists a: string, b: string :: s == a + sub + b
  {
    if Contains(s, sub) {
      var i :| 0 <= i <= |s| && sub <= s[i..];
      assert s[i..] == sub + s[i..][|sub|..];
      assert s == s[..i] + sub + s[i..][|sub|..];
    }
    if a: string, b: string :| s == a + sub + b {
      assert sub <= s[|a|..];
    }
  }

  function Digit(d: nat): (c: char)
    requires d < 10
    ensures '0' <= c <= '9' && c as int == '0' as int + d
  {
    ('0' as int + d) as char
  }

  /** A number in decimal. */
  function Digits(n: nat): (s: string)
    ensures |s| > 0
    ensures forall i :: 0 <= i < |s| ==> '0' <= s[i] <= '9'
    ensures |s| > 1 ==> s[0] != '0'
  {
    if n < 10 then [Digit(n)] else Digits(n / 10) + [Digit(n % 10)]
  }
}
