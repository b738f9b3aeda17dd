/** The generated parser as an object (web/client/src/utils/filterRuleParser.js): one shared position
    that every rule advances and, when an alternative fails, puts back. */
module FilterParser {
  import opened Wrappers
  import opened Strings
  import opened FilterGrammar
  import opened FilterSyntax
  import FilterCost

  lemma InnerSlice(s: string, a: nat, b: nat)
    requires a + 2 <= b <= |s|
    ensures s[a..b][1..b - a - 1] == s[a + 1..b - 1]
  {
    assert s[a..b] == [s[a]] + s[a + 1..b - 1] + [s[b - 1]];
  }

  class Parser {
    const input: string
    var currPos: nat
    var savedPos: nat
    // the calls of ParseFactor
    ghost var factors: nat

    constructor (input: string)
      ensures this.input == input && Valid() && currPos == 0 && factors == 0
    {
      this.input := input;
      currPos, savedPos, factors := 0, 0, 0;
    }

    ghost predicate Valid()
      reads this
    {
      currPos <= |input| && savedPos <= |input|
    }

    /** `rule` and the position now reached are what `r` says. */
    ghost predicate Reached(rule: Option<Rule>, r: (Rule, nat))
      reads this
    {
      Valid() && rule == Some(r.0) && currPos == r.1
    }

    function Text(): string
      requires Valid() && savedPos <= currPos
      reads this
    {
      input[savedPos..currPos]
    }

    method ParseOr() returns (s0: Option<Rule>)
      requires Valid()
      modifies this
      ensures Reached(s0, FilterSyntax.ParseOr(input, old(currPos)))
      ensures factors == old(factors) + FilterCost.OrCost(input, old(currPos))
      decreases |input| - currPos, 3
    {
      hide SkipSpace;
      hide FilterSyntax.ParseAnd;
      hide FilterCost.AndCost;
      var start := currPos;
      var s1 := ParseAnd();
      if s1.Some? {
        ParseSpace();
        if At(input, currPos, "or") {
          currPos := currPos + 2;
          ParseSpace();
          var s5 := ParseOr();
          if s5.Some? {
            savedPos := start;
            return Some(Or(s1.value, s5.value));
          }
        }
      }
      currPos := start;
      s0 := ParseAnd();
    }

    method ParseAnd() returns (s0: Option<Rule>)
      requires Valid()
      modifies this
      ensures Reached(s0, FilterSyntax.ParseAnd(input, old(currPos)))
      ensures factors == old(factors) + FilterCost.AndCost(input, old(currPos))
      decreases |input| - currPos, 2
    {
      hide SkipSpace;
      hide FilterSyntax.ParseNot;
      hide FilterCost.NotCost;
      var start := currPos;
      var s1 := ParseNot();
      if s1.Some? {
        ParseSpace();
        if At(input, currPos, "and") {
          currPos := currPos + 3;
          ParseSpace();
          var s5 := ParseAnd();
          if s5.Some? {
            savedPos := start;
            return Some(And(s1.value, s5.value));
          }
        }
      }
      currPos := start;
      s0 := ParseNot();
    }

    method ParseNot() returns (s0: Option<Rule>)
      requires Valid()
      modifies this
      ensures Reached(s0, FilterSyntax.ParseNot(input, old(currPos)))
      ensures factors == old(factors) + FilterCost.NotCost(input, old(currPos))
      decreases |input| - currPos, 1
    {
      hide SkipSpace;
      hide FilterSyntax.ParseFactor;
      hide FilterCost.FactorCost;
      var start := currPos;
      ParseSpace();
      if At(input, currPos, "not") {
        currPos := currPos + 3;
        ParseSpace();
        var s4 := ParseFactor();
        if s4.Some? {
          savedPos := start;
          return Some(Not(s4.value));
        }
      }
      currPos := start;
      s0 := ParseFactor();
    }

    method ParseFactor() returns (s0: Option<Rule>)
      requires Valid()
      modifies this
      ensures Reached(s0, FilterSyntax.ParseFactor(input, old(currPos)))
      ensures factors == old(factors) + FilterCost.FactorCost(input, old(currPos))
      decreases |input| - currPos, 0
    {
      hide SkipSpace;
      hide Quoted;
      hide BareEnd;
      hide FilterSyntax.ParseOr;
      hide FilterCost.OrCost;
      var start := currPos;
      factors := factors + 1;
      if currPos < |input| && input[currPos] == '(' {
        currPos := currPos + 1;
        ParseSpace();
        var s3 := ParseOr();
        if s3.Some? {
          ParseSpace();
          if currPos < |input| && input[currPos] == ')' {
            currPos := currPos + 1;
            savedPos := start;
            return s3;
          }
        }
        currPos := start;
      }
      s0 := ParseKeyword1();
      if s0.None? {
        s0 := ParseKeyword2();
        if s0.None? {
          s0 := ParseKeyword3();
        }
      }
    }

    /** Advances over the characters of a class, one at a time. */
    method Advance(chars: set<char>, inverted: bool)
      requires Valid()
      modifies this`currPos
      ensures Valid() && currPos == RunEnd(input, old(currPos), chars, inverted)
    {
      while currPos < |input| && InClass(chars, inverted, input[currPos])
        invariant Valid() && RunEnd(input, old(currPos), chars, inverted) == RunEnd(input, currPos, chars, inverted)
        decreases |input| - currPos
      {
        currPos := currPos + 1;
      }
    }

    method ParseQuoted(quote: char) returns (s0: Option<Rule>)
      requires Valid()
      modifies this`currPos, this`savedPos
      ensures
        var q := Quoted(input, old(currPos), quote);
        if q.Some? then Reached(s0, q.value) else Valid() && s0 == None && currPos == old(currPos)
    {
      var start := currPos;
      if currPos < |input| && input[currPos] == quote {
        currPos := currPos + 1;
        Advance({quote}, true);
        if currPos < |input| && input[currPos] == quote {
          currPos := currPos + 1;
          savedPos := start;
          var text := Text();
          InnerSlice(input, start, currPos);
          return Some(Keyword(text[1..|text| - 1]));
        }
        currPos := start;
      }
      s0 := None;
    }

    method ParseKeyword1() returns (s0: Option<Rule>)
      requires Valid()
      modifies this`currPos, this`savedPos
      ensures
        var q := Quoted(input, old(currPos), '"');
        if q.Some? then Reached(s0, q.value) else Valid() && s0 == None && currPos == old(currPos)
    {
      s0 := ParseQuoted('"');
    }

    method ParseKeyword2() returns (s0: Option<Rule>)
      requires Valid()
      modifies this`currPos, this`savedPos
      ensures
        var q := Quoted(input, old(currPos), '\'');
        if q.Some? then Reached(s0, q.value) else Valid() && s0 == None && currPos == old(currPos)
    {
      s0 := ParseQuoted('\'');
    }

    method ParseKeyword3() returns (s0: Option<Rule>)
      requires Valid()
      modifies this`currPos, this`savedPos
      ensures
        var e := BareEnd(input, old(currPos));
        Reached(s0, (Keyword(input[old(currPos)..e]), e))
    {
      var start := currPos;
      Advance({' ', '(', ')'}, true);
      savedPos := start;
      var text := Text();
      s0 := Some(Keyword(text));
    }

    method ParseSpace()
      requires Valid()
      modifies this`currPos
      ensures Valid() && currPos == SkipSpace(input, old(currPos))
    {
      Advance(SPACE_CHARS, false);
    }

    /** The whole text: None is the syntax error. */
    method Parse() returns (r: Option<Rule>)
      requires Valid() && currPos == 0
      modifies this
      ensures r == ParseText(input)
      ensures factors == old(factors) + FilterCost.OrCost(input, 0)
    {
      r := ParseOr();
      if r.None? || currPos != |input| {
        return None;
      }
    }
  }
}
