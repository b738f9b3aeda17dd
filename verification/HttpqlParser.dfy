/** The recursive-descent HTTPQL parser as an object with the two-token window of the source
    (httpql/parser.go); its methods are proved to compute the functions of HttpqlSyntax. */
module HttpqlParser {
  import opened Wrappers
  import opened HttpqlAst
  import opened HttpqlLexer
  import opened HttpqlSyntax

  class Parser {
    const l: Lexer
    var curTok: Token
    var peekTok: Token
    ghost var ahead: seq<Token>  // the tokens not yet consumed, the current one first

    constructor (l: Lexer)
      modifies l
      ensures this.l == l && Valid()
      ensures ahead == old(l.Remaining())
    {
      this.l := l;
      new;
      hide Lex;
      ghost var tokens := l.Remaining();
      var first := l.NextToken();
      curTok := first;
      var second := l.NextToken();
      peekTok := second;
      ahead := tokens;
    }

    ghost predicate Valid()
      reads this, l
    {
      curTok == Head(ahead) && peekTok == Head(Tail(ahead)) && l.Remaining() == Tail(Tail(ahead)) &&
      forall t :: t in ahead ==> t.kind != Eof
    }

    method NextToken()
      requires Valid()
      modifies this, l
      ensures Valid() && ahead == Tail(old(ahead)) && curTok == Head(ahead)
    {
      hide Lex;
      curTok := peekTok;
      var t := l.NextToken();
      peekTok := t;
      ahead := Tail(ahead);
    }

    method ParseClause() returns (r: Result<Query, ParseError>)
      requires Valid()
      modifies this, l
      ensures Valid() && Agrees(r, HttpqlSyntax.ParseClause(old(ahead)))
    {
      hide BuildClause;
      ghost var ts := ahead;
      assert curTok == Head(ts);
      hide Valid;
      var namespace := curTok.literal;
      if namespace != "req" && namespace != "resp" {
        return Err(ExpectedNamespace(namespace));
      }
      NextToken();
      ts := Tail(ts);
      assert ahead == ts && curTok == Head(ts);
      if curTok.kind != Dot {
        return Err(ExpectedDot(curTok.literal));
      }
      NextToken();
      ts := Tail(ts);
      assert ahead == ts && curTok == Head(ts);
      var field := curTok.literal;
      NextToken();
      ts := Tail(ts);
      assert ahead == ts && curTok == Head(ts);
      if curTok.kind != Dot {
        return Err(ExpectedDotAfterField(curTok.literal));
      }
      NextToken();
      ts := Tail(ts);
      assert ahead == ts && curTok == Head(ts);
      var op := curTok.literal;
      NextToken();
      ts := Tail(ts);
      assert ahead == ts && curTok == Head(ts);
      if curTok.kind != Colon {
        return Err(ExpectedColon(curTok.literal));
      }
      NextToken();
      ts := Tail(ts);
      assert ahead == ts && curTok == Head(ts);
      var val := curTok.literal;
      NextToken();
      ts := Tail(ts);
      assert ahead == ts && curTok == Head(ts);
      r := BuildClause(namespace, field, op, val);
    }

    /** `r` and the tokens now ahead are what the function result `p` says. */
    ghost predicate Agrees(r: Result<Query, ParseError>, p: Parsed)
      reads this
    {
      match p
      case Ok((q, rest)) => r == Ok(q) && ahead == rest
      case Err(e) => r == Err(e)
    }

    method ParseFactor() returns (r: Result<Query, ParseError>)
      requires Valid()
      modifies this, l
      ensures Valid() && Agrees(r, HttpqlSyntax.ParseFactor(old(ahead)))
      decreases |ahead|, 0
    {
      if curTok.kind == LParen {
        NextToken();
        r := ParseOr();
        if r.Err? {
          return r;
        }
        if curTok.kind != RParen {
          return Err(ExpectedRParen(curTok.literal));
        }
        NextToken();
        return r;
      }
      r := ParseClause();
    }

    method ParseAnd() returns (r: Result<Query, ParseError>)
      requires Valid()
      modifies this, l
      ensures Valid() && Agrees(r, HttpqlSyntax.ParseAnd(old(ahead)))
      decreases |ahead|, 1
    {
      r := ParseFactor();
      if r.Err? {
        return r;
      }
      var left := r.value;
      while curTok.kind == And
        invariant Valid() && |ahead| < |old(ahead)|
        invariant HttpqlSyntax.ParseAnd(old(ahead)) == AndLoop(left, ahead)
        decreases |ahead|
      {
        NextToken();
        var right := ParseFactor();
        if right.Err? {
          return right;
        }
        left := AndQuery(left, right.value);
      }
      return Ok(left);
    }

    method ParseOr() returns (r: Result<Query, ParseError>)
      requires Valid()
      modifies this, l
      ensures Valid() && Agrees(r, HttpqlSyntax.ParseOr(old(ahead)))
      decreases |ahead|, 2
    {
      r := ParseAnd();
      if r.Err? {
        return r;
      }
      var left := r.value;
      while curTok.kind == Or
        invariant Valid() && |ahead| < |old(ahead)|
        invariant HttpqlSyntax.ParseOr(old(ahead)) == OrLoop(left, ahead)
        decreases |ahead|
      {
        NextToken();
        var right := ParseAnd();
        if right.Err? {
          return right;
        }
        left := OrQuery(left, right.value);
      }
      return Ok(left);
    }

    method ParseQuery() returns (r: Result<Query, ParseError>)
      requires Valid()
      modifies this, l
      ensures Valid() && Agrees(r, HttpqlSyntax.ParseOr(old(ahead)))
    {
      r := ParseOr();
    }
  }
}
