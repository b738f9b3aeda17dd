/** The text form in which the web client lets a flow be edited
    (web/client/src/containers/EditFlow.tsx), and exactly which messages survive it. */
module EditText {
  import opened Wrappers
  import opened Strings
  import opened TextCut

  /** A header field; a message has each key once. */
  datatype Field = Field(key: string, values: seq<string>)

  type Header = map<string, seq<string>>

  /** `body` is the decoded text of the body; `isText` is what isTextBody says of the headers. */
  datatype Request = Request(verb: string, url: string, fields: seq<Field>, body: Option<string>, isText: bool)

  datatype Response = Response(statusCode: nat, fields: seq<Field>, body: Option<string>, isText: bool)

  datatype ParsedRequest = ParsedRequest(verb: string, url: string, header: Header, body: Option<string>)

  datatype ParsedResponse = ParsedResponse(statusCode: int, header: Header, body: Option<string>)

  const BLANK := "\n\n"
  const COLON := ": "
  const TAB := " \t "
  const PROTO := "__proto__"

  // ----- writing

  function FieldLine(f: Field): string { f.key + (COLON + Join(f.values, TAB)) }

  function FieldLines(fs: seq<Field>): (r: seq<string>)
    ensures |r| == |fs| && forall i :: 0 <= i < |fs| ==> r[i] == FieldLine(fs[i])
  {
    seq(|fs|, i requires 0 <= i < |fs| => FieldLine(fs[i]))
  }

  function BodyLines(body: Option<string>, isText: bool): string {
    if body.Some? && isText then body.value else ""
  }

  function Stringify(firstLine: string, fs: seq<Field>, body: string): string {
    firstLine + (BLANK + (Join(FieldLines(fs), "\n") + (BLANK + body)))
  }

  function StringifyRequest(r: Request): string {
    Stringify(r.verb + (" " + r.url), r.fields, BodyLines(r.body, r.isText))
  }

  function StringifyResponse(r: Response): string {
    Stringify(Digits(r.statusCode), r.fields, BodyLines(r.body, r.isText))
  }

  // ----- reading

  /** First line, header block and body; None where the source gives up. */
  function Blocks(content: string): Option<(string, string, string)> {
    var first := IndexOf(content, BLANK, 0);
    if first.None? || first.value == 0 then None else
      var second := IndexOf(content, BLANK, first.value + 2);
      if second.None? then None
      else Some((content[..first.value], content[first.value + 2..second.value], content[second.value + 2..]))
  }

  /** header[key] = values: assigning to `__proto__` changes the prototype and adds no entry. */
  function Assign(h: Header, key: string, values: seq<string>): Header { if key == PROTO then h else h[key := values] }

  /** The dictionary after the given lines. */
  function HeaderOf(lines: seq<string>): Option<Header> {
    if lines == [] then Some(map[]) else
      var before := HeaderOf(lines[..|lines| - 1]);
      var kv := FirstTwo(lines[|lines| - 1], COLON);
      if before.None? || kv.None? then None else Some(Assign(before.value, kv.value.0, Split(kv.value.1, TAB)))
  }

  function ParseBody(s: string): Option<string> { if s == "" then None else Some(s) }

  function ParseRequest(content: string): Option<ParsedRequest> {
    var b := Blocks(content);
    if b.None? then None else
      var (firstLine, headerLines, bodyLines) := b.value;
      var mu := FirstTwo(firstLine, " ");
      var h := HeaderOf(Split(headerLines, "\n"));
      if mu.None? || h.None? then None
      else Some(ParsedRequest(mu.value.0, mu.value.1, h.value, ParseBody(bodyLines)))
  }

  /** How many digits `s` starts with. */
  function DigitRun(s: string): (n: nat)
    ensures n <= |s| && forall i :: 0 <= i < n ==> '0' <= s[i] <= '9'
  {
    if s != "" && '0' <= s[0] <= '9' then 1 + DigitRun(s[1..]) else 0
  }

  function Value(s: string): nat
    requires forall i :: 0 <= i < |s| ==> '0' <= s[i] <= '9'
  {
    if s == "" then 0 else 10 * Value(s[..|s| - 1]) + (s[|s| - 1] as int - '0' as int)
  }

  /** parseInt, on text without leading space or sign; None is NaN. */
  function ParseDigits(s: string): Option<int> {
    if DigitRun(s) == 0 then None else Some(Value(s[..DigitRun(s)]))
  }

  function ParseResponse(content: string): Option<ParsedResponse> {
    var b := Blocks(content);
    if b.None? then None else
      var (firstLine, headerLines, bodyLines) := b.value;
      var code := ParseDigits(firstLine);
      var h := HeaderOf(Split(headerLines, "\n"));
      if code.None? || h.None? then None else Some(ParsedResponse(code.value, h.value, ParseBody(bodyLines)))
  }

  /** The source's loop over the header lines. */
  method ReadHeader(lines: seq<string>) returns (header: Option<Header>)
    ensures header == HeaderOf(lines)
  {
    var h: Header := map[];
    for i := 0 to |lines|
      invariant HeaderOf(lines[..i]) == Some(h)
    {
      assert lines[..i + 1][..i] == lines[..i];
      var kv := FirstTwo(lines[i], COLON);
      if kv.None? {
        NoneStays(lines, i + 1);
        return None;
      }
      h := Assign(h, kv.value.0, Split(kv.value.1, TAB));
    }
    assert lines[..|lines|] == lines;
    header := Some(h);
  }

  lemma {:induction false} NoneStays(lines: seq<string>, i: nat)
    requires i <= |lines| && HeaderOf(lines[..i]).None?
    ensures HeaderOf(lines).None?
    decreases |lines|
  {
    if i == |lines| {
      assert lines[..i] == lines;
    } else {
      var init := lines[..|lines| - 1];
      assert init[..i] == lines[..i];
      NoneStays(init, i);
    }
  }

  // ----- which messages survive

  function HeaderMap(fs: seq<Field>): Header {
    if fs == [] then map[] else HeaderMap(fs[..|fs| - 1])[fs[|fs| - 1].key := fs[|fs| - 1].values]
  }

  predicate DistinctKeys(fs: seq<Field>) { forall i, j :: 0 <= i < j < |fs| ==> fs[i].key != fs[j].key }

  /** No line feed, a key that is not `__proto__` and has no ": ", a non-empty value text without ": " in
      which the values can be told apart. */
  predicate CleanField(f: Field) {
    var joined := Join(f.values, TAB);
    '\n' !in f.key && '\n' !in joined &&
    f.key != "" && f.key != PROTO && Fits(f.key, COLON) &&
    joined != "" && !Occurs(joined, COLON) && Separable(f.values, TAB)
  }

  predicate CleanFields(fs: seq<Field>) { fs != [] && forall i :: 0 <= i < |fs| ==> CleanField(fs[i]) }

  /** An empty body and a body that is not text do not come back. */
  predicate CleanBody(body: Option<string>, isText: bool) { body.Some? ==> isText && body.value != "" }

  predicate CleanRequest(r: Request) {
    r.verb != "" && r.url != "" && ' ' !in r.verb && ' ' !in r.url && Fits(r.verb + (" " + r.url), BLANK) &&
    CleanFields(r.fields) && CleanBody(r.body, r.isText)
  }

  predicate CleanResponse(r: Response) { CleanFields(r.fields) && CleanBody(r.body, r.isText) }

  // ----- blocks

  /** When the first line is found, the rest is cut at its own first blank line. */
  lemma BlocksAfterFirst(first: string, rest: string)
    requires first != "" && Fits(first, BLANK)
    ensures
      var j := IndexOf(rest, BLANK, 0);
      Blocks(first + (BLANK + rest)) ==
      if j.None? then None else Some((first, rest[..j.value], rest[j.value + 2..]))
  {
    hide Fits;
    hide IndexOf;
    hide At;
    FirstSeparator(first, BLANK, rest);
    NextSearch(first, BLANK, rest);
    var j := IndexOf(rest, BLANK, 0);
    if j.Some? { BlockSlices(first, rest, j.value); }
  }

  lemma BlockSlices(first: string, rest: string, j: nat)
    requires j + 2 <= |rest|
    ensures
      var content := first + (BLANK + rest);
      content[..|first|] == first && content[|first| + 2..|first| + 2 + j] == rest[..j] &&
      content[|first| + 2 + j + 2..] == rest[j + 2..]
  {
  }

  /** Otherwise something shorter is taken for the first line. */
  lemma BlocksBeforeFirst(first: string, rest: string)
    requires !Fits(first, BLANK)
    ensures var b := Blocks(first + (BLANK + rest)); b.Some? ==> |b.value.0| < |first|
  {
    FirstSeparator(first, BLANK, rest);
    hide Fits;
    hide IndexOf;
  }

  lemma HeaderCut(headers: string, body: string)
    ensures
      var rest := headers + (BLANK + body);
      var j := IndexOf(rest, BLANK, 0);
      j.Some? && (Fits(headers, BLANK) ==> rest[..j.value] == headers && rest[j.value + 2..] == body)
  {
    FirstSeparator(headers, BLANK, body);
    var rest := headers + (BLANK + body);
    assert rest[..|headers|] == headers && rest[|headers| + 2..] == body;
  }

  // ----- header lines

  lemma FieldLineExact(f: Field)
    requires CleanField(f)
    ensures
      FirstTwo(FieldLine(f), COLON) == Some((f.key, Join(f.values, TAB))) && Split(Join(f.values, TAB), TAB) == f.values
  {
    FirstTwoExact(f.key, COLON, Join(f.values, TAB));
    SplitJoin(f.values, TAB);
  }

  lemma {:induction false} CleanLinesRead(fs: seq<Field>)
    requires forall i :: 0 <= i < |fs| ==> CleanField(fs[i])
    ensures HeaderOf(FieldLines(fs)) == Some(HeaderMap(fs))
  {
    if fs != [] {
      var init, last := fs[..|fs| - 1], fs[|fs| - 1];
      assert FieldLines(fs)[..|fs| - 1] == FieldLines(init);
      FieldLineExact(last);
      CleanLinesRead(init);
      hide CleanField;
      hide FieldLine;
      hide FirstTwo;
      hide Split;
    }
  }

  lemma NoNewlineInLine(f: Field)
    ensures '\n' !in FieldLine(f) <==> '\n' !in f.key && '\n' !in Join(f.values, TAB)
  {
  }

  lemma LinesSplit(fs: seq<Field>)
    requires fs != [] && forall i :: 0 <= i < |fs| ==> '\n' !in FieldLine(fs[i])
    ensures Split(Join(FieldLines(fs), "\n"), "\n") == FieldLines(fs)
  {
    var ls := FieldLines(fs);
    forall i | 0 <= i < |ls| ensures Fits(ls[i], "\n") && !Occurs(ls[i], "\n") {
      FitsChar(ls[i], '\n');
      CharOccurs(ls[i], '\n');
    }
    SplitJoin(ls, "\n");
  }

  /** Whatever lines without line feeds are read as, keys and values have no line feed, and keys no ": ". */
  lemma {:induction false} ReadHeaderIsFree(lines: seq<string>)
    requires HeaderOf(lines).Some? && forall l :: l in lines ==> '\n' !in l
    ensures PROTO !in HeaderOf(lines).value
    ensures
      forall k :: k in HeaderOf(lines).value ==>
        '\n' !in k && !Occurs(k, COLON) && forall v :: v in HeaderOf(lines).value[k] ==> '\n' !in v
  {
    if lines != [] {
      var init, last := lines[..|lines| - 1], lines[|lines| - 1];
      ReadHeaderIsFree(init);
      PiecesAreFree(last, COLON, '\n');
      SplitWhole(last, COLON);
      var kv := FirstTwo(last, COLON).value;
      PiecesAreFree(kv.1, TAB, '\n');
    }
  }

  lemma {:induction false} JoinFree(vs: seq<string>, sep: string, c: char)
    requires c !in sep
    ensures c !in Join(vs, sep) <==> forall v :: v in vs ==> c !in v
  {
    if |vs| > 1 {
      JoinFree(vs[1..], sep, c);
      assert vs == [vs[0]] + vs[1..];
    }
  }

  lemma {:induction false} HeaderMapContents(fs: seq<Field>, i: nat)
    requires DistinctKeys(fs) && i < |fs|
    ensures fs[i].key in HeaderMap(fs) && HeaderMap(fs)[fs[i].key] == fs[i].values
    decreases |fs|
  {
    if i < |fs| - 1 { HeaderMapContents(fs[..|fs| - 1], i); }
  }

  /** The entry of a line whose key is read unchanged, when all keys are and all are different. */
  lemma {:induction false} ReadEntry(fs: seq<Field>, i: nat)
    requires DistinctKeys(fs) && HeaderOf(FieldLines(fs)).Some? && i < |fs|
    requires forall j :: 0 <= j < |fs| ==> Fits(fs[j].key, COLON) && fs[j].key != PROTO
    ensures
      var kv := FirstTwo(FieldLine(fs[i]), COLON);
      kv.Some? && kv.value.0 == fs[i].key && fs[i].key in HeaderOf(FieldLines(fs)).value &&
      HeaderOf(FieldLines(fs)).value[fs[i].key] == Split(kv.value.1, TAB)
    decreases |fs|
  {
    hide Fits;
    hide FirstTwo;
    hide Split;
    hide Join;
    hide Occurs;
    var init, last := fs[..|fs| - 1], fs[|fs| - 1];
    FirstTwoExact(last.key, COLON, Join(last.values, TAB));
    assert FieldLines(fs)[..|fs| - 1] == FieldLines(init);
    if i < |init| {
      assert init[i] == fs[i];
      ReadEntry(init, i);
    }
  }

  lemma FitsColon(k: string)
    ensures Fits(k, COLON) <==> !Occurs(k, COLON)
  {
    var t := k + COLON[..1];
    assert COLON[..1] == ":";
    forall i | At(t, i, COLON) ensures At(k, i, COLON) {
      assert t[i..i + 2][1] == t[i + 1];
      AtPrefix(k, ":", i, COLON);
    }
    forall i | At(k, i, COLON) ensures At(t, i, COLON) {
      AtPrefix(k, ":", i, COLON);
    }
  }

  lemma EntryClean(f: Field)
    requires '\n' !in f.key && '\n' !in Join(f.values, TAB) && Fits(f.key, COLON) && f.key != PROTO
    requires
      var kv := FirstTwo(FieldLine(f), COLON);
      kv.Some? && kv.value.0 == f.key && Split(kv.value.1, TAB) == f.values
    ensures CleanField(f)
  {
    var joined := Join(f.values, TAB);
    var kv := FirstTwo(FieldLine(f), COLON).value;
    FirstTwoExact(f.key, COLON, joined);
    JoinSplit(kv.1, TAB);
    SplitWhole(joined, COLON);
    SplitJoin(f.values, TAB);
  }

  /** The header block is read as the message's headers exactly when there is one and all are clean. */
  lemma HeadersExact(fs: seq<Field>)
    requires DistinctKeys(fs)
    ensures HeaderOf(Split(Join(FieldLines(fs), "\n"), "\n")) == Some(HeaderMap(fs)) <==> CleanFields(fs)
  {
    var block := Join(FieldLines(fs), "\n");
    if CleanFields(fs) {
      forall i | 0 <= i < |fs| ensures '\n' !in FieldLine(fs[i]) { NoNewlineInLine(fs[i]); }
      LinesSplit(fs);
      CleanLinesRead(fs);
    } else if HeaderOf(Split(block, "\n")) == Some(HeaderMap(fs)) {
      if fs == [] {
        NoFieldsFail();
      } else {
        FieldsWereClean(fs);
      }
    }
  }

  lemma NoFieldsFail()
    ensures HeaderOf(Split(Join(FieldLines([]), "\n"), "\n")) == None
  {
    CharOccurs("", '\n');
    SplitWhole("", "\n");
    CharOccurs("", ':');
    assert !Occurs("", COLON);
    SplitWhole("", COLON);
  }

  /** A field that was read back has no line feeds, whatever block it was read from. */
  lemma FieldFree(fs: seq<Field>, lines: seq<string>, i: nat)
    requires DistinctKeys(fs) && HeaderOf(lines) == Some(HeaderMap(fs)) && (forall l :: l in lines ==> '\n' !in l)
    requires i < |fs|
    ensures FreeField(fs[i])
  {
    ReadHeaderIsFree(lines);
    HeaderMapContents(fs, i);
    hide HeaderOf;
    hide HeaderMap;
    JoinFree(fs[i].values, TAB, '\n');
    NoNewlineInLine(fs[i]);
    FitsColon(fs[i].key);
  }

  predicate FreeField(f: Field) {
    '\n' !in FieldLine(f) && '\n' !in f.key && '\n' !in Join(f.values, TAB) && Fits(f.key, COLON) && f.key != PROTO
  }

  lemma FieldsFree(fs: seq<Field>, lines: seq<string>)
    requires DistinctKeys(fs) && HeaderOf(lines) == Some(HeaderMap(fs)) && (forall l :: l in lines ==> '\n' !in l)
    ensures forall i :: 0 <= i < |fs| ==> FreeField(fs[i])
  {
    hide *;
    forall i | 0 <= i < |fs| ensures FreeField(fs[i]) {
      FieldFree(fs, lines, i);
    }
  }

  lemma FieldWasClean(fs: seq<Field>, i: nat)
    requires DistinctKeys(fs) && i < |fs| && HeaderOf(FieldLines(fs)) == Some(HeaderMap(fs))
    requires forall j :: 0 <= j < |fs| ==> FreeField(fs[j])
    ensures CleanField(fs[i])
  {
    ReadEntry(fs, i);
    HeaderMapContents(fs, i);
    hide HeaderOf;
    hide HeaderMap;
    EntryClean(fs[i]);
  }

  lemma FieldsWereClean(fs: seq<Field>)
    requires DistinctKeys(fs) && fs != []
    requires HeaderOf(Split(Join(FieldLines(fs), "\n"), "\n")) == Some(HeaderMap(fs))
    ensures CleanFields(fs)
  {
    var block := Join(FieldLines(fs), "\n");
    NoCharInPieces(block, '\n');
    FieldsFree(fs, Split(block, "\n"));
    LinesSplit(fs);
    hide HeaderOf;
    hide HeaderMap;
    hide CleanField;
    forall i | 0 <= i < |fs| ensures CleanField(fs[i]) {
      FieldWasClean(fs, i);
    }
  }

  // ----- whole messages

  lemma BlankAt(t: string, i: nat)
    ensures At(t, i, BLANK) ==> t[i] == '\n' && t[i + 1] == '\n'
  {
    if At(t, i, BLANK) { assert t[i..i + 2][0] == t[i] && t[i..i + 2][1] == t[i + 1]; }
  }

  lemma {:induction false} NoDoubleNewline(ls: seq<string>)
    requires ls != [] && forall i :: 0 <= i < |ls| ==> ls[i] != "" && '\n' !in ls[i]
    ensures !Occurs(Join(ls, "\n") + "\n", BLANK)
    ensures Join(ls, "\n") != "" && Join(ls, "\n")[0] != '\n'
  {
    var t := Join(ls, "\n") + "\n";
    if |ls| == 1 {
      forall i | 0 <= i <= |t| ensures !At(t, i, BLANK) {
        BlankAt(t, i);
      }
    } else {
      var rest := Join(ls[1..], "\n");
      NoDoubleNewline(ls[1..]);
      hide Join;
      var a, b := ls[0] + "\n", rest + "\n";
      assert t == a + b;
      forall i | 0 <= i <= |t| ensures !At(t, i, BLANK) {
        BlankAt(t, i);
        assert i < |ls[0]| ==> t[i] == ls[0][i];
        assert i == |ls[0]| ==> t[i + 1] == rest[0];
        if i >= |a| { AtSuffix(a, b, i - |a|); }
      }
    }
  }

  lemma AtSuffix(a: string, b: string, i: nat)
    ensures At(a + b, |a| + i, BLANK) <==> At(b, i, BLANK)
  {
    if i + 2 <= |b| { assert (a + b)[|a| + i..|a| + i + 2] == b[i..i + 2]; }
  }

  lemma FreeFieldsFit(fs: seq<Field>)
    requires forall i :: 0 <= i < |fs| ==> '\n' !in FieldLine(fs[i])
    ensures Fits(Join(FieldLines(fs), "\n"), BLANK)
  {
    var ls := FieldLines(fs);
    assert BLANK[..1] == "\n";
    if fs == [] {
      assert Join(ls, "\n") + "\n" == "\n";
    } else {
      NoDoubleNewline(ls);
    }
  }

  lemma FirstTwoLength(s: string, sep: string)
    requires sep != "" && FirstTwo(s, sep).Some?
    ensures |s| >= |FirstTwo(s, sep).value.0| + |sep| + |FirstTwo(s, sep).value.1|
  {
    var k := IndexOf(s, sep, 0);
    if k.Some? { SplitWhole(s[k.value + |sep|..], sep); }
  }

  /** What is read back from a message whose first line is found is read back from its own header block. */
  lemma HeaderBlock(first: string, fs: seq<Field>, body: string)
    requires DistinctKeys(fs) && first != "" && Fits(first, BLANK)
    ensures
      var b := Blocks(Stringify(first, fs, body));
      b.Some? && b.value.0 == first &&
      (HeaderOf(Split(b.value.1, "\n")) == Some(HeaderMap(fs)) <==> CleanFields(fs)) &&
      (CleanFields(fs) ==> b.value.2 == body)
  {
    var block := Join(FieldLines(fs), "\n");
    BlocksAfterFirst(first, block + (BLANK + body));
    HeaderCut(block, body);
    var b := Blocks(Stringify(first, fs, body)).value;
    hide Blocks;
    hide IndexOf;
    hide HeaderOf;
    hide CleanField;
    if CleanFields(fs) {
      forall i | 0 <= i < |fs| ensures '\n' !in FieldLine(fs[i]) { NoNewlineInLine(fs[i]); }
      FreeFieldsFit(fs);
    } else if HeaderOf(Split(b.1, "\n")) == Some(HeaderMap(fs)) {
      NoCharInPieces(b.1, '\n');
      FieldsFree(fs, Split(b.1, "\n"));
      FreeFieldsFit(fs);
    }
    HeadersExact(fs);
  }

  /** A request survives being written and read exactly when it is clean. */
  lemma RequestRoundTrip(r: Request)
    requires DistinctKeys(r.fields)
    ensures
      ParseRequest(StringifyRequest(r)) == Some(ParsedRequest(r.verb, r.url, HeaderMap(r.fields), r.body)) <==>
      CleanRequest(r)
  {
    var first := r.verb + (" " + r.url);
    var content := StringifyRequest(r);
    FirstTwoExact(r.verb, " ", r.url);
    FitsChar(r.verb, ' ');
    CharOccurs(r.url, ' ');
    if Fits(first, BLANK) {
      HeaderBlock(first, r.fields, BodyLines(r.body, r.isText));
    } else {
      BlocksBeforeFirst(first, Join(FieldLines(r.fields), "\n") + (BLANK + BodyLines(r.body, r.isText)));
      var b := Blocks(content);
      if b.Some? && FirstTwo(b.value.0, " ").Some? { FirstTwoLength(b.value.0, " "); }
    }
  }

  lemma {:induction false} DecimalRead(n: nat)
    ensures DigitRun(Digits(n)) == |Digits(n)| && Value(Digits(n)) == n
  {
    AllDigitsRun(Digits(n));
    if n >= 10 {
      assert Digits(n)[..|Digits(n)| - 1] == Digits(n / 10);
      DecimalRead(n / 10);
    } else {
      assert Digits(n)[..0] == "";
    }
  }

  lemma {:induction false} AllDigitsRun(s: string)
    requires forall i :: 0 <= i < |s| ==> '0' <= s[i] <= '9'
    ensures DigitRun(s) == |s|
  {
    if s != "" {
      assert forall i :: 0 <= i < |s| - 1 ==> s[1..][i] == s[i + 1];
      AllDigitsRun(s[1..]);
    }
  }

  lemma DecimalFits(n: nat)
    ensures Fits(Digits(n), BLANK)
  {
    var t := Digits(n) + BLANK[..1];
    forall i | 0 <= i <= |t| ensures !At(t, i, BLANK) {
      BlankAt(t, i);
    }
  }

  /** A response survives being written and read exactly when it is clean. */
  lemma ResponseRoundTrip(r: Response)
    requires DistinctKeys(r.fields)
    ensures
      ParseResponse(StringifyResponse(r)) == Some(ParsedResponse(r.statusCode, HeaderMap(r.fields), r.body)) <==>
      CleanResponse(r)
  {
    var first := Digits(r.statusCode);
    DecimalFits(r.statusCode);
    DecimalRead(r.statusCode);
    assert first[..|first|] == first;
    HeaderBlock(first, r.fields, BodyLines(r.body, r.isText));
  }

  // ----- the text itself

  lemma {:induction false} JoinAppend(ps: seq<string>, p: string, sep: string)
    ensures Join([p], sep) == p
    ensures ps != [] ==> Join(ps + [p], sep) == Join(ps, sep) + sep + p
  {
    if |ps| > 1 {
      assert (ps + [p])[1..] == ps[1..] + [p];
      JoinAppend(ps[1..], p, sep);
    } else if |ps| == 1 {
      assert (ps + [p])[1..] == [p];
    }
  }

  /** The line of a field is its key, a colon and its values, with a tab between spaces before each but the first. */
  lemma FieldLayout(key: string, vs: seq<string>, v: string)
    ensures FieldLine(Field(key, [])) == key + ": "
    ensures FieldLine(Field(key, [v])) == key + ": " + v
    ensures vs != [] ==> FieldLine(Field(key, vs + [v])) == FieldLine(Field(key, vs)) + " \t " + v
  {
    JoinAppend(vs, v, TAB);
    hide Join;
    assert Join([], TAB) == "" by { EmptyJoin(); }
  }

  lemma EmptyJoin()
    ensures Join([], TAB) == ""
  {
  }

  /** Method and URL, a blank line, the header lines, a blank line, the body. */
  lemma RequestLayout(r: Request)
    ensures
      StringifyRequest(r) ==
      r.verb + " " + r.url + "\n\n" + Join(FieldLines(r.fields), "\n") + "\n\n" +
      if r.body.Some? && r.isText then r.body.value else ""
  {
    var lines := Join(FieldLines(r.fields), "\n");
    hide Join;
    hide FieldLines;
  }

  /** The status code in decimal in place of method and URL. */
  lemma ResponseLayout(r: Response)
    ensures
      StringifyResponse(r) ==
      Digits(r.statusCode) + "\n\n" + Join(FieldLines(r.fields), "\n") + "\n\n" +
      if r.body.Some? && r.isText then r.body.value else ""
  {
    var lines := Join(FieldLines(r.fields), "\n");
    hide Join;
    hide FieldLines;
    hide Digits;
  }

  lemma FirstTwoBegin(s: string, sep: string)
    requires sep != "" && FirstTwo(s, sep).Some?
    ensures FirstTwo(s, sep).value.0 + sep + FirstTwo(s, sep).value.1 <= s
  {
    var k := IndexOf(s, sep, 0).value;
    var rest := s[k + |sep|..];
    assert Split(s, sep)[0] == s[..k] && Split(s, sep)[1] == Split(rest, sep)[0];
    FirstPieceBegins(rest, sep);
    assert s == s[..k] + sep + rest;
  }

  lemma FirstPieceBegins(s: string, sep: string)
    requires sep != ""
    ensures Split(s, sep)[0] <= s
  {
  }

  /** Whatever text is accepted as a request begins with its method and URL and ends with a blank line and its
      body. */
  lemma ParsedRequestShows(content: string)
    requires ParseRequest(content).Some?
    ensures
      var p := ParseRequest(content).value;
      p.verb + " " + p.url <= content && p.verb != "" && p.url != "" &&
      exists before: string :: content == before + "\n\n" + if p.body.Some? then p.body.value else ""
  {
    var (first, headers, body) := Blocks(content).value;
    var i := IndexOf(content, BLANK, 0).value;
    var j := IndexOf(content, BLANK, i + 2).value;
    FirstTwoBegin(first, " ");
    hide IndexOf;
    hide HeaderOf;
    hide Split;
    assert content == content[..j] + "\n\n" + body;
  }
}
