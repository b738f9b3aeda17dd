/** How an exchange ends (proxy/attacker.go, attack and reply): every cause of a panic, when a header is written,
    and what the client is sent. */
module ExchangeEnds {
  import opened Wrappers
  import opened BodyBuffer
  import opened ExchangeLog
  import opened ExchangeRun
  import opened ExchangeOrder

  // ----- panics

  /** The request can not be sent: it goes through the shared connection, of which there is none, and nothing
      can be dialled. */
  predicate NoServer(c: Config, log: Log, f: Flow) {
    c.w.requestBuilds(log) && Shared(c, f) && !c.w.hasServerConn && !c.w.hasDial
  }

  /** What makes attack panic before it replies, read off the last event: an addon panics; the response is
      gone after a Responseheaders hook or when all is ready to be written; or there is no server to ask when
      all is ready to be sent. */
  predicate PanicCause(c: Config, log: Log) {
    log != [] &&
    match log[|log| - 1]
    case Called(h, _, _, effect) => effect.Panics? || (h.Responseheaders? && effect.flow.response.None?)
    case Modified(request, i, _, _, gave) =>
      gave.StreamPanics? ||
      (i + 1 == c.addons && if request then NoServer(c, log, gave.flow) else gave.flow.response.None?)
    case BodyRead(request, before, _, _) => request && c.addons == 0 && NoServer(c, log, before)
    case _ => false
  }

  lemma NextCrashes(c: Config, log: Log, p: Point)
    requires Sound(c, p) && EventAt(c, log, p).Some? && !p.Over?
    ensures
      var e := EventAt(c, log, p).value;
      Next(c, log + [e], p, e) == Crashed <==> PanicCause(c, log + [e])
  {
    hide Buffer;
    hide ReplyLog;
    var e := EventAt(c, log, p).value;
    assert (log + [e])[|log + [e]| - 1] == e;
  }

  /** A run has come to a panic exactly when there is a cause for it. */
  lemma CrashedExactly(c: Config, log: Log)
    requires PointOf(c, log).Some?
    ensures PointOf(c, log) == Some(Crashed) <==> PanicCause(c, log)
  {
    hide Buffer;
    if log != [] {
      var before, e := log[..|log| - 1], log[|log| - 1];
      RunIsSound(c, before);
      OverIsLast(c, before);
      NextCrashes(c, before, PointOf(c, before).value);
      assert log == before + [e];
      hide Sound;
      hide Next;
      hide EventAt;
      hide PanicCause;
    }
  }

  // ----- the header

  /** A reply without its header has one before it, a crash has none. */
  predicate HeaderInv(log: Log, p: Point) {
    match p
    case Replying(rest) => CountPhase(log, HEADER) == if rest != [] && rest[0].WroteHeader? then 0 else 1
    case Over => true
    case _ => CountPhase(log, HEADER) == 0
  }

  lemma NextHeader(c: Config, log: Log, p: Point)
    requires Sound(c, p) && EventAt(c, log, p).Some? && HeaderInv(log, p)
    ensures
      var e := EventAt(c, log, p).value;
      HeaderInv(log + [e], Next(c, log + [e], p, e))
  {
    hide Buffer;
    hide ReplyLog;
    hide CountPhase;
    var e := EventAt(c, log, p).value;
    CountAppend(log, e, HEADER);
    if e.Called? && e.effect.Leaves? && e.effect.flow.response.Some? {
      ReplySound(c, e.effect.flow.response.value, None);
      ReplyNotEmpty(e.effect.flow.response.value, None);
    }
    if e.Modified? && e.gave.Gives? && e.gave.flow.response.Some? {
      ReplySound(c, e.gave.flow.response.value, e.gave.reader);
      ReplyNotEmpty(e.gave.flow.response.value, e.gave.reader);
    }
    if p.ReadResponse? {
      ReplySound(c, p.flow.response.value, Some(p.answer.body));
      ReplyNotEmpty(p.flow.response.value, Some(p.answer.body));
      var r := WithBody(p.flow, MemoryBody(Kept(c, p.answer.body, p.answer.together))).response.value;
      ReplySound(c, r, None);
      ReplyNotEmpty(r, None);
    }
  }

  lemma ReplyNotEmpty(r: FlowResponse, body: Option<Stream>)
    ensures ReplyLog(r, body) != []
  {
  }

  lemma {:induction false} RunHeader(c: Config, log: Log)
    requires PointOf(c, log).Some?
    ensures HeaderInv(log, PointOf(c, log).value)
  {
    hide HeaderInv;
    hide Next;
    hide EventAt;
    hide Sound;
    if log == [] {
      StartHeader(c);
    } else {
      var before := log[..|log| - 1];
      RunHeader(c, before);
      RunIsSound(c, before);
      NextHeader(c, before, PointOf(c, before).value);
      assert log == before + [log[|log| - 1]];
    }
  }

  lemma StartHeader(c: Config)
    ensures HeaderInv([], EnterHeaders(c, 0, c.Start()))
  {
    hide Buffer;
  }

  /** The last step of a complete exchange: it was over but for the deferred Finish. */
  lemma CompleteEnds(c: Config, log: Log)
    requires Complete(c, log)
    ensures log != [] && log[|log| - 1] == Finished
    ensures PointOf(c, log[..|log| - 1]) == Some(Crashed) || PointOf(c, log[..|log| - 1]) == Some(Replying([]))
    ensures CountPhase(log, HEADER) == CountPhase(log[..|log| - 1], HEADER)
  {
    StartNotOver(c);
    hide Buffer;
    assert log != [];
    var before, e := log[..|log| - 1], log[|log| - 1];
    var p := PointOf(c, before).value;
    OverIsLast(c, before);
    OnlyTheseEnd(c, log, p, e);
    assert log == before + [e];
    CountAppend(before, e, HEADER);
    hide Next;
  }

  lemma StartNotOver(c: Config)
    ensures EnterHeaders(c, 0, c.Start()) != Over
  {
    hide Buffer;
  }

  lemma OnlyTheseEnd(c: Config, log: Log, p: Point, e: Event)
    requires Next(c, log, p, e) == Over && !p.Over?
    ensures p == Crashed || p == Replying([])
  {
    hide Buffer;
    hide ReplyLog;
  }

  /** A complete exchange finishes the flow exactly once, as its last event; it writes a header, and just one,
      exactly when there is no cause for a panic before; and attack panics exactly then or when the code of
      that header is none. */
  lemma EndsExactly(c: Config, log: Log)
    requires Complete(c, log)
    ensures log != [] && log[|log| - 1] == Finished && CountPhase(log, FINISH) == 1
    ensures
      var done := log[..|log| - 1];
      CountPhase(log, HEADER) == (if PanicCause(c, done) then 0 else 1) &&
      (PanickedIn(c, log) <==> PanicCause(c, done) || BadHeaderLast(done))
  {
    hide CountPhase;
    hide PanicCause;
    hide PointOf;
    hide BadHeaderLast;
    OverPoint(c, log);
    CompleteEnds(c, log);
    var done := log[..|log| - 1];
    CrashedExactly(c, done);
    RunHeader(c, done);
    OneFinish(c, log);
  }

  lemma OverPoint(c: Config, log: Log)
    requires Complete(c, log)
    ensures PointOf(c, log) == Some(Over)
  {
  }

  lemma OneFinish(c: Config, log: Log)
    requires Complete(c, log) && log != [] && log[|log| - 1] == Finished
    ensures CountPhase(log, FINISH) == 1
  {
    RunIsOrdered(c, log);
    hide CountPhase;
    hide PointOf;
    var done := log[..|log| - 1];
    assert log == done + [Finished];
    CountAppend(done, Finished, FINISH);
    assert Once(FINISH);
  }

  // ----- what is written

  lemma ReplyStep(c: Config, log: Log, e: Event, rest: Log)
    requires PointOf(c, log) == Some(Replying(rest)) && PointOf(c, log + [e]).Some?
    ensures e == if rest == [] then Finished else rest[0]
    ensures PointOf(c, log + [e]) == Some(if rest == [] then Over else Replying(rest[1..]))
  {
    assert (log + [e])[..|log|] == log;
  }

  /** One more event of a list `all` of which `n` have come. */
  lemma OneMore(all: Log, n: nat, came: Log, e: Event)
    requires n < |all| && came == all[..n] && e == all[n]
    ensures came + [e] == all[..n + 1] && all[n..][0] == all[n] && all[n..][1..] == all[n + 1..]
  {
  }

  /** Since position `k` the events of a reply have come, in order, and perhaps the end. */
  predicate Replied(c: Config, log: Log, k: nat, rest: Log) {
    k <= |log| <= k + |rest| + 1 && log[k..] == (rest + [Finished])[..|log| - k] &&
    PointOf(c, log) == Some(if |log| - k <= |rest| then Replying(rest[|log| - k..]) else Over)
  }

  lemma RepliedOn(c: Config, log: Log, e: Event, k: nat, rest: Log)
    requires Replied(c, log, k, rest) && PointOf(c, log + [e]).Some?
    ensures Replied(c, log + [e], k, rest)
  {
    var n := |log| - k;
    if n > |rest| {
      OverStays(c, log, e);
    } else {
      ReplyStep(c, log, e, rest[n..]);
      hide PointOf;
      assert (log + [e])[k..] == log[k..] + [e];
      assert e == (rest + [Finished])[n];
      OneMore(rest + [Finished], n, log[k..], e);
      if n < |rest| {
        assert rest[n..][1..] == rest[n + 1..];
      }
    }
  }

  lemma OverStays(c: Config, log: Log, e: Event)
    requires PointOf(c, log) == Some(Over)
    ensures PointOf(c, log + [e]).None?
  {
    assert (log + [e])[..|log|] == log;
  }

  /** From where a reply begins, it is written to its end and the flow is finished. */
  lemma {:induction false} ReplyRuns(c: Config, log: Log, k: nat, rest: Log)
    requires PointOf(c, log).Some? && k <= |log| && PointOf(c, log[..k]) == Some(Replying(rest))
    ensures Replied(c, log, k, rest)
    decreases |log|
  {
    if k == |log| {
      assert log[..k] == log && rest[0..] == rest && log[k..] == [];
    } else {
      var before := log[..|log| - 1];
      assert before[..k] == log[..k] && log == before + [log[|log| - 1]];
      PrefixRuns(c, log, |before|);
      hide Replied;
      ReplyRuns(c, before, k, rest);
      RepliedOn(c, before, log[|log| - 1], k, rest);
    }
  }

  lemma WrittenHeader(code: int)
    ensures Written([WroteHeader(code)]) == []
  {
    assert [WroteHeader(code)][..0] == [];
  }

  lemma ReplyWrites(r: FlowResponse, body: Option<Stream>)
    requires ValidCode(r.statusCode)
    ensures Written(ReplyLog(r, body)) == ReplyBytes(r, body)
  {
    hide Written;
    hide Piece;
    var first := if body.Some? then Some(body.value.data) else None;
    var third := if r.body.Some? && |r.body.value| > 0 then r.body else None;
    var a := [WroteHeader(r.statusCode)];
    WrittenHeader(r.statusCode);
    WrittenPiece(a, first);
    WrittenPiece(a + Piece(first), r.bodyReader);
    WrittenPiece(a + Piece(first) + Piece(r.bodyReader), third);
    PiecesJoin(a, Piece(first), Piece(r.bodyReader), Piece(third));
    var x := if first.Some? then first.value else [];
    var y := if r.bodyReader.Some? then r.bodyReader.value else [];
    var z := if r.body.Some? then r.body.value else [];
    assert z == if third.Some? then third.value else [];
    BytesJoin(x, y, z);
  }

  lemma PiecesJoin(a: Log, x: Log, y: Log, z: Log)
    ensures a + (x + y + z) == a + x + y + z
  {
  }

  lemma BytesJoin(x: Bytes, y: Bytes, z: Bytes)
    ensures [] + x + y + z == x + y + z
  {
  }

  lemma WrittenAppend(log: Log, e: Event)
    ensures Written(log + [e]) == Written(log) + if e.Wrote? then e.data else []
  {
    assert (log + [e])[..|log|] == log;
  }

  lemma WrittenPiece(log: Log, data: Option<Bytes>)
    ensures Written(log + Piece(data)) == Written(log) + if data.Some? then data.value else []
  {
    if data.Some? {
      WrittenAppend(log, Wrote(data.value));
    } else {
      assert log + [] == log && Written(log) + [] == Written(log);
    }
  }

  lemma {:induction false} WrittenConcat(a: Log, b: Log)
    ensures Written(a + b) == Written(a) + Written(b)
    decreases |b|
  {
    if b == [] {
      assert a + b == a && Written(a) + [] == Written(a);
    } else {
      hide Written;
      var init, e := b[..|b| - 1], b[|b| - 1];
      WrittenConcat(a, init);
      assert a + b == (a + init) + [e] && b == init + [e];
      WrittenAppend(a + init, e);
      WrittenAppend(init, e);
      assert Written(a) + Written(init) + [] == Written(a) + (Written(init) + []);
    }
  }

  lemma {:induction false} NothingWritten(log: Log)
    requires Ordered(log) && (log != [] ==> Phase(log[|log| - 1]) < HEADER)
    ensures Written(log) == []
  {
    if log != [] {
      var before := log[..|log| - 1];
      if before != [] {
        assert Phase(log[|log| - 2]) <= Phase(log[|log| - 1]);
      }
      NothingWritten(before);
    }
  }

  /** The reply that the event before it stands for: an addon's answer, or the last flow and reader that the
      response modifiers left. */
  function LastLeft(e: Event): (FlowResponse, Option<Stream>)
    requires EndsExchange(e) && LeftBy(e).Some? && LeftBy(e).value.response.Some?
  {
    (LeftBy(e).value.response.value, if e.Modified? then e.gave.reader else None)
  }

  lemma NextReplies(c: Config, log: Log, p: Point)
    requires Sound(c, p) && EventAt(c, log, p).Some?
    ensures
      var e := EventAt(c, log, p).value;
      var q := Next(c, log + [e], p, e);
      q.Replying? && q.rest != [] && q.rest[0].WroteHeader? && EndsExchange(e) ==>
        LeftBy(e).Some? && LeftBy(e).value.response.Some? && q.rest == ReplyLog(LastLeft(e).0, LastLeft(e).1)
  {
    hide Buffer;
    hide ReplyLog;
  }

  /** In a complete exchange whose header follows an event that stands for a reply, code and bytes are those of
      that reply, and nothing else is written. */
  lemma ReplyIsLastLeft(c: Config, log: Log, k: nat)
    requires Complete(c, log) && 0 < k < |log| && log[k].WroteHeader? && EndsExchange(log[k - 1])
    ensures LeftBy(log[k - 1]).Some? && LeftBy(log[k - 1]).value.response.Some?
    ensures
      var (r, reader) := LastLeft(log[k - 1]);
      log == log[..k] + ReplyLog(r, reader) + [Finished] && log[k] == WroteHeader(r.statusCode) &&
      Written(log) == if ValidCode(r.statusCode) then ReplyBytes(r, reader) else []
  {
    var head := log[..k];
    var before, e := head[..k - 1], head[k - 1];
    assert before == log[..k - 1] && e == log[k - 1] && head == before + [e];
    PrefixRuns(c, log, k);
    PrefixRuns(c, log, k - 1);
    RunIsSound(c, before);
    RunIsSound(c, head);
    var p, q := PointOf(c, before).value, PointOf(c, head).value;
    HeaderOnlyReplying(c, head, q);
    NextReplies(c, before, p);
    var (r, reader) := LastLeft(e);
    hide *;
    ReplyToEnd(c, log, k, ReplyLog(r, reader));
    ReplySound(c, r, reader);
    CodeWrites(r, reader);
    RunIsOrdered(c, head);
    HeaderComesFirst(head, q, ReplyLog(r, reader));
    WrittenAll(head, ReplyLog(r, reader));
  }

  lemma ReplyToEnd(c: Config, log: Log, k: nat, rest: Log)
    requires Complete(c, log) && k < |log| && PointOf(c, log[..k]) == Some(Replying(rest)) && rest != []
    ensures log == log[..k] + rest + [Finished] && log[k] == rest[0]
  {
    hide PointOf;
    ReplyRuns(c, log, k, rest);
    assert |log| - k == |rest| + 1;
    TwoParts(log, k, rest);
  }

  lemma TwoParts(log: Log, k: nat, rest: Log)
    requires k < |log| && |log| - k == |rest| + 1 && rest != [] && log[k..] == (rest + [Finished])[..|log| - k]
    ensures log == log[..k] + rest + [Finished] && log[k] == rest[0]
  {
    assert log[k..] == rest + [Finished];
    assert log[k] == log[k..][0];
    assert log == log[..k] + log[k..];
  }

  lemma HeaderComesFirst(head: Log, q: Point, rest: Log)
    requires OrderInv(head, q) && q == Replying(rest) && rest != [] && rest[0].WroteHeader?
    ensures Ordered(head) && (head != [] ==> Phase(head[|head| - 1]) < HEADER)
  {
    assert Once(HEADER);
  }

  lemma WrittenAll(head: Log, rest: Log)
    requires Ordered(head) && (head != [] ==> Phase(head[|head| - 1]) < HEADER)
    ensures Written(head + rest + [Finished]) == Written(rest)
  {
    NothingWritten(head);
    WrittenConcat(head, rest);
    WrittenAppend(head + rest, Finished);
    hide Written;
    assert [] + Written(rest) + [] == Written(rest);
  }

  lemma CodeWrites(r: FlowResponse, body: Option<Stream>)
    ensures Written(ReplyLog(r, body)) == if ValidCode(r.statusCode) then ReplyBytes(r, body) else []
  {
    if ValidCode(r.statusCode) {
      ReplyWrites(r, body);
    } else {
      assert ReplyLog(r, body) == [WroteHeader(r.statusCode)];
      assert [WroteHeader(r.statusCode)][..0] == [];
    }
  }

  lemma HeaderOnlyReplying(c: Config, log: Log, q: Point)
    requires EventAt(c, log, q).Some? && EventAt(c, log, q).value.WroteHeader?
    ensures q.Replying? && q.rest != [] && q.rest[0] == EventAt(c, log, q).value
  {
  }
}
