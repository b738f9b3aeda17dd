/** attack and reply of proxy/attacker.go as an object: the loops over the addons, the readers and the flow that
    is updated on the way. What happens is proved to be the run of the exchange machine. */
module Pipeline {
  import opened Wrappers
  import opened BodyBuffer
  import opened ExchangeLog
  import opened ExchangeRun
  import opened ExchangeRules

  datatype Outcome = Done | Panicked

  /** The reply piece by piece. */
  lemma ReplyParts(r: FlowResponse, body: Option<Stream>, first: Log, second: Log, third: Log)
    requires first == Piece(if body.Some? then Some(body.value.data) else None)
    requires second == Piece(r.bodyReader)
    requires third == Piece(if r.body.Some? && |r.body.value| > 0 then r.body else None)
    ensures
      var rest := ReplyLog(r, body);
      rest != [] && rest[0] == WroteHeader(r.statusCode) &&
      rest[1..] == if ValidCode(r.statusCode) then first + (second + third) else []
  {
    assert first + second + third == first + (second + third);
  }

  class Exchange {
    const c: Config
    var flow: Flow
    var log: Log
    var closeAfterResponse: bool

    constructor (c: Config)
      ensures this.c == c && log == [] && flow == c.Start() && !closeAfterResponse
    {
      this.c, flow, log, closeAfterResponse := c, c.Start(), [], false;
    }

    ghost predicate At(p: Point)
      reads this`log
    {
      PointOf(c, log) == Some(p)
    }

    /** How attack may end, before its deferred calls: in a panic or with the reply written. */
    ghost predicate Ended(o: Outcome)
      reads this`log
    {
      (At(Crashed) || At(Replying([]))) && (o == Panicked <==> At(Crashed) || BadHeaderLast(log))
    }

    /** The connection is to be closed after the response exactly when it was or the server's answer said so. */
    ghost predicate ClosesAsAnswered(was: bool)
      reads this`log, this`closeAfterResponse
    {
      closeAfterResponse <==> was || (AnswerIn(log).Some? && AnswerIn(log).value.close)
    }

    method Emit(e: Event)
      requires PointOf(c, log).Some? && EventAt(c, log, PointOf(c, log).value) == Some(e)
      modifies this`log
      ensures log == old(log) + [e] && At(Next(c, log, old(PointOf(c, log)).value, e))
      ensures AnswerIn(log) == if e.Contacted? then e.answer else old(AnswerIn(log))
    {
      PointAppend(c, log, e);
      LogAppend(c, log, e);
      log := log + [e];
    }

    // ----- reply

    /** helper.Copy or res.Write to the client */
    method WritePiece(data: Option<Bytes>, ghost rest: Log)
      requires At(Replying(Piece(data) + rest)) && !BadHeaderLast(log)
      modifies this`log
      ensures AnswerIn(log) == old(AnswerIn(log))
      ensures At(Replying(rest)) && !BadHeaderLast(log)
    {
      hide PointOf;
      hide AnswerIn;
      if data.Some? {
        assert (Piece(data) + rest)[1..] == rest;
        Emit(Wrote(data.value));
      } else {
        assert Piece(data) + rest == rest;
      }
    }

    method Reply(r: FlowResponse, body: Option<Stream>) returns (o: Outcome)
      requires At(Replying(ReplyLog(r, body)))
      modifies this`log
      ensures AnswerIn(log) == old(AnswerIn(log))
      ensures Ended(o)
    {
      hide PointOf;
      hide AnswerIn;
      ghost var first := Piece(if body.Some? then Some(body.value.data) else None);
      ghost var second := Piece(r.bodyReader);
      ghost var third := Piece(if r.body.Some? && |r.body.value| > 0 then r.body else None);
      hide Piece;
      ReplyParts(r, body, first, second, third);
      Emit(WroteHeader(r.statusCode));
      if !ValidCode(r.statusCode) {
        return Panicked;
      }
      WritePiece(if body.Some? then Some(body.value.data) else None, second + third);
      WritePiece(r.bodyReader, third);
      assert third + [] == third;
      WritePiece(if r.body.Some? && |r.body.value| > 0 then r.body else None, []);
      return Done;
    }

    /** res.WriteHeader(502) and the like */
    method Refuse(code: int, text: Option<Bytes>) returns (o: Outcome)
      requires At(Replying([WroteHeader(code)] + Piece(text))) && ValidCode(code)
      modifies this`log
      ensures AnswerIn(log) == old(AnswerIn(log))
      ensures Ended(o)
    {
      hide PointOf;
      hide AnswerIn;
      assert ([WroteHeader(code)] + Piece(text))[1..] == Piece(text);
      Emit(WroteHeader(code));
      assert Piece(text) + [] == Piece(text);
      WritePiece(text, []);
      return Done;
    }

    // ----- before the server is asked

    /** Calls one addon; false when it panics. */
    method CallHook(h: Hook, i: nat) returns (ok: bool)
      requires PointOf(c, log).Some?
      requires EventAt(c, log, PointOf(c, log).value) == Some(Called(h, i, flow, c.w.hook(log, h, i, flow)))
      modifies this`log, this`flow
      ensures AnswerIn(log) == old(AnswerIn(log))
      ensures
        var e := c.w.hook(old(log), h, i, old(flow));
        At(Next(c, log, old(PointOf(c, log)).value, Called(h, i, old(flow), e))) &&
        e == if ok then Leaves(flow) else Panics
    {
      hide PointOf;
      hide AnswerIn;
      var e := c.w.hook(log, h, i, flow);
      Emit(Called(h, i, flow, e));
      ok := e.Leaves?;
      if ok {
        flow := e.flow;
      }
    }

    method RequestheadersPhase() returns (end: Option<Outcome>)
      requires At(EnterHeaders(c, 0, flow))
      modifies this`log, this`flow
      ensures AnswerIn(log) == old(AnswerIn(log))
      ensures end.None? ==> At(EnterReadRequest(c, flow))
      ensures end.Some? ==> Ended(end.value)
    {
      hide PointOf;
      hide AnswerIn;
      hide EnterReadRequest;
      for i := 0 to c.addons
        invariant At(EnterHeaders(c, i, flow))
        invariant AnswerIn(log) == old(AnswerIn(log))
      {
        var ok := CallHook(Requestheaders, i);
        if !ok {
          return Some(Panicked);
        }
        if flow.response.Some? {
          var o := Reply(flow.response.value, None);
          return Some(o);
        }
      }
      return None;
    }

    method RequestHooks() returns (end: Option<Outcome>)
      requires At(EnterRequests(c, log, 0, flow))
      modifies this`log, this`flow
      ensures AnswerIn(log) == old(AnswerIn(log))
      ensures
        end.None? ==>
          var data := if flow.request.body.Some? then flow.request.body.value else [];
          At(EnterModifyRequest(c, log, 0, flow, Some(Stream(data, false))))
      ensures end.Some? ==> Ended(end.value)
    {
      hide PointOf;
      hide AnswerIn;
      hide EnterModifyRequest;
      for i := 0 to c.addons
        invariant At(EnterRequests(c, log, i, flow))
        invariant AnswerIn(log) == old(AnswerIn(log))
      {
        var ok := CallHook(Request, i);
        if !ok {
          return Some(Panicked);
        }
        if flow.response.Some? {
          var o := Reply(flow.response.value, None);
          return Some(o);
        }
      }
      return None;
    }

    /** Reading the request body, with the Request hooks when it fits into memory. */
    method RequestPhase(body: Source) returns (end: Option<Outcome>, reqBody: Option<Stream>)
      requires At(EnterReadRequest(c, flow))
      requires Stream(body.left, body.fails) == c.sent && body.together == c.together
      modifies this`log, this`flow, body
      ensures AnswerIn(log) == old(AnswerIn(log))
      ensures end.None? ==> At(EnterModifyRequest(c, log, 0, flow, reqBody))
      ensures end.Some? ==> Ended(end.value)
    {
      hide PointOf;
      hide AnswerIn;
      hide EnterModifyRequest;
      end, reqBody := None, Some(Stream(body.left, body.fails));
      var size := |body.left|;
      if flow.stream {
        Emit(BodyRead(true, flow, size, true));
        return;
      }
      var b := ReaderToBuffer(body, c.limit);
      match b {
        case Failed =>
          assert [WroteHeader(502)] + Piece(None) == [WroteHeader(502)];
          var o := Refuse(502, None);
          end := Some(o);
        case Streamed(head) =>
          assert old(body.left)[..c.limit] + old(body.left)[c.limit..] == old(body.left);
          Emit(BodyRead(true, flow, size, true));
          flow := flow.(stream := true);
          reqBody := Some(Stream(head + body.left, body.fails));
        case Whole(data) =>
          Emit(BodyRead(true, flow, size, false));
          flow := flow.(request := flow.request.(body := Some(data)));
          end := RequestHooks();
          if end.None? {
            reqBody := Some(Stream(if flow.request.body.Some? then flow.request.body.value else [], false));
          }
      }
    }

    /** The stream modifiers of all addons, for the request or for the response. */
    method ModifyPhase(request: bool, reader: Option<Stream>) returns (end: Option<Outcome>, r: Option<Stream>)
      requires At(EnterModify(c, log, request, 0, flow, reader))
      modifies this`log, this`flow
      ensures AnswerIn(log) == old(AnswerIn(log))
      ensures end.None? ==> At(EnterModify(c, log, request, c.addons, flow, r))
      ensures end.Some? ==> Ended(end.value)
    {
      hide PointOf;
      hide AnswerIn;
      hide EnterUpstream;
      end, r := None, reader;
      for i := 0 to c.addons
        invariant At(EnterModify(c, log, request, i, flow, r))
        invariant AnswerIn(log) == old(AnswerIn(log))
      {
        var e := c.w.modifyStream(log, request, i, flow, r);
        Emit(Modified(request, i, flow, r, e));
        if e.StreamPanics? {
          end := Some(Panicked);
          return;
        }
        flow, r := e.flow, e.reader;
      }
    }

    // ----- the server

    /** The dial when it is needed, and the exchange with the server. */
    method UpstreamPhase(reqBody: Option<Stream>, rawHost: string, rawScheme: string)
      returns (end: Option<Outcome>, answer: Option<ServerResponse>)
      requires At(EnterUpstream(c, log, flow, reqBody)) && rawHost == c.host && rawScheme == c.scheme
      requires AnswerIn(log) == None
      modifies this`log
      ensures AnswerIn(log) == if end.None? then answer else None
      ensures
        end.None? ==>
          answer.Some? &&
          var a := answer.value;
          At(EnterResponseHeaders(c, 0, flow.(response := Some(FlowResponse(a.statusCode, None, None, a.close))), a))
      ensures end.Some? ==> Ended(end.value)
    {
      hide PointOf;
      hide EnterResponseHeaders;
      end, answer := None, None;
      assert [WroteHeader(502)] + Piece(None) == [WroteHeader(502)];
      if !c.w.requestBuilds(log) {
        var o := Refuse(502, None);
        end := Some(o);
        return;
      }
      var useSeparateClient := flow.separateClient;
      if !useSeparateClient {
        if rawHost != flow.request.host || rawScheme != flow.request.scheme {
          useSeparateClient := true;
        }
      }
      if !useSeparateClient && !c.w.hasServerConn {
        if !c.w.hasDial {
          // no server connection to dereference
          end := Some(Panicked);
          return;
        }
        Emit(Dialled);
        match c.w.dial(log) {
          case Connected =>
          case ProxyAuthRequired =>
            assert [WroteHeader(407)] + Piece(Some([10])) == [WroteHeader(407), Wrote([10])];
            var o := Refuse(407, Some([10]));
            end := Some(o);
            return;
          case DialFailed =>
            var o := Refuse(502, None);
            end := Some(o);
            return;
        }
      }
      answer := c.w.roundTrip(log, reqBody);
      Emit(Contacted(reqBody, answer));
      if answer.None? {
        var o := Refuse(502, None);
        end := Some(o);
      }
    }

    // ----- after the server answered

    method ResponseheadersPhase(ghost a: ServerResponse) returns (end: Option<Outcome>)
      requires At(EnterResponseHeaders(c, 0, flow, a)) && flow.response.Some?
      modifies this`log, this`flow
      ensures AnswerIn(log) == old(AnswerIn(log))
      ensures end.None? ==> At(EnterReadResponse(c, flow, a)) && flow.response.Some?
      ensures end.Some? ==> Ended(end.value)
    {
      hide PointOf;
      hide AnswerIn;
      hide EnterReadResponse;
      for i := 0 to c.addons
        invariant At(EnterResponseHeaders(c, i, flow, a)) && flow.response.Some?
        invariant AnswerIn(log) == old(AnswerIn(log))
      {
        var ok := CallHook(Responseheaders, i);
        if !ok || flow.response.None? {
          // an addon panicked, or removed the response whose body is looked at next
          return Some(Panicked);
        }
        if flow.response.value.body.Some? {
          var o := Reply(flow.response.value, None);
          return Some(o);
        }
      }
      return None;
    }

    method ResponseHooks() returns (end: Option<Outcome>)
      requires At(EnterResponses(c, 0, flow))
      modifies this`log, this`flow
      ensures AnswerIn(log) == old(AnswerIn(log))
      ensures end.None? ==> At(EnterModifyResponse(c, 0, flow, None))
      ensures end.Some? ==> Ended(end.value)
    {
      hide PointOf;
      hide AnswerIn;
      hide EnterModifyResponse;
      for i := 0 to c.addons
        invariant At(EnterResponses(c, i, flow))
        invariant AnswerIn(log) == old(AnswerIn(log))
      {
        var ok := CallHook(Response, i);
        if !ok {
          return Some(Panicked);
        }
      }
      return None;
    }

    /** Reading the response body, with the Response hooks when it fits into memory. */
    method ResponsePhase(a: ServerResponse) returns (end: Option<Outcome>, resBody: Option<Stream>)
      requires At(EnterReadResponse(c, flow, a)) && flow.response.Some?
      modifies this`log, this`flow
      ensures AnswerIn(log) == old(AnswerIn(log))
      ensures end.None? ==> At(EnterModifyResponse(c, 0, flow, resBody))
      ensures end.Some? ==> Ended(end.value)
    {
      hide PointOf;
      hide AnswerIn;
      hide EnterModifyResponse;
      var body := new Source(a.body.data, a.body.fails, a.together);
      end, resBody := None, Some(Stream(body.left, body.fails));
      var size := |body.left|;
      if flow.stream {
        Emit(BodyRead(false, flow, size, true));
        return;
      }
      var b := ReaderToBuffer(body, c.limit);
      match b {
        case Failed =>
          assert [WroteHeader(502)] + Piece(None) == [WroteHeader(502)];
          var o := Refuse(502, None);
          end := Some(o);
        case Streamed(head) =>
          assert a.body.data[..c.limit] + a.body.data[c.limit..] == a.body.data;
          Emit(BodyRead(false, flow, size, true));
          flow := flow.(stream := true);
          resBody := Some(Stream(head + body.left, body.fails));
        case Whole(data) =>
          Emit(BodyRead(false, flow, size, false));
          resBody := None;
          flow := flow.(response := Some(flow.response.value.(body := Some(data))));
          end := ResponseHooks();
      }
    }

    // ----- the whole

    /** The body of attack, up to its deferred calls. */
    method Serve(body: Source) returns (o: Outcome)
      requires At(EnterHeaders(c, 0, flow)) && flow == c.Start() && AnswerIn(log) == None
      requires Stream(body.left, body.fails) == c.sent && body.together == c.together
      modifies this, body
      ensures Ended(o) && ClosesAsAnswered(old(closeAfterResponse))
    {
      hide PointOf;
      hide EnterHeaders;
      hide EnterUpstream;
      hide EnterResponseHeaders;
      var rawHost, rawScheme := flow.request.host, flow.request.scheme;
      var end := RequestheadersPhase();
      if end.Some? {
        return end.value;
      }
      var end2, reqBody := RequestPhase(body);
      if end2.Some? {
        return end2.value;
      }
      var end3, reader := ModifyPhase(true, reqBody);
      if end3.Some? {
        return end3.value;
      }
      var end4, answer := UpstreamPhase(reader, rawHost, rawScheme);
      if end4.Some? {
        return end4.value;
      }
      o := TakeAnswer(answer.value);
    }

    method TakeAnswer(a: ServerResponse) returns (o: Outcome)
      requires
        At(EnterResponseHeaders(c, 0, flow.(response := Some(FlowResponse(a.statusCode, None, None, a.close))), a))
      requires AnswerIn(log) == Some(a)
      modifies this
      ensures Ended(o) && ClosesAsAnswered(old(closeAfterResponse))
    {
      hide PointOf;
      hide AnswerIn;
      hide EnterResponseHeaders;
      hide EnterReadResponse;
      closeAfterResponse := closeAfterResponse || a.close;
      flow := flow.(response := Some(FlowResponse(a.statusCode, None, None, a.close)));
      var end := ResponseheadersPhase(a);
      if end.Some? {
        return end.value;
      }
      var end2, resBody := ResponsePhase(a);
      if end2.Some? {
        return end2.value;
      }
      var end3, reader := ModifyPhase(false, resBody);
      if end3.Some? {
        return end3.value;
      }
      if flow.response.None? {
        // reply dereferences it
        return Panicked;
      }
      o := Reply(flow.response.value, reader);
    }

    /** attack: whatever addons and network do, the log is the whole run of the exchange machine; a panic is
        recovered, and the flow is finished in every case. */
    method Attack() returns (o: Outcome)
      requires log == [] && flow == c.Start()
      modifies this
      ensures Complete(c, log) && ClosesAsAnswered(old(closeAfterResponse))
      ensures o == Panicked <==> PanickedIn(c, log)
    {
      var body := new Source(c.sent.data, c.sent.fails, c.together);
      o := Serve(body);
      assert log + [Finished] != [] && (log + [Finished])[..|log|] == log;
      Emit(Finished);
    }
  }
}
