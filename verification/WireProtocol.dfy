/** Encoding and decoding the frames in Go (web/message.go) and TypeScript
    (web/client/src/utils/message.ts). JSON is a parameter: a pair of functions. */
module WireProtocol {
  import opened Wrappers
  import opened WireFrames

  // message types
  const CONN: byte := 0
  const REQUEST: byte := 1
  const REQUEST_BODY: byte := 2
  const RESPONSE: byte := 3
  const RESPONSE_BODY: byte := 4
  const CONN_CLOSE: byte := 5
  const CHANGE_REQUEST: byte := 11
  const CHANGE_RESPONSE: byte := 12
  const DROP_REQUEST: byte := 13
  const DROP_RESPONSE: byte := 14
  const CHANGE_RULES: byte := 21

  const FLOW_TYPES := {CONN, CONN_CLOSE, REQUEST, REQUEST_BODY, RESPONSE, RESPONSE_BODY}
  const ALL_TYPES := FLOW_TYPES + {CHANGE_REQUEST, CHANGE_RESPONSE, DROP_REQUEST, DROP_RESPONSE, CHANGE_RULES}

  /** How values of type `T` are written as JSON bytes and read back. */
  datatype Codec<!T> = Codec(marshal: T -> Bytes, unmarshal: Bytes -> Option<T>)

  // ----- edits in Go

  /** `Q` and `S` are a request and a response without their bodies. */
  datatype Edit<Q, S> =
    | ChangeRequest(id: Uuid, request: Q, body: Bytes)
    | ChangeResponse(id: Uuid, response: S, body: Bytes)
    | Drop(kind: byte, id: Uuid)

  datatype Message<Q, S, R> = EditMessage(edit: Edit<Q, S>) | MetaMessage(rules: Option<R>)

  /** messageEdit.bytes: a buffer that is appended to */
  method EditBytes<Q, S>(qc: Codec<Q>, sc: Codec<S>, m: Edit<Q, S>) returns (buf: Bytes)
    requires m.Drop? ==> m.kind == DROP_REQUEST || m.kind == DROP_RESPONSE
    ensures buf == EditFrame(qc, sc, m)
  {
    var kind := EditKind(m);
    buf := [];
    buf := buf + [VERSION];
    buf := buf + [kind];
    buf := buf + UuidText(m.id);
    assert buf == Prefix(kind, UuidText(m.id));
    if kind == CHANGE_REQUEST {
      buf := WriteHeadBody(buf, qc.marshal(m.request), m.body);
    } else if kind == CHANGE_RESPONSE {
      buf := WriteHeadBody(buf, sc.marshal(m.response), m.body);
    }
  }

  method WriteHeadBody(buf: Bytes, headerContent: Bytes, body: Bytes) returns (r: Bytes)
    ensures r == buf + HeadBody(headerContent, body)
  {
    hide PutUint32;
    r := buf + PutUint32(|headerContent|);
    r := r + headerContent;
    r := r + PutUint32(|body|);
    r := r + body;
  }

  function EditKind<Q, S>(m: Edit<Q, S>): byte {
    match m
    case ChangeRequest(_, _, _) => CHANGE_REQUEST
    case ChangeResponse(_, _, _) => CHANGE_RESPONSE
    case Drop(kind, _) => kind
  }

  function EditFrame<Q, S>(qc: Codec<Q>, sc: Codec<S>, m: Edit<Q, S>): Bytes {
    match m
    case ChangeRequest(id, q, body) => ChangeFrame(CHANGE_REQUEST, UuidText(id), qc.marshal(q), body)
    case ChangeResponse(id, s, body) => ChangeFrame(CHANGE_RESPONSE, UuidText(id), sc.marshal(s), body)
    case Drop(kind, id) => Prefix(kind, UuidText(id))
  }

  /** The guarded cut of a change message into header and body; None where the lengths do not add up. */
  function SplitChange(data: Bytes): Option<(Bytes, Bytes)> {
    if |data| < 46 then None else
      var hl := Uint32(data[38..42]);
      if 42 + hl + 4 > |data| then None else
        var bl := Uint32(data[42 + hl..42 + hl + 4]);
        if 42 + hl + 4 + bl != |data| then None else Some((data[42..42 + hl], data[42 + hl + 4..]))
  }

  function ParseMessageEdit<Q, S>(qc: Codec<Q>, sc: Codec<S>, data: Bytes): Option<Edit<Q, S>> {
    if |data| < 38 then None else
      var id, kind := ParseUuid(data[2..38]), data[1];
      if id.None? then None
      else if kind == DROP_REQUEST || kind == DROP_RESPONSE then Some(Drop(kind, id.value))
      else
        var parts := SplitChange(data);
        if parts.None? then None
        else if kind == CHANGE_REQUEST then
          var q := qc.unmarshal(parts.value.0);
          if q.None? then None else Some(ChangeRequest(id.value, q.value, parts.value.1))
        else if kind == CHANGE_RESPONSE then
          var s := sc.unmarshal(parts.value.0);
          if s.None? then None else Some(ChangeResponse(id.value, s.value, parts.value.1))
        else None
  }

  function ParseMessage<Q, S, R>(qc: Codec<Q>, sc: Codec<S>, rc: Codec<R>, data: Bytes): Option<Message<Q, S, R>> {
    if |data| < 2 || data[0] != VERSION || data[1] !in ALL_TYPES then None
    else if data[1] in {CHANGE_REQUEST, CHANGE_RESPONSE, DROP_REQUEST, DROP_RESPONSE} then
      var e := ParseMessageEdit(qc, sc, data);
      if e.None? then None else Some(EditMessage(e.value))
    else if data[1] == CHANGE_RULES then Some(MetaMessage(rc.unmarshal(data[2..])))
    else None
  }

  // ----- edits in TypeScript

  /** TypedArray.set */
  method SetBytes(view: array<byte>, src: Bytes, offset: nat)
    requires offset + |src| <= view.Length
    modifies view
    ensures view[offset..offset + |src|] == src
    ensures forall i :: 0 <= i < view.Length && !(offset <= i < offset + |src|) ==> view[i] == old(view[i])
  {
    for k := 0 to |src|
      invariant forall i :: 0 <= i < k ==> view[offset + i] == src[i]
      invariant forall i :: 0 <= i < view.Length && !(offset <= i < offset + k) ==> view[i] == old(view[i])
    {
      view[offset + k] := src[k];
    }
  }

  lemma SameSlice(a: Bytes, b: Bytes, i: nat, j: nat)
    requires i <= j <= |a| == |b| && forall k :: i <= k < j ==> a[k] == b[k]
    ensures a[i..j] == b[i..j]
  {
  }

  /** buildMessageEdit for a change: a preallocated array that is written at offsets */
  method BuildChange(kind: byte, id: Bytes, headerBytes: Bytes, body: Bytes) returns (view: array<byte>)
    requires |id| == 36
    ensures fresh(view) && view[..] == ChangeFrame(kind, id, headerBytes, body)
  {
    hide ChangeFrame;
    hide PutUint32;
    var h, b := |headerBytes|, |body|;
    view := new byte[2 + 36 + 4 + h + 4 + b](_ => 0);
    view[0], view[1] := VERSION, kind;
    SetBytes(view, id, 2);
    SetBytes(view, headerBytes, 42);
    ghost var v1 := view[..];
    assert v1[2..38] == id && v1[42..42 + h] == headerBytes;
    if b != 0 {
      SetBytes(view, body, 46 + h);
    }
    ghost var v2 := view[..];
    SameSlice(v1, v2, 0, 46 + h);
    assert v2[46 + h..] == body;
    SetBytes(view, PutUint32(h), 38);
    ghost var v3 := view[..];
    SetBytes(view, PutUint32(b), 42 + h);
    ghost var v4 := view[..];
    ChangeWritten(v1, v2, v3, v4, kind, id, headerBytes, body);
  }

  /** The four stages of the array in BuildChange. */
  lemma ChangeWritten(v1: Bytes, v2: Bytes, v3: Bytes, v4: Bytes, kind: byte, id: Bytes, head: Bytes, body: Bytes)
    requires |id| == 36 && |v1| == |v2| == |v3| == |v4| == 46 + |head| + |body|
    requires v1[0] == VERSION && v1[1] == kind && v1[2..38] == id && v1[42..42 + |head|] == head
    requires forall i :: 0 <= i < 46 + |head| ==> v2[i] == v1[i]
    requires v2[46 + |head|..] == body
    requires v3[38..42] == PutUint32(|head|)
    requires forall i :: 0 <= i < |v2| && !(38 <= i < 42) ==> v3[i] == v2[i]
    requires v4[42 + |head|..46 + |head|] == PutUint32(|body|)
    requires forall i :: 0 <= i < |v2| && !(42 + |head| <= i < 46 + |head|) ==> v4[i] == v3[i]
    ensures v4 == ChangeFrame(kind, id, head, body)
  {
    hide PutUint32;
    hide ChangeFrame;
    var h := |head|;
    SameSlice(v1, v2, 2, 38);
    SameSlice(v2, v3, 2, 38);
    SameSlice(v3, v4, 2, 38);
    SameSlice(v1, v2, 42, 42 + h);
    SameSlice(v2, v3, 42, 42 + h);
    SameSlice(v3, v4, 42, 42 + h);
    SameSlice(v3, v4, 38, 42);
    SameSlice(v2, v3, 46 + h, |v2|);
    SameSlice(v3, v4, 46 + h, |v2|);
    assert v4[46 + h..] == body;
    ChangeFrameFromSlices(v4, kind, h);
  }

  /** buildMessageEdit for a drop */
  method BuildDrop(kind: byte, id: Bytes) returns (view: array<byte>)
    requires |id| == 36
    ensures fresh(view) && view[..] == Prefix(kind, id)
  {
    view := new byte[38](_ => 0);
    view[0] := VERSION;
    view[1] := kind;
    SetBytes(view, id, 2);
    assert view[..] == view[0..2] + view[2..38];
  }

  // ----- break-point rules

  function RulesFrame(content: Bytes): Bytes { [VERSION, CHANGE_RULES] + content }

  /** messageMeta.bytes in Go */
  method RulesBytes(content: Bytes) returns (buf: Bytes)
    ensures buf == RulesFrame(content)
  {
    buf := [VERSION];
    buf := buf + [CHANGE_RULES];
    buf := buf + content;
  }

  /** buildMessageMeta in TypeScript */
  method BuildRules(rulesBytes: Bytes) returns (view: array<byte>)
    ensures fresh(view) && view[..] == RulesFrame(rulesBytes)
  {
    view := new byte[2 + |rulesBytes|](_ => 0);
    view[0] := VERSION;
    view[1] := CHANGE_RULES;
    SetBytes(view, rulesBytes, 2);
    assert view[..] == view[0..2] + view[2..2 + |rulesBytes|];
  }

  // ----- header fields in TypeScript

  type Header = map<string, seq<string>>

  function GetHeader(h: Header, key: string, lower: string): Option<seq<string>> {
    if key in h then Some(h[key]) else if lower in h then Some(h[lower]) else None
  }

  function DelHeader(h: Header, key: string, lower: string): Header { h - {key, lower} }

  function SetHeader(h: Header, key: string, lower: string, value: seq<string>): Header {
    if key in h then h[key := value] else if lower in h then h[lower := value] else h[key := value]
  }

  /** What buildMessageEdit does to the headers; `length` is the body length as text. */
  function EditHeader(h: Header, length: string): Header {
    var h := if GetHeader(h, "Content-Encoding", "content-encoding").Some?
             then DelHeader(h, "Content-Encoding", "content-encoding") else h;
    var h := if GetHeader(h, "Transfer-Encoding", "transfer-encoding").Some?
             then DelHeader(h, "Transfer-Encoding", "transfer-encoding") else h;
    SetHeader(h, "Content-Length", "content-length", [length])
  }

  /** The edited headers announce the body as it is sent, and nothing else changes. */
  lemma EditHeaderEffect(h: Header, length: string)
    ensures
      var e := EditHeader(h, length);
      GetHeader(e, "Content-Length", "content-length") == Some([length]) &&
      GetHeader(e, "Content-Encoding", "content-encoding") == None &&
      GetHeader(e, "Transfer-Encoding", "transfer-encoding") == None &&
      forall k :: k !in {"Content-Length", "content-length", "Content-Encoding", "content-encoding",
                         "Transfer-Encoding", "transfer-encoding"} ==>
        (k in e <==> k in h) && (k in h ==> e[k] == h[k])
  {
    assert "Content-Length"[0] == 'C' && "content-length"[0] == 'c';
    assert |"Content-Encoding"| == 16 && |"Transfer-Encoding"| == 17 && |"Content-Length"| == 14;
    assert |"content-encoding"| == 16 && |"transfer-encoding"| == 17 && |"content-length"| == 14;
  }

  // ----- edits: round trip and unique split

  lemma ChangeSplits(kind: byte, id: Bytes, head: Bytes, body: Bytes)
    requires |id| == 36 && |head| < TWO_32
    ensures
      SplitChange(ChangeFrame(kind, id, head, body)) == if |body| < TWO_32 then Some((head, body)) else None
  {
    hide ChangeFrame;
    hide PutUint32;
    hide Uint32;
    var d, h := ChangeFrame(kind, id, head, body), |head|;
    ChangeFrameSlices(kind, id, head, body);
    Uint32Inverse(h);
    Uint32Inverse(|body|);
    assert Uint32(d[38..42]) == h && Uint32(d[42 + h..46 + h]) == |body| % TWO_32;
  }

  /** A header of 2^32 bytes or more wraps its length, and then the body is never what was sent. */
  lemma LongHeaderLost(kind: byte, id: Bytes, head: Bytes, body: Bytes)
    requires |id| == 36 && |head| >= TWO_32
    ensures
      var r := SplitChange(ChangeFrame(kind, id, head, body));
      r.Some? ==> |r.value.1| > |body|
  {
    hide ChangeFrame;
    hide PutUint32;
    hide Uint32;
    ChangeFrameSlices(kind, id, head, body);
    Uint32Inverse(|head|);
  }

  /** The parts are got back exactly when both lengths fit into their four bytes. */
  lemma ChangeSplitsExactly(kind: byte, id: Bytes, head: Bytes, body: Bytes)
    requires |id| == 36
    ensures
      SplitChange(ChangeFrame(kind, id, head, body)) == Some((head, body)) <==> |head| < TWO_32 && |body| < TWO_32
  {
    if |head| < TWO_32 {
      ChangeSplits(kind, id, head, body);
    } else {
      LongHeaderLost(kind, id, head, body);
    }
    hide SplitChange;
    hide ChangeFrame;
  }

  /** The parts of a frame that say what kind of edit it is, and of which flow. */
  lemma ChangeAddressed(kind: byte, id: Uuid, head: Bytes, body: Bytes)
    ensures
      var d := ChangeFrame(kind, UuidText(id), head, body);
      |d| >= 46 && d[0] == VERSION && d[1] == kind && ParseUuid(d[2..38]) == Some(id)
  {
    ChangeFrameSlices(kind, UuidText(id), head, body);
    UuidInverse(id);
  }

  /** A frame of either encoder is read in Go as the message it was made from exactly when its header and
      its body are shorter than 2^32 bytes. */
  lemma ChangeRoundTrip<Q, S, R>(qc: Codec<Q>, sc: Codec<S>, rc: Codec<R>, m: Edit<Q, S>)
    requires !m.Drop?
    requires m.ChangeRequest? ==> qc.unmarshal(qc.marshal(m.request)) == Some(m.request)
    requires m.ChangeResponse? ==> sc.unmarshal(sc.marshal(m.response)) == Some(m.response)
    ensures
      var head := if m.ChangeRequest? then qc.marshal(m.request) else sc.marshal(m.response);
      ParseMessage(qc, sc, rc, EditFrame(qc, sc, m)) == Some(EditMessage(m)) <==>
      |head| < TWO_32 && |m.body| < TWO_32
  {
    hide ChangeFrame;
    hide SplitChange;
    hide ParseUuid;
    hide UuidText;
    var head := if m.ChangeRequest? then qc.marshal(m.request) else sc.marshal(m.response);
    ChangeAddressed(EditKind(m), m.id, head, m.body);
    if |head| < TWO_32 {
      ChangeSplits(EditKind(m), UuidText(m.id), head, m.body);
    } else {
      LongHeaderLost(EditKind(m), UuidText(m.id), head, m.body);
    }
  }

  lemma DropRoundTrip<Q, S, R>(qc: Codec<Q>, sc: Codec<S>, rc: Codec<R>, kind: byte, id: Uuid)
    requires kind == DROP_REQUEST || kind == DROP_RESPONSE
    ensures ParseMessage(qc, sc, rc, Prefix(kind, UuidText(id))) == Some(EditMessage(Edit<Q, S>.Drop(kind, id)))
  {
    var d := Prefix(kind, UuidText(id));
    assert d + [] == d;
    PrefixSlices(kind, UuidText(id), []);
    UuidInverse(id);
    hide ParseUuid;
    hide UuidText;
    hide Prefix;
  }

  /** A change message that is accepted adds up: its bytes are one frame, cut at its own lengths. */
  lemma AcceptedChangeIsFrame(data: Bytes)
    requires SplitChange(data).Some? && data[0] == VERSION
    ensures
      var (head, body) := SplitChange(data).value;
      46 + |head| + |body| == |data| && data == ChangeFrame(data[1], data[2..38], head, body) &&
      |head| < TWO_32 && |body| < TWO_32
  {
    var h := Uint32(data[38..42]);
    PutInverse(data[38..42]);
    PutInverse(data[42 + h..46 + h]);
    hide PutUint32;
    hide Uint32;
    ChangeFrameFromSlices(data, data[1], h);
  }

  /** And there is no other way to cut it. */
  lemma ChangeFrameInjective(kind: byte, id: Bytes, head: Bytes, body: Bytes,
                             kind2: byte, id2: Bytes, head2: Bytes, body2: Bytes)
    requires |id| == |id2| == 36
    requires |head| < TWO_32 && |body| < TWO_32 && |head2| < TWO_32 && |body2| < TWO_32
    requires ChangeFrame(kind, id, head, body) == ChangeFrame(kind2, id2, head2, body2)
    ensures kind == kind2 && id == id2 && head == head2 && body == body2
  {
    ChangeSplits(kind, id, head, body);
    ChangeSplits(kind2, id2, head2, body2);
    ChangeFrameSlices(kind, id, head, body);
    ChangeFrameSlices(kind2, id2, head2, body2);
    hide ChangeFrame;
    hide SplitChange;
  }

  // ----- flow messages from Go to TypeScript

  /** What the web client receives: the JSON value, the bytes of a body, or a number. */
  datatype Content<J> = NoContent | BodyBytes(data: Bytes) | Number(n: nat) | Json(value: J)

  datatype FlowMessage<J> = FlowMessage(kind: byte, id: Bytes, waitIntercept: bool, content: Content<J>)

  /** parseMessage returns null, throws (DataView past the end), or returns a message. */
  datatype TsResult<J> = Null | RangeError | Returned(message: FlowMessage<J>)

  /** messageFlow.bytes */
  method FlowBytes(kind: byte, id: Uuid, waitIntercept: byte, content: Bytes) returns (buf: Bytes)
    ensures buf == FlowFrame(kind, UuidText(id), waitIntercept, content)
  {
    buf := [];
    buf := buf + [VERSION];
    buf := buf + [kind];
    buf := buf + UuidText(id);
    buf := buf + [waitIntercept];
    buf := buf + content;
    assert buf == Prefix(kind, UuidText(id)) + ([waitIntercept] + content);
  }

  function ParseFlow<J>(jc: Codec<J>, data: Bytes): TsResult<J> {
    if |data| < 39 || data[0] != VERSION || data[1] !in FLOW_TYPES then Null else
      var kind, id, wait, rest := data[1], data[2..38], data[38] == 1, data[39..];
      if rest == [] then Returned(FlowMessage(kind, id, wait, NoContent))
      else if kind == REQUEST_BODY || kind == RESPONSE_BODY then Returned(FlowMessage(kind, id, wait, BodyBytes(rest)))
      else if kind == CONN_CLOSE then
        if |rest| < 4 then RangeError else Returned(FlowMessage(kind, id, wait, Number(Uint32(rest[0..4]))))
      else
        var v := jc.unmarshal(rest);
        if v.None? then Null else Returned(FlowMessage(kind, id, wait, Json(v.value)))
  }

  /** What Go puts into a flow message: `J` is what JSON describes. */
  datatype Payload<J> = Body(data: Bytes) | FlowCount(n: nat) | Described(value: J)

  predicate Fits<J>(kind: byte, p: Payload<J>) {
    match p
    case Body(_) => kind == 2 || kind == 4
    case FlowCount(n) => kind == 5 && n < 0x1_0000_0000
    case Described(_) => kind == 0 || kind == 1 || kind == 3
  }

  function PayloadBytes<J>(jc: Codec<J>, p: Payload<J>): Bytes {
    match p
    case Body(data) => data
    case FlowCount(n) => PutUint32(n)
    case Described(v) => jc.marshal(v)
  }

  function PayloadContent<J>(p: Payload<J>): Content<J> {
    match p
    case Body(data) => if data == [] then NoContent else BodyBytes(data)
    case FlowCount(n) => Number(n)
    case Described(v) => Json(v)
  }

  /** Every flow message that Go sends is read in TypeScript with the same type, id, wait flag and content;
      an empty body arrives as no content. */
  lemma FlowRoundTrip<J>(jc: Codec<J>, kind: byte, id: Uuid, wait: byte, p: Payload<J>)
    requires Fits(kind, p)
    requires p.Described? ==> jc.marshal(p.value) != [] && jc.unmarshal(jc.marshal(p.value)) == Some(p.value)
    ensures
      ParseFlow(jc, FlowFrame(kind, UuidText(id), wait, PayloadBytes(jc, p))) ==
      Returned(FlowMessage(kind, UuidText(id), wait == 1, PayloadContent(p)))
  {
    var content := PayloadBytes(jc, p);
    var d, rest := FlowFrame(kind, UuidText(id), wait, content), [wait] + content;
    PrefixSlices(kind, UuidText(id), rest);
    assert d[38..][0] == wait && d[38..][1..] == content;
    assert d[38] == wait && d[39..] == content;
    if p.FlowCount? {
      Uint32Inverse(p.n);
      assert content[0..4] == content;
    }
    hide Uint32;
    hide PutUint32;
    hide UuidText;
    hide Prefix;
  }
}
