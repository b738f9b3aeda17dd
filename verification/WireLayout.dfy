/** The frames byte by byte (web/message.go, web/client/src/utils/message.ts), without the encoders and decoders: what
    stands at which offset, which type is which number, and what each accepted frame is. */
module WireLayout {
  import opened Wrappers
  import opened WireFrames
  import opened WireProtocol

  /** A length is written with its most significant byte first. */
  lemma BigEndian(n: nat)
    requires n < 0x1_0000_0000
    ensures
      var b := PutUint32(n);
      |b| == 4 && n == ((b[0] as int * 256 + b[1] as int) * 256 + b[2] as int) * 256 + b[3] as int
  {
    Uint32Inverse(n);
  }

  // ----- ids

  /** The character of a hexadecimal digit. */
  function HexChar(d: nat): byte
    requires d < 16
  {
    "0123456789abcdef"[d] as int as byte
  }

  /** Where the two digits of byte `k` of an id stand: there is a dash after bytes 3, 5, 7 and 9. */
  function Place(k: nat): nat
    requires k < 16
  {
    2 * k + if k < 4 then 0 else if k < 6 then 1 else if k < 8 then 2 else if k < 10 then 3 else 4
  }

  lemma HexDigitIs(d: nat)
    requires d < 16
    ensures HexDigit(d) == HexChar(d)
  {
  }

  lemma {:induction false} HexEncodeAt(u: Bytes, k: nat)
    requires k < |u|
    ensures HexEncode(u)[2 * k] == HexChar(u[k] as int / 16) && HexEncode(u)[2 * k + 1] == HexChar(u[k] as int % 16)
  {
    var hi, lo := u[0] as int / 16, u[0] as int % 16;
    HexDigitIs(hi);
    HexDigitIs(lo);
    hide HexChar;
    hide HexDigit;
    var first := [HexDigit(hi), HexDigit(lo)];
    assert HexEncode(u) == first + HexEncode(u[1..]);
    if k > 0 {
      HexEncodeAt(u[1..], k - 1);
    }
  }

  /** The five groups of an id's text. */
  lemma UuidGroups(u: Uuid)
    ensures
      var t := UuidText(u);
      t[0..8] == HexEncode(u[..4]) && t[9..13] == HexEncode(u[4..6]) && t[14..18] == HexEncode(u[6..8]) &&
      t[19..23] == HexEncode(u[8..10]) && t[24..36] == HexEncode(u[10..]) &&
      t[8] == t[13] == t[18] == t[23] == '-' as int as byte
  {
    hide HexEncode;
  }

  lemma GroupAt(t: Bytes, group: Bytes, from: nat, to: nat, u: Uuid, first: nat, last: nat, k: nat)
    requires first <= k < last <= 16 && from <= to <= |t| && t[from..to] == group && group == HexEncode(u[first..last])
    ensures from + 2 * (k - first) + 1 < to
    ensures t[from + 2 * (k - first)] == HexChar(u[k] as int / 16)
    ensures t[from + 2 * (k - first) + 1] == HexChar(u[k] as int % 16)
  {
    HexEncodeAt(u[first..last], k - first);
    hide HexEncode;
    hide HexChar;
    assert group[2 * (k - first)] == t[from + 2 * (k - first)];
    assert group[2 * (k - first) + 1] == t[from + 2 * (k - first) + 1];
  }

  /** The text of an id is its bytes in lower-case hexadecimal, high digit first, with dashes after the fourth, sixth,
      eighth and tenth. */
  lemma UuidTextAt(u: Uuid, k: nat)
    requires k < 16
    ensures UuidText(u)[Place(k)] == HexChar(u[k] as int / 16)
    ensures UuidText(u)[Place(k) + 1] == HexChar(u[k] as int % 16)
    ensures forall i | i in {8, 13, 18, 23} :: UuidText(u)[i] == '-' as int as byte
  {
    UuidGroups(u);
    var t := UuidText(u);
    hide UuidText;
    hide HexEncode;
    hide HexChar;
    assert u[..4] == u[0..4] && u[10..] == u[10..16];
    if k < 4 {
      GroupAt(t, t[0..8], 0, 8, u, 0, 4, k);
    } else if k < 6 {
      GroupAt(t, t[9..13], 9, 13, u, 4, 6, k);
    } else if k < 8 {
      GroupAt(t, t[14..18], 14, 18, u, 6, 8, k);
    } else if k < 10 {
      GroupAt(t, t[19..23], 19, 23, u, 8, 10, k);
    } else {
      GroupAt(t, t[24..36], 24, 36, u, 10, 16, k);
    }
  }

  // ----- edits

  /** version 2, a type from 11 to 14, the id, and for a change both parts after their lengths. */
  lemma EditLayout<Q, S>(qc: Codec<Q>, sc: Codec<S>, m: Edit<Q, S>)
    ensures
      var d := EditFrame(qc, sc, m);
      |d| >= 38 && d[0] == 2 && d[2..38] == UuidText(m.id) &&
      match m
      case Drop(kind, _) => |d| == 38 && d[1] == kind
      case ChangeRequest(_, q, body) =>
        var h := |qc.marshal(q)|;
        d[1] == 11 && |d| == 46 + h + |body| && d[38..42] == PutUint32(h) && d[42..42 + h] == qc.marshal(q) &&
        d[42 + h..46 + h] == PutUint32(|body|) && d[46 + h..] == body
      case ChangeResponse(_, s, body) =>
        var h := |sc.marshal(s)|;
        d[1] == 12 && |d| == 46 + h + |body| && d[38..42] == PutUint32(h) && d[42..42 + h] == sc.marshal(s) &&
        d[42 + h..46 + h] == PutUint32(|body|) && d[46 + h..] == body
  {
    match m {
      case Drop(kind, id) =>
        PrefixSlices(kind, UuidText(id), []);
        assert Prefix(kind, UuidText(id)) + [] == Prefix(kind, UuidText(id));
      case ChangeRequest(id, q, body) => ChangeFrameSlices(CHANGE_REQUEST, UuidText(id), qc.marshal(q), body);
      case ChangeResponse(id, s, body) => ChangeFrameSlices(CHANGE_RESPONSE, UuidText(id), sc.marshal(s), body);
    }
    hide Prefix;
    hide PutUint32;
    hide UuidText;
    hide ChangeFrame;
  }

  /** What a message that is accepted is, by its type: 11 a changed request, 12 a changed response, 13 and 14 a drop of
      one, 21 the rules; it is of version 2 and, but for the rules, of the id in the frame. */
  lemma AcceptedByType<Q, S, R>(qc: Codec<Q>, sc: Codec<S>, rc: Codec<R>, data: Bytes)
    requires ParseMessage(qc, sc, rc, data).Some?
    ensures |data| >= 2 && data[0] == 2 && data[1] in {11, 12, 13, 14, 21}
    ensures
      match ParseMessage(qc, sc, rc, data).value
      case MetaMessage(rules) => data[1] == 21 && rules == rc.unmarshal(data[2..])
      case EditMessage(m) =>
        |data| >= 38 && ParseUuid(data[2..38]) == Some(m.id) &&
        (m.ChangeRequest? <==> data[1] == 11) && (m.ChangeResponse? <==> data[1] == 12) &&
        (m.Drop? <==> data[1] in {13, 14}) && (m.Drop? ==> m.kind == data[1])
  {
    hide SplitChange;
    hide ParseUuid;
  }

  /** A frame of rules from either encoder is version 2, type 21 and the JSON, and is read as the rules it was made
      from. */
  lemma RulesRoundTrip<Q, S, R>(qc: Codec<Q>, sc: Codec<S>, rc: Codec<R>, rules: R)
    requires rc.unmarshal(rc.marshal(rules)) == Some(rules)
    ensures
      var d := RulesFrame(rc.marshal(rules));
      d == [2, 21] + rc.marshal(rules) && ParseMessage(qc, sc, rc, d) == Some(MetaMessage(Some(rules)))
  {
    var d := RulesFrame(rc.marshal(rules));
    assert d[2..] == rc.marshal(rules);
    hide ParseMessageEdit;
  }

  // ----- flow messages

  /** version 2, the type, the id, the wait mark, and the content; a body, a number or JSON by the type. */
  lemma FlowLayout(kind: byte, id: Uuid, wait: byte, content: Bytes)
    ensures
      var d := FlowFrame(kind, UuidText(id), wait, content);
      |d| == 39 + |content| && d[0] == 2 && d[1] == kind && d[2..38] == UuidText(id) && d[38] == wait &&
      d[39..] == content
  {
    var rest := [wait] + content;
    PrefixSlices(kind, UuidText(id), rest);
    var d := FlowFrame(kind, UuidText(id), wait, content);
    assert d[38..][0] == wait && d[38..][1..] == content;
    hide UuidText;
    hide Prefix;
  }

  /** What the client accepts is of version 2 and of a type from 0 to 5, and its content is a body for 2 and 4, a
      number for 5, and JSON otherwise. */
  lemma AcceptedFlowByType<J>(jc: Codec<J>, data: Bytes)
    ensures ParseFlow(jc, data).Returned? || ParseFlow(jc, data).RangeError? ==>
      |data| >= 39 && data[0] == 2 && 0 <= data[1] <= 5
    ensures ParseFlow(jc, data).RangeError? <==>
      |data| >= 39 && data[0] == 2 && data[1] == 5 && 40 <= |data| < 43
    ensures ParseFlow(jc, data).Returned? ==>
      var m := ParseFlow(jc, data).message;
      m.kind == data[1] && m.id == data[2..38] && (m.waitIntercept <==> data[38] == 1) &&
      match m.content
      case NoContent => |data| == 39
      case BodyBytes(body) => m.kind in {2, 4} && body == data[39..]
      case Number(n) => m.kind == 5 && |data| >= 43 && PutUint32(n) == data[39..43]
      case Json(v) => m.kind in {0, 1, 3} && jc.unmarshal(data[39..]) == Some(v)
  {
    if |data| >= 43 {
      PutInverse(data[39..43]);
      assert data[39..][0..4] == data[39..43];
    }
    hide PutUint32;
    hide Uint32;
  }
}
