/** The binary frames between the proxy and its web client: the byte layout, UUID text and big-endian
    numbers (web/message.go, web/client/src/utils/message.ts). */
module WireFrames {
  import opened Wrappers

  newtype byte = i: int | 0 <= i < 256

  type Bytes = seq<byte>

  const VERSION: byte := 2
  const TWO_32 := 0x1_0000_0000

  // ----- big-endian 32-bit numbers

  /** binary.BigEndian.PutUint32 and DataView.setUint32: the number modulo 2^32 */
  function PutUint32(n: nat): (b: Bytes)
    ensures |b| == 4
  {
    [(n / 0x100_0000 % 256) as byte, (n / 0x1_0000 % 256) as byte, (n / 0x100 % 256) as byte, (n % 256) as byte]
  }

  function Uint32(b: Bytes): (n: nat)
    requires |b| == 4
    ensures n < TWO_32
  {
    b[0] as int * 0x100_0000 + b[1] as int * 0x1_0000 + b[2] as int * 0x100 + b[3] as int
  }

  lemma Uint32Inverse(n: nat)
    ensures Uint32(PutUint32(n)) == n % TWO_32
  {
    var a, b, c := n / 0x100, n / 0x1_0000, n / 0x100_0000;
    assert b == a / 0x100 && c == b / 0x100;
    assert n == 0x100 * a + n % 256 && a == 0x100 * b + a % 256 && b == 0x100 * c + b % 256;
    var top := c / 0x100;
    assert c == 0x100 * top + c % 256;
    var low := Uint32(PutUint32(n));
    assert n == TWO_32 * top + low;
  }

  lemma PutInverse(b: Bytes)
    requires |b| == 4
    ensures PutUint32(Uint32(b)) == b
  {
    var n := Uint32(b);
    assert n / 0x100 == b[0] as int * 0x1_0000 + b[1] as int * 0x100 + b[2] as int;
    assert n / 0x1_0000 == b[0] as int * 0x100 + b[1] as int;
    assert n / 0x100_0000 == b[0] as int;
  }

  // ----- UUID text (section 3 of RFC 4122)

  const DASH: byte := 45

  function HexDigit(d: nat): byte
    requires d < 16
  {
    if d < 10 then (48 + d) as byte else (87 + d) as byte
  }

  function HexValue(b: byte): Option<nat> {
    if 48 <= b <= 57 then Some(b as int - 48)
    else if 97 <= b <= 102 then Some(b as int - 87)
    else if 65 <= b <= 70 then Some(b as int - 55)
    else None
  }

  function HexEncode(u: Bytes): (t: Bytes)
    ensures |t| == 2 * |u|
  {
    if u == [] then [] else [HexDigit(u[0] as int / 16), HexDigit(u[0] as int % 16)] + HexEncode(u[1..])
  }

  function HexDecode(t: Bytes): (u: Option<Bytes>)
    requires |t| % 2 == 0
    ensures u.Some? ==> 2 * |u.value| == |t|
  {
    if t == [] then Some([]) else
      var hi, lo, rest := HexValue(t[0]), HexValue(t[1]), HexDecode(t[2..]);
      if hi.None? || lo.None? || rest.None? then None else Some([(16 * hi.value + lo.value) as byte] + rest.value)
  }

  lemma {:induction false} HexInverse(u: Bytes)
    ensures HexDecode(HexEncode(u)) == Some(u)
  {
    if u != [] {
      var t := HexEncode(u);
      assert t[2..] == HexEncode(u[1..]);
      HexInverse(u[1..]);
      assert [u[0]] + u[1..] == u;
    }
  }

  type Uuid = u: Bytes | |u| == 16 witness seq(16, _ => 0)

  /** UUID.String */
  function UuidText(u: Uuid): (t: Bytes)
    ensures |t| == 36
  {
    HexEncode(u[..4]) + [DASH] + HexEncode(u[4..6]) + [DASH] + HexEncode(u[6..8]) + [DASH] +
    HexEncode(u[8..10]) + [DASH] + HexEncode(u[10..])
  }

  /** uuid.FromString on 36 bytes: the canonical form, in either letter case */
  function ParseUuid(t: Bytes): (u: Option<Uuid>)
    requires |t| == 36
  {
    if t[8] != DASH || t[13] != DASH || t[18] != DASH || t[23] != DASH then None else
      var a, b, c, d, e :=
        HexDecode(t[0..8]), HexDecode(t[9..13]), HexDecode(t[14..18]), HexDecode(t[19..23]), HexDecode(t[24..36]);
      if a.None? || b.None? || c.None? || d.None? || e.None? then None
      else Some(a.value + b.value + c.value + d.value + e.value)
  }

  lemma UuidInverse(u: Uuid)
    ensures ParseUuid(UuidText(u)) == Some(u)
  {
    var t := UuidText(u);
    hide HexEncode;
    hide HexDecode;
    assert t[0..8] == HexEncode(u[..4]);
    assert t[9..13] == HexEncode(u[4..6]);
    assert t[14..18] == HexEncode(u[6..8]);
    assert t[19..23] == HexEncode(u[8..10]);
    assert t[24..36] == HexEncode(u[10..]);
    HexInverse(u[..4]);
    HexInverse(u[4..6]);
    HexInverse(u[6..8]);
    HexInverse(u[8..10]);
    HexInverse(u[10..]);
    assert u[..4] + u[4..6] + u[6..8] + u[8..10] + u[10..] == u;
  }

  // ----- layouts

  /** version, type, id */
  function Prefix(kind: byte, id: Bytes): Bytes { [VERSION, kind] + id }

  /** header length, header, body length, body */
  function HeadBody(head: Bytes, body: Bytes): Bytes {
    PutUint32(|head|) + (head + (PutUint32(|body|) + body))
  }

  /** An edit that carries a message. */
  function ChangeFrame(kind: byte, id: Bytes, head: Bytes, body: Bytes): Bytes {
    Prefix(kind, id) + HeadBody(head, body)
  }

  /** version, type, id, waitIntercept, content */
  function FlowFrame(kind: byte, id: Bytes, wait: byte, content: Bytes): Bytes { Prefix(kind, id) + ([wait] + content) }

  lemma PrefixSlices(kind: byte, id: Bytes, rest: Bytes)
    requires |id| == 36
    ensures
      var d := Prefix(kind, id) + rest;
      |d| == 38 + |rest| && d[0] == VERSION && d[1] == kind && d[2..38] == id && d[38..] == rest
  {
  }

  lemma HeadBodySlices(head: Bytes, body: Bytes)
    ensures
      var d, h := HeadBody(head, body), |head|;
      |d| == 8 + h + |body| && d[0..4] == PutUint32(h) && d[4..4 + h] == head &&
      d[4 + h..8 + h] == PutUint32(|body|) && d[8 + h..] == body
  {
    hide PutUint32;
  }

  /** Positions within the rest are positions shifted by the prefix. */
  lemma SliceShift(a: Bytes, b: Bytes, i: nat, j: nat)
    requires i <= j <= |b|
    ensures (a + b)[|a| + i..|a| + j] == b[i..j]
  {
  }

  lemma ChangeFrameSlices(kind: byte, id: Bytes, head: Bytes, body: Bytes)
    requires |id| == 36
    ensures
      var d, h := ChangeFrame(kind, id, head, body), |head|;
      |d| == 46 + h + |body| && d[0] == VERSION && d[1] == kind && d[2..38] == id &&
      d[38..42] == PutUint32(h) && d[42..42 + h] == head && d[42 + h..46 + h] == PutUint32(|body|) &&
      d[46 + h..] == body
  {
    var rest, h := HeadBody(head, body), |head|;
    PrefixSlices(kind, id, rest);
    HeadBodySlices(head, body);
    var p := Prefix(kind, id);
    hide Prefix;
    hide HeadBody;
    hide PutUint32;
    SliceShift(p, rest, 0, 4);
    SliceShift(p, rest, 4, 4 + h);
    SliceShift(p, rest, 4 + h, 8 + h);
    SliceShift(p, rest, 8 + h, |rest|);
  }

  /** The layout read backwards: bytes with these parts are the frame. */
  lemma ChangeFrameFromSlices(d: Bytes, kind: byte, h: nat)
    requires |d| >= 46 + h && d[0] == VERSION && d[1] == kind
    requires d[38..42] == PutUint32(h) && d[42 + h..46 + h] == PutUint32(|d| - 46 - h)
    ensures d == ChangeFrame(kind, d[2..38], d[42..42 + h], d[46 + h..])
  {
    hide PutUint32;
    assert d[..38] == Prefix(kind, d[2..38]);
    assert d[38..] == HeadBody(d[42..42 + h], d[46 + h..]) by {
      assert d[38..] == d[38..42] + (d[42..42 + h] + (d[42 + h..46 + h] + d[46 + h..]));
    }
    assert d == d[..38] + d[38..];
  }
}
