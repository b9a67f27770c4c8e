/** Netlink attributes (nl/nl_linux.go): byte orders, the nested attribute and its 4-aligned serialisation. */
module Netlink {
  import opened Bytes

  datatype Endian = Little | Big

  function Put16(e: Endian, v: uint16): (r: seq<byte>)
    ensures |r| == 2
  {
    if e.Little? then [v % 0x100, v / 0x100] else [v / 0x100, v % 0x100]
  }

  function Get16(e: Endian, b: seq<byte>): uint16
    requires |b| == 2
  {
    if e.Little? then Word(b[1], b[0]) else Word(b[0], b[1])
  }

  function Word(high: nat, low: nat): (r: uint16)
    requires high < 0x100 && low < 0x100
  {
    high * 0x100 + low
  }

  function Put32(e: Endian, v: uint32): (r: seq<byte>)
    ensures |r| == 4
  {
    if e.Little? then Put16(e, v % 0x1_0000) + Put16(e, v / 0x1_0000)
    else Put16(e, v / 0x1_0000) + Put16(e, v % 0x1_0000)
  }

  function Get32(e: Endian, b: seq<byte>): uint32
    requires |b| == 4
  {
    var first: nat, second: nat := Get16(e, b[..2]), Get16(e, b[2..]);
    if e.Little? then second * 0x1_0000 + first else first * 0x1_0000 + second
  }

  function Put64(e: Endian, v: uint64): (r: seq<byte>)
    ensures |r| == 8
  {
    if e.Little? then Put32(e, v % 0x1_0000_0000) + Put32(e, v / 0x1_0000_0000)
    else Put32(e, v / 0x1_0000_0000) + Put32(e, v % 0x1_0000_0000)
  }

  function Get64(e: Endian, b: seq<byte>): uint64
    requires |b| == 8
  {
    var first: nat, second: nat := Get32(e, b[..4]), Get32(e, b[4..]);
    if e.Little? then second * 0x1_0000_0000 + first else first * 0x1_0000_0000 + second
  }

  lemma Get16Put16(e: Endian, v: uint16)
    ensures Get16(e, Put16(e, v)) == v
  {
  }

  lemma Get32Put32(e: Endian, v: uint32)
    ensures Get32(e, Put32(e, v)) == v
  {
    hide Put16, Get16;
    Get16Put16(e, v % 0x1_0000);
    Get16Put16(e, v / 0x1_0000);
    assert Put32(e, v)[..2] == if e.Little? then Put16(e, v % 0x1_0000) else Put16(e, v / 0x1_0000);
    assert Put32(e, v)[2..] == if e.Little? then Put16(e, v / 0x1_0000) else Put16(e, v % 0x1_0000);
  }

  lemma Get64Put64(e: Endian, v: uint64)
    ensures Get64(e, Put64(e, v)) == v
  {
    hide Put32, Get32;
    Get32Put32(e, v % 0x1_0000_0000);
    Get32Put32(e, v / 0x1_0000_0000);
    assert Put64(e, v)[..4] == if e.Little? then Put32(e, v % 0x1_0000_0000) else Put32(e, v / 0x1_0000_0000);
    assert Put64(e, v)[4..] == if e.Little? then Put32(e, v / 0x1_0000_0000) else Put32(e, v % 0x1_0000_0000);
  }

  /* ---------- attributes ---------- */

  const HEADER: nat := 4
  const NESTED: nat := 0x8000

  /** Rounds up to a multiple of 4. */
  function Align(n: nat): nat {
    (n + 3) / 4 * 4
  }

  datatype RtAttr = RtAttr(typ: uint16, data: seq<byte>, children: seq<RtAttr>)

  /** `RtAttr.Len`: the last padding of a leaf is not counted. */
  function Len(a: RtAttr): nat
    decreases a, 0
  {
    if a.children == [] then HEADER + |a.data| else Align(ChildrenLen(a.children) + HEADER + |a.data|)
  }

  function ChildrenLen(cs: seq<RtAttr>): nat
    decreases cs, 1
  {
    if cs == [] then 0 else Align(Len(cs[0])) + ChildrenLen(cs[1..])
  }

  function Padded(data: seq<byte>): (r: seq<byte>)
    ensures |r| == Align(|data|)
  {
    data + seq(Align(|data|) - |data|, _ => 0)
  }

  /** Length and type of an attribute; the length is truncated to 16 bits. */
  function HeaderOf(e: Endian, length: nat, typ: uint16): (r: seq<byte>)
    ensures |r| == HEADER
  {
    Put16(e, length % 0x1_0000) + Put16(e, typ)
  }

  /** `RtAttr.Serialize`. */
  function Serialize(e: Endian, a: RtAttr): seq<byte>
    decreases a, 0
  {
    HeaderOf(e, Len(a), a.typ) + (Padded(a.data) + SerializeAll(e, a.children))
  }

  function SerializeAll(e: Endian, cs: seq<RtAttr>): seq<byte>
    decreases cs, 1
  {
    if cs == [] then [] else Serialize(e, cs[0]) + SerializeAll(e, cs[1..])
  }

  /** A serialised attribute takes its aligned length, so siblings always start on a 4-byte boundary. */
  lemma {:induction false} SerializedLength(e: Endian, a: RtAttr)
    ensures |Serialize(e, a)| == Align(Len(a))
    decreases a, 0
  {
    hide Align, HeaderOf;
    SerializedLengths(e, a.children);
    AlignShift(|a.data|, HEADER);
    AlignShift(|a.data|, ChildrenLen(a.children) + HEADER);
    AlignIdempotent(ChildrenLen(a.children) + HEADER + |a.data|);
  }

  lemma AlignShift(n: nat, m: nat)
    requires m % 4 == 0
    ensures Align(n + m) == Align(n) + m
  {
  }

  lemma AlignIdempotent(n: nat)
    ensures Align(Align(n)) == Align(n) && Align(n) % 4 == 0
  {
  }

  lemma {:induction false} SerializedLengths(e: Endian, cs: seq<RtAttr>)
    ensures |SerializeAll(e, cs)| == ChildrenLen(cs) && ChildrenLen(cs) % 4 == 0
    decreases cs, 1
  {
    hide Align, Serialize;
    if cs != [] {
      SerializedLength(e, cs[0]);
      SerializedLengths(e, cs[1..]);
      AlignIdempotent(Len(cs[0]));
    }
  }

  lemma {:induction false} SerializeConcat(e: Endian, a: seq<RtAttr>, b: seq<RtAttr>)
    ensures SerializeAll(e, a + b) == SerializeAll(e, a) + SerializeAll(e, b)
  {
    if a == [] {
      assert a + b == b;
    } else {
      assert (a + b)[0] == a[0] && (a + b)[1..] == a[1..] + b;
      SerializeConcat(e, a[1..], b);
    }
  }

  function Leaf(typ: uint16, data: seq<byte>): RtAttr {
    RtAttr(typ, data, [])
  }

  function Nest(typ: uint16, children: seq<RtAttr>): RtAttr
    requires typ < NESTED
  {
    RtAttr(NESTED + typ, [], children)
  }
}
