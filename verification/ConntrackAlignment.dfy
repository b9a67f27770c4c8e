/**
 * Why addresses must fill whole words (netlink/conntrack_linux.go): the builder pads an address, and the parser does not
 * skip the padding.
 */
module ConntrackAlignment {
  import opened Bytes
  import opened Netlink
  import opened Conntrack
  import opened ConntrackCodec

  function Zeros(n: nat): seq<byte> {
    seq(n, _ => 0)
  }

  /** How far the parser stays behind after an address. */
  function Lag(ip: seq<byte>): nat {
    Align(|ip|) - |ip|
  }

  lemma LagSmall(ip: seq<byte>)
    ensures Lag(ip) <= 3 && (Lag(ip) == 0 <==> |ip| % 4 == 0)
  {
  }

  lemma PaddedZeros(ip: seq<byte>, rest: seq<byte>)
    ensures Padded(ip) + rest == ip + (Zeros(Lag(ip)) + rest)
  {
  }

  lemma AddressLags(e: Endian, family: byte, source: bool, ip: seq<byte>, rest: seq<byte>, tpl: IPTuple)
    requires |ip| <= 16
    ensures var typ := if source then SourceType(family) else DestinationType(family);
            ReadAddress(e, Serialize(e, Leaf(typ, ip)) + rest, tpl) ==
            Read(if source then tpl.(srcIP := ip) else tpl.(dstIP := ip), Zeros(Lag(ip)) + rest)
  {
    hide Serialize, ReadHead, Padded, Zeros, Lag;
    LeafReads(e, if source then SourceType(family) else DestinationType(family), ip, rest);
    PaddedZeros(ip, rest);
    SliceReads(ip, Zeros(Lag(ip)) + rest);
  }

  /** The type of an attribute stands in the third and fourth byte. */
  lemma TypeAt(e: Endian, s: seq<byte>)
    requires |s| >= 4
    ensures ReadHead(e, s).typ == Get16(e, s[2..4]) % NESTED && ReadHead(e, s).rest == s[4..]
  {
    assert s[2..][..2] == s[2..4];
  }

  /** The first bytes of a leaf with little data. */
  lemma HeaderBytes(e: Endian, length: byte, typ: byte)
    ensures HeaderOf(e, length, typ) == if e.Little? then [length, 0, typ, 0] else [0, length, 0, typ]
  {
  }

  /** Between one and three bytes too early, no header of a destination address reads as one of an address. */
  lemma LateHeader(e: Endian, lag: nat, length: byte, typ: byte, s: seq<byte>)
    requires 1 <= lag <= 3 && length >= 5 && (typ == CTA_IP_V4_DST || typ == CTA_IP_V6_DST)
    requires |s| >= 4 && s[..4] == HeaderOf(e, length, typ)
    ensures ReadHead(e, Zeros(lag) + s).typ !in {CTA_IP_V4_DST, CTA_IP_V6_DST}
  {
    var late := Zeros(lag) + s;
    HeaderBytes(e, length, typ);
    TypeAt(e, late);
    var h := s[..4];
    assert forall i :: 0 <= i < 4 ==> s[i] == h[i];
    hide ReadHead, HeaderOf;
    if lag == 1 {
      assert late[2..4] == [h[1], h[2]];
    } else if lag == 2 {
      assert late[2..4] == [h[0], h[1]];
    } else {
      assert late[2..4] == [0, h[0]];
    }
  }

  lemma ProtocolKeepsAddresses(e: Endian, s: seq<byte>, tpl: IPTuple)
    ensures var r := ReadProtocol(e, s, tpl);
            r.Some? ==> r.value.value.srcIP == tpl.srcIP && r.value.value.dstIP == tpl.dstIP
  {
    hide ReadHead, Read16, ReadSlice, Skip;
  }

  /** After a misaligned source the destination is never found. */
  lemma MisalignedSource(e: Endian, family: byte, t: IPTuple, rest: seq<byte>)
    requires |t.srcIP| % 4 != 0 && |t.srcIP| <= 16 && 0 < |t.dstIP| <= 16
    ensures var attrs := TupleAttrs(t, family);
            var r := ReadTuple(e, SerializeAll(e, attrs[0].children) + (Serialize(e, attrs[1]) + rest), EmptyTuple());
            r.Some? ==> r.value.value.dstIP == []
  {
    hide Serialize, SerializeAll, ReadHead, ReadProtocol, Zeros, Lag, HeaderOf, ReadSlice;
    var attrs := TupleAttrs(t, family);
    var ip := attrs[0].children;
    var after := Serialize(e, attrs[1]) + rest;
    var s := Serialize(e, ip[1]) + after;
    AllOfTwo(e, ip[0], ip[1]);
    assert SerializeAll(e, ip) + after == Serialize(e, ip[0]) + s;
    AddressLags(e, family, true, t.srcIP, s, EmptyTuple());
    LagSmall(t.srcIP);
    LeafBytes(e, DestinationType(family), t.dstIP, after);
    LateHeader(e, Lag(t.srcIP), HEADER + |t.dstIP|, DestinationType(family), s);
    var first := Read(EmptyTuple().(srcIP := t.srcIP), Zeros(Lag(t.srcIP)) + s);
    var second := ReadAddress(e, first.rest, first.value);
    assert second.value.dstIP == [];
    ProtocolKeepsAddresses(e, second.rest, second.value);
  }

  /** The first eight bytes of the protocol nest: its own header, and that of the protocol number. */
  lemma ProtocolBytes(e: Endian, t: IPTuple, family: byte, rest: seq<byte>)
    ensures var s := Serialize(e, TupleAttrs(t, family)[1]) + rest;
            && |s| >= 8
            && s[..8] == if e.Little? then [28, 0, 2, 0x80, 5, 0, 1, 0] else [0, 28, 0x80, 2, 0, 5, 0, 1]
  {
    hide Serialize, SerializeAll, ChildrenLen, Put16;
    var proto := TupleAttrs(t, family)[1];
    var cs := proto.children;
    var tail := SerializeAll(e, [cs[1], cs[2]]) + rest;
    AllOfThree(e, cs[0], cs[1], cs[2]);
    NestBytes(e, CTA_TUPLE_PROTO, cs, rest);
    assert SerializeAll(e, cs) + rest == Serialize(e, cs[0]) + tail;
    LeafBytes(e, CTA_PROTO_NUM, [t.protocol], tail);
    HeaderBytes(e, 5, 1);
    NestHeader(e);
  }

  lemma NestHeader(e: Endian)
    ensures HeaderOf(e, 28, NESTED + CTA_TUPLE_PROTO) == if e.Little? then [28, 0, 2, 0x80] else [0, 28, 0x80, 2]
  {
  }

  /** Read too early, the second header of the protocol nest is not that of a protocol number. */
  lemma LateProtocol(e: Endian, lag: nat, s: seq<byte>)
    requires 1 <= lag <= 3 && |s| >= 8
    requires s[..8] == if e.Little? then [28, 0, 2, 0x80, 5, 0, 1, 0] else [0, 28, 0x80, 2, 0, 5, 0, 1]
    ensures ReadHead(e, ReadHead(e, Zeros(lag) + s).rest).typ != CTA_PROTO_NUM
  {
    var late := Zeros(lag) + s;
    TypeAt(e, late);
    TypeAt(e, late[4..]);
    var h := s[..8];
    assert forall i :: 0 <= i < 8 ==> s[i] == h[i];
    hide ReadHead;
    assert late[4..][2..4] == [h[6 - lag], h[7 - lag]];
  }

  /** Without a protocol number the protocol stays as it was, and no port is read. */
  lemma NoProtocol(e: Endian, s: seq<byte>, tpl: IPTuple)
    requires ReadHead(e, ReadHead(e, s).rest).typ != CTA_PROTO_NUM
    requires tpl.protocol != IPPROTO_TCP && tpl.protocol != IPPROTO_UDP
    ensures ReadProtocol(e, s, tpl).Some? && ReadProtocol(e, s, tpl).value.value == tpl
  {
    hide ReadHead, ReadSlice, Skip;
  }

  /** After a misaligned destination the protocol is never found. */
  lemma MisalignedDestination(e: Endian, family: byte, t: IPTuple, rest: seq<byte>)
    requires |t.srcIP| % 4 == 0 && |t.srcIP| <= 16 && |t.dstIP| % 4 != 0 && |t.dstIP| <= 16
    ensures var attrs := TupleAttrs(t, family);
            var r := ReadTuple(e, SerializeAll(e, attrs[0].children) + (Serialize(e, attrs[1]) + rest), EmptyTuple());
            r.Some? && r.value.value.protocol == 0
  {
    hide Serialize, SerializeAll, ReadHead, ReadProtocol, Zeros, Lag, HeaderOf, ReadSlice, ReadAddress;
    var attrs := TupleAttrs(t, family);
    var ip := attrs[0].children;
    var after := Serialize(e, attrs[1]) + rest;
    var s := Serialize(e, ip[1]) + after;
    AllOfTwo(e, ip[0], ip[1]);
    assert SerializeAll(e, ip) + after == Serialize(e, ip[0]) + s;
    var one := EmptyTuple().(srcIP := t.srcIP);
    AddressReads(e, family, true, t.srcIP, s, EmptyTuple());
    AddressLags(e, family, false, t.dstIP, after, one);
    LagSmall(t.dstIP);
    ProtocolBytes(e, t, family, rest);
    LateProtocol(e, Lag(t.dstIP), after);
    NoProtocol(e, Zeros(Lag(t.dstIP)) + after, one.(dstIP := t.dstIP));
  }

  /**
   * A TCP or UDP tuple with addresses of up to 16 bytes and a destination is read back as it was written exactly when both
   * addresses fill whole words.
   */
  lemma TupleSurvivesExactly(e: Endian, family: byte, t: IPTuple, rest: seq<byte>)
    requires t.protocol == IPPROTO_TCP || t.protocol == IPPROTO_UDP
    requires |t.srcIP| <= 16 && 0 < |t.dstIP| <= 16
    ensures var attrs := TupleAttrs(t, family);
            ReadTuple(e, SerializeAll(e, attrs[0].children) + (Serialize(e, attrs[1]) + rest), EmptyTuple()) ==
            Some(Read(ApplyTuple(EmptyTuple(), t), rest))
            <==> |t.srcIP| % 4 == 0 && |t.dstIP| % 4 == 0
  {
    hide ReadTuple, Serialize, SerializeAll, TupleAttrs;
    if |t.srcIP| % 4 != 0 {
      MisalignedSource(e, family, t, rest);
    } else if |t.dstIP| % 4 != 0 {
      MisalignedDestination(e, family, t, rest);
    } else {
      TupleReads(e, family, t, rest, EmptyTuple());
    }
  }
}
