/**
 * The conntrack message builder (netlink/conntrack_linux.go) and what the parser makes of its messages: the round trip,
 * and the transparency of attributes that the parser does not handle.
 */
module ConntrackCodec {
  import opened Bytes
  import opened Netlink
  import opened Conntrack

  /* ---------- the builder ---------- */

  predicate KnownFamily(family: byte) {
    family == AF_INET || family == AF_INET6
  }

  function SourceType(family: byte): nat {
    if family == AF_INET then CTA_IP_V4_SRC else CTA_IP_V6_SRC
  }

  function DestinationType(family: byte): nat {
    if family == AF_INET then CTA_IP_V4_DST else CTA_IP_V6_DST
  }

  /** `IPTuple.toNlData`, for a family that it knows. */
  function TupleAttrs(t: IPTuple, family: byte): seq<RtAttr> {
    [Nest(CTA_TUPLE_IP, [Leaf(SourceType(family), t.srcIP), Leaf(DestinationType(family), t.dstIP)]),
     Nest(CTA_TUPLE_PROTO, [Leaf(CTA_PROTO_NUM, [t.protocol]),
                            Leaf(CTA_PROTO_SRC_PORT, Put16(Big, t.srcPort)),
                            Leaf(CTA_PROTO_DST_PORT, Put16(Big, t.dstPort))])]
  }

  /** What a TCP nest holds: a state, or any attribute that the parser skips, such as window scales and flags. */
  datatype TCPPart = State(state: byte) | OtherPart(nested: bool, typ: uint16, data: seq<byte>)

  /** What protocol information holds: a TCP nest, or any other attribute, which is skipped but may tell the protocol. */
  datatype InfoNest = TCPNest(parts: seq<TCPPart>) | OtherNest(nested: bool, typ: uint16, data: seq<byte>)

  /** One item of a counters nest, and of a timestamp nest. */
  datatype Count = Packets(packets: uint64) | Bytes(bytes: uint64)

  datatype Stamp = Start(start: uint64) | Stop(stop: uint64)

  /**
   * How a tuple is laid out: the order of the addresses and of the ports, whether there are ports, and what else the
   * protocol nest holds.
   */
  datatype Layout = Layout(destinationFirst: bool, ports: bool, destinationPortFirst: bool, extra: seq<RtAttr>)

  /** The attributes a message is made of: those that the builder or the kernel writes, and any other. */
  datatype Attribute =
    | Tuple(reply: bool, family: byte, tpl: IPTuple, layout: Layout)
    | Mark(mark: uint32)
    | TimeOut(seconds: uint32)
    | Labels(bits: seq<byte>)
    | Info(nests: seq<InfoNest>)
    | Zone(zone: uint16)
    | Counters(reply: bool, first: Count, second: Count)
    | Stamps(one: Stamp, other: Option<Stamp>)
    | Unhandled(nested: bool, typ: uint16, data: seq<byte>)

  function WirePart(p: TCPPart): RtAttr {
    match p
    case State(state) => Leaf(CTA_PROTOINFO_TCP_STATE, [state])
    case OtherPart(nested, typ, data) => Leaf(if nested && typ < NESTED then NESTED + typ else typ, data)
  }

  function WireParts(parts: seq<TCPPart>): (r: seq<RtAttr>)
    ensures |r| == |parts|
  {
    if parts == [] then [] else [WirePart(parts[0])] + WireParts(parts[1..])
  }

  function WireNest(n: InfoNest): RtAttr {
    match n
    case TCPNest(parts) => Nest(1, WireParts(parts))
    case OtherNest(nested, typ, data) => Leaf(if nested && typ < NESTED then NESTED + typ else typ, data)
  }

  function WireNests(nests: seq<InfoNest>): (r: seq<RtAttr>)
    ensures |r| == |nests|
  {
    if nests == [] then [] else [WireNest(nests[0])] + WireNests(nests[1..])
  }

  function WireCount(c: Count): RtAttr {
    match c
    case Packets(v) => Leaf(CTA_COUNTERS_PACKETS, Put64(Big, v))
    case Bytes(v) => Leaf(CTA_COUNTERS_BYTES, Put64(Big, v))
  }

  function WireStamp(t: Stamp): RtAttr {
    match t
    case Start(v) => Leaf(CTA_TIMESTAMP_START, Put64(Big, v))
    case Stop(v) => Leaf(CTA_TIMESTAMP_STOP, Put64(Big, v))
  }

  function AddressAttrs(t: IPTuple, family: byte, l: Layout): seq<RtAttr> {
    var source, destination := Leaf(SourceType(family), t.srcIP), Leaf(DestinationType(family), t.dstIP);
    if l.destinationFirst then [destination, source] else [source, destination]
  }

  /** What follows the protocol number. */
  function PortAttrs(t: IPTuple, l: Layout): seq<RtAttr> {
    var source, destination := Leaf(CTA_PROTO_SRC_PORT, Put16(Big, t.srcPort)), Leaf(CTA_PROTO_DST_PORT, Put16(Big, t.dstPort));
    (if !l.ports then [] else if l.destinationPortFirst then [destination, source] else [source, destination]) + l.extra
  }

  /** The two nests of a tuple in a layout. */
  function LaidOut(t: IPTuple, family: byte, l: Layout): seq<RtAttr> {
    [Nest(CTA_TUPLE_IP, AddressAttrs(t, family, l)),
     Nest(CTA_TUPLE_PROTO, [Leaf(CTA_PROTO_NUM, [t.protocol])] + PortAttrs(t, l))]
  }

  /** The layout that the builder writes. */
  function Written(): Layout {
    Layout(false, true, false, [])
  }

  lemma WrittenLayout(t: IPTuple, family: byte)
    ensures LaidOut(t, family, Written()) == TupleAttrs(t, family)
  {
    hide Put16, SourceType, DestinationType;
    var source, destination := Leaf(CTA_PROTO_SRC_PORT, Put16(Big, t.srcPort)), Leaf(CTA_PROTO_DST_PORT, Put16(Big, t.dstPort));
    assert PortAttrs(t, Written()) == [source, destination];
    assert [Leaf(CTA_PROTO_NUM, [t.protocol])] + [source, destination] == [Leaf(CTA_PROTO_NUM, [t.protocol]), source, destination];
  }

  function Wire(a: Attribute): RtAttr {
    match a
    case Tuple(reply, family, t, l) => Nest(if reply then CTA_TUPLE_REPLY else CTA_TUPLE_ORIG, LaidOut(t, family, l))
    case Mark(v) => Leaf(CTA_MARK, Put32(Big, v))
    case TimeOut(v) => Leaf(CTA_TIMEOUT, Put32(Big, v))
    case Labels(bits) => Leaf(CTA_LABELS, bits)
    case Info(nests) => Nest(CTA_PROTOINFO, WireNests(nests))
    case Zone(v) => Leaf(CTA_ZONE, Put16(Big, v))
    case Counters(reply, first, second) =>
      Nest(if reply then CTA_COUNTERS_REPLY else CTA_COUNTERS_ORIG, [WireCount(first), WireCount(second)])
    case Stamps(one, other) =>
      Nest(CTA_TIMESTAMP, [WireStamp(one)] + if other.Some? then [WireStamp(other.value)] else [])
    case Unhandled(nested, typ, data) => Leaf(if nested && typ < NESTED then NESTED + typ else typ, data)
  }

  /** The attribute numbers of the kernel's interface. */
  lemma WireTypes(a: Attribute)
    ensures match a
            case Tuple(reply, _, _, l) =>
              && Wire(a).typ == (if reply then 0x8002 else 0x8001)
              && Wire(a).children[0].typ == 0x8001 && Wire(a).children[1].typ == 0x8002
              && Wire(a).children[1].children[0].typ == 1
            case Mark(_) => Wire(a).typ == 8
            case TimeOut(_) => Wire(a).typ == 7
            case Labels(_) => Wire(a).typ == 22
            case Info(_) => Wire(a).typ == 0x8004
            case Zone(_) => Wire(a).typ == 18
            case Counters(reply, first, second) =>
              && Wire(a).typ == (if reply then 0x800A else 0x8009)
              && Wire(a).children[0].typ == (if first.Packets? then 1 else 2)
              && Wire(a).children[1].typ == (if second.Packets? then 1 else 2)
            case Stamps(one, _) => Wire(a).typ == 0x8014 && Wire(a).children[0].typ == (if one.Start? then 1 else 2)
            case Unhandled(_, _, _) => true
    ensures SourceType(2) == 1 && DestinationType(2) == 2 && SourceType(10) == 3 && DestinationType(10) == 4
    ensures a.Tuple? && a.layout == Written() ==>
              var ports := Wire(a).children[1].children; |ports| == 3 && ports[1].typ == 2 && ports[2].typ == 3
  {
    hide Put16, Put32, Put64, WireNests;
  }

  function WireAll(attrs: seq<Attribute>): seq<RtAttr> {
    seq(|attrs|, i requires 0 <= i < |attrs| => Wire(attrs[i]))
  }

  /** `ProtoInfoTCP.toNlData`: one TCP nest with the state alone. */
  function StateInfo(state: byte): Attribute {
    Info([TCPNest([State(state)])])
  }

  /** `ConntrackFlow.toNlData`; `None` is an error. */
  function Build(flow: Flow): Option<seq<Attribute>> {
    if !KnownFamily(flow.family) || (flow.labels.Some? && |flow.labels.value| != 16)
       || flow.protoInfo.DCCP? || flow.protoInfo.SCTP? then None
    else
      Some([Tuple(false, flow.family, flow.forward, Written()), Tuple(true, flow.family, flow.reverse, Written()),
            Mark(flow.mark), TimeOut(flow.timeOut)]
           + (if flow.labels.Some? then [Labels(flow.labels.value)] else [])
           + (if flow.protoInfo.TCP? then [StateInfo(flow.protoInfo.state)] else [])
           + (if flow.zone != 0 then [Zone(flow.zone)] else []))
  }

  method AddChild(parent: RtAttr, child: RtAttr) returns (r: RtAttr)
    ensures r == parent.(children := parent.children + [child])
  {
    r := parent.(children := parent.children + [child]);
  }

  /** `IPTuple.toNlData`; it fails for a family it does not know. */
  method TupleToNlData(t: IPTuple, family: byte) returns (r: Option<seq<RtAttr>>)
    ensures r == if KnownFamily(family) then Some(TupleAttrs(t, family)) else None
  {
    var srcType, dstType: uint16;
    if family == AF_INET {
      srcType, dstType := CTA_IP_V4_SRC, CTA_IP_V4_DST;
    } else if family == AF_INET6 {
      srcType, dstType := CTA_IP_V6_SRC, CTA_IP_V6_DST;
    } else {
      return None;
    }
    var ip := RtAttr(NESTED + CTA_TUPLE_IP, [], []);
    ip := AddChild(ip, Leaf(srcType, t.srcIP));
    ip := AddChild(ip, Leaf(dstType, t.dstIP));
    var proto := RtAttr(NESTED + CTA_TUPLE_PROTO, [], []);
    proto := AddChild(proto, Leaf(CTA_PROTO_NUM, [t.protocol]));
    proto := AddChild(proto, Leaf(CTA_PROTO_SRC_PORT, Put16(Big, t.srcPort)));
    proto := AddChild(proto, Leaf(CTA_PROTO_DST_PORT, Put16(Big, t.dstPort)));
    ghost var attrs := TupleAttrs(t, family);
    assert ip.children == attrs[0].children && proto.children == attrs[1].children;
    r := Some([ip, proto]);
  }

  /** Wraps the attributes of one direction. */
  method TupleNest(typ: uint16, t: IPTuple, family: byte) returns (r: Option<RtAttr>)
    requires typ < NESTED
    ensures r == if KnownFamily(family) then Some(Nest(typ, TupleAttrs(t, family))) else None
  {
    hide TupleAttrs;
    var attrs := TupleToNlData(t, family);
    if attrs.None? { return None; }
    var nest := RtAttr(NESTED + typ, [], []);
    for i := 0 to |attrs.value|
      invariant nest == RtAttr(NESTED + typ, [], attrs.value[..i])
    {
      nest := AddChild(nest, attrs.value[i]);
    }
    assert attrs.value[..|attrs.value|] == attrs.value;
    r := Some(nest);
  }

  lemma OnePart(p: TCPPart)
    ensures WireParts([p]) == [WirePart(p)]
  {
    assert [p][1..] == [];
  }

  lemma OneNest(n: InfoNest)
    ensures WireNests([n]) == [WireNest(n)]
  {
    assert [n][1..] == [];
  }

  method TCPToNlData(state: byte) returns (r: seq<RtAttr>)
    ensures r == [Wire(StateInfo(state))]
  {
    var tcp := RtAttr(NESTED + CTA_PROTOINFO_TCP, [], []);
    tcp := AddChild(tcp, Leaf(CTA_PROTOINFO_TCP_STATE, [state]));
    var info := RtAttr(NESTED + CTA_PROTOINFO, [], []);
    info := AddChild(info, tcp);
    OnePart(State(state));
    OneNest(TCPNest([State(state)]));
    assert tcp.children == [Leaf(CTA_PROTOINFO_TCP_STATE, [state])] && info.children == [tcp];
    r := [info];
  }

  /** `ConntrackFlow.toNlData`: it appends exactly the attributes of `Build`, in that order. */
  method ToNlData(flow: Flow) returns (r: Option<seq<RtAttr>>)
    ensures r == match Build(flow) case None => None case Some(attrs) => Some(WireAll(attrs))
  {
    hide TupleAttrs, LaidOut, Put16, Put32;
    WrittenLayout(flow.forward, flow.family);
    WrittenLayout(flow.reverse, flow.family);
    var orig := TupleNest(CTA_TUPLE_ORIG, flow.forward, flow.family);
    if orig.None? { return None; }
    var reply := TupleNest(CTA_TUPLE_REPLY, flow.reverse, flow.family);
    if reply.None? { return None; }
    var payload := [orig.value, reply.value,
                    Leaf(CTA_MARK, Put32(Big, flow.mark)), Leaf(CTA_TIMEOUT, Put32(Big, flow.timeOut))];
    ghost var attrs := [Tuple(false, flow.family, flow.forward, Written()), Tuple(true, flow.family, flow.reverse, Written()),
                        Mark(flow.mark), TimeOut(flow.timeOut)];
    assert payload == WireAll(attrs);
    if flow.labels.Some? {
      if |flow.labels.value| != 16 { return None; }
      payload := payload + [Leaf(CTA_LABELS, flow.labels.value)];
      attrs := attrs + [Labels(flow.labels.value)];
      assert payload == WireAll(attrs);
    }
    if !flow.protoInfo.NoProtoInfo? {
      if !flow.protoInfo.TCP? { return None; }
      var tcp := TCPToNlData(flow.protoInfo.state);
      payload := payload + tcp;
      attrs := attrs + [StateInfo(flow.protoInfo.state)];
      assert payload == WireAll(attrs);
    }
    if flow.zone != 0 {
      payload := payload + [Leaf(CTA_ZONE, Put16(Big, flow.zone))];
      attrs := attrs + [Zone(flow.zone)];
      assert payload == WireAll(attrs);
    }
    assert Build(flow).value == attrs;
    r := Some(payload);
  }

  /* ---------- what the parser should make of an attribute ---------- */

  /** An attribute type that the parser has no case for. */
  predicate NoCase(nested: bool, typ: uint16) {
    && typ < NESTED
    && if nested then
         typ !in {CTA_TUPLE_ORIG, CTA_TUPLE_REPLY, CTA_COUNTERS_ORIG, CTA_COUNTERS_REPLY, CTA_TIMESTAMP, CTA_PROTOINFO}
       else typ !in {CTA_MARK, CTA_LABELS, CTA_TIMEOUT, CTA_ZONE}
  }

  /** Not a state in disguise, and of a length that fits its field. */
  predicate IsPart(p: TCPPart) {
    p.OtherPart? ==> p.typ < NESTED && p.typ != CTA_PROTOINFO_TCP_STATE && HEADER + |p.data| < 0x1_0000
  }

  /** Well-formed inside; an attribute that is no TCP nest does not have its type, 1. */
  predicate IsNest(n: InfoNest) {
    match n
    case TCPNest(parts) => forall p <- parts :: IsPart(p)
    case OtherNest(_, typ, data) => typ < NESTED && typ != 1 && HEADER + |data| < 0x1_0000
  }

  /** Addresses fill whole words (a `net.IP` is empty or has 4 or 16 bytes), and lengths fit their 16-bit field. */
  predicate WellFormed(a: Attribute) {
    match a
    case Tuple(_, _, t, l) =>
      && |t.srcIP| % 4 == 0 && |t.dstIP| % 4 == 0 && |t.srcIP| + |t.dstIP| + ChildrenLen(l.extra) <= 0xF000
      && (HasPorts(t.protocol) ==> l.ports)
    case Labels(bits) => |bits| == 16
    case Info(nests) => (forall n <- nests :: IsNest(n)) && HEADER + ChildrenLen(WireNests(nests)) < 0x1_0000
    case Unhandled(nested, typ, data) => NoCase(nested, typ) && HEADER + |data| < 0x1_0000
    case _ => true
  }

  predicate HasPorts(protocol: byte) {
    protocol == IPPROTO_TCP || protocol == IPPROTO_UDP
  }

  /** Ports are carried for TCP and UDP only. */
  function ApplyTuple(old_: IPTuple, t: IPTuple): IPTuple {
    var withAddresses := old_.(srcIP := t.srcIP, dstIP := t.dstIP, protocol := t.protocol);
    if HasPorts(t.protocol) then
      withAddresses.(srcPort := t.srcPort, dstPort := t.dstPort)
    else withAddresses
  }

  /** The last state of a list, or `was`. */
  function LastState(parts: seq<TCPPart>, was: byte): byte
    decreases |parts|
  {
    if parts == [] then was else LastState(parts[1..], if parts[0].State? then parts[0].state else was)
  }

  /** The protocol that a nest tells: TCP with its last state, DCCP (2), SCTP (3); anything else tells nothing. */
  function Told(n: InfoNest, was: ProtoInfo): ProtoInfo {
    match n
    case TCPNest(parts) => TCP(LastState(parts, 0))
    case OtherNest(_, typ, _) => if typ == 2 then DCCP else if typ == 3 then SCTP else was
  }

  /** The last protocol that is told, or `was`. */
  function LastTold(nests: seq<InfoNest>, was: ProtoInfo): ProtoInfo
    decreases |nests|
  {
    if nests == [] then was else LastTold(nests[1..], Told(nests[0], was))
  }

  function Counted(c: Count, was: Counts): Counts {
    match c
    case Packets(v) => was.(packets := v)
    case Bytes(v) => was.(bytes := v)
  }

  function Stamped(t: Stamp, was: Times): Times {
    match t
    case Start(v) => was.(start := v)
    case Stop(v) => was.(stop := v)
  }

  function Apply(flow: Flow, a: Attribute): Flow {
    match a
    case Tuple(reply, _, t, _) =>
      if reply then flow.(reverse := ApplyTuple(flow.reverse, t)) else flow.(forward := ApplyTuple(flow.forward, t))
    case Mark(v) => flow.(mark := v)
    case TimeOut(v) => flow.(timeOut := v)
    case Labels(bits) => flow.(labels := Some(bits))
    case Info(nests) => flow.(protoInfo := LastTold(nests, NoProtoInfo))
    case Zone(v) => flow.(zone := v)
    case Counters(reply, first, second) =>
      var c := Counted(second, Counted(first, Counts(0, 0)));
      if reply then flow.(reverse := flow.reverse.(bytes := c.bytes, packets := c.packets))
      else flow.(forward := flow.forward.(bytes := c.bytes, packets := c.packets))
    case Stamps(one, other) =>
      var first := Stamped(one, Times(0, 0));
      var t := if other.Some? then Stamped(other.value, first) else first;
      flow.(timeStart := t.start, timeStop := t.stop)
    case Unhandled(_, _, _) => flow
  }

  function ApplyAll(flow: Flow, attrs: seq<Attribute>): Flow
    decreases |attrs|
  {
    if attrs == [] then flow else ApplyAll(Apply(flow, attrs[0]), attrs[1..])
  }

  /** A message: the four header bytes, then the attributes. */
  function Message(e: Endian, family: byte, rest: seq<byte>, attrs: seq<Attribute>): seq<byte>
    requires |rest| == 3 && forall a :: a in attrs ==> WellFormed(a)
  {
    [family] + rest + SerializeAll(e, WireAll(attrs))
  }

  /* ---------- reading pieces that were written ---------- */

  lemma HeadReads(e: Endian, length: nat, typ: uint16, rest: seq<byte>)
    requires HEADER <= length < 0x1_0000
    ensures ReadHead(e, HeaderOf(e, length, typ) + rest) == Head(typ >= NESTED, typ % NESTED, length - HEADER, rest)
  {
    hide Put16, Get16;
    Get16Put16(e, length);
    Get16Put16(e, typ);
    var s := HeaderOf(e, length, typ) + rest;
    assert s[..2] == Put16(e, length) && s[2..] == Put16(e, typ) + rest;
    assert (Put16(e, typ) + rest)[..2] == Put16(e, typ) && (Put16(e, typ) + rest)[2..] == rest;
  }

  lemma LeafBytes(e: Endian, typ: uint16, data: seq<byte>, rest: seq<byte>)
    ensures Serialize(e, Leaf(typ, data)) + rest == HeaderOf(e, HEADER + |data|, typ) + (Padded(data) + rest)
  {
    hide HeaderOf, Padded;
    assert SerializeAll(e, []) == [];
  }

  lemma NestBytes(e: Endian, typ: uint16, children: seq<RtAttr>, rest: seq<byte>)
    requires typ < NESTED
    ensures Serialize(e, Nest(typ, children)) + rest ==
            HeaderOf(e, HEADER + ChildrenLen(children), NESTED + typ) + (SerializeAll(e, children) + rest)
  {
    hide HeaderOf, SerializeAll, ChildrenLen;
    var all, nest := SerializeAll(e, children), Nest(typ, children);
    assert Len(nest) == HEADER + ChildrenLen(children) by {
      SerializedLengths(e, children);
      NoChildren();
    }
    assert Padded([]) + all == all;
    assert Serialize(e, nest) == HeaderOf(e, Len(nest), NESTED + typ) + all;
  }

  /** Reading the header of a nest leaves its children, and what follows the nest. */
  lemma NestReads(e: Endian, typ: uint16, children: seq<RtAttr>, rest: seq<byte>)
    requires typ < NESTED && HEADER + ChildrenLen(children) < 0x1_0000
    ensures ReadHead(e, Serialize(e, Nest(typ, children)) + rest) ==
            Head(true, typ, ChildrenLen(children), SerializeAll(e, children) + rest)
  {
    hide HeaderOf, SerializeAll, ChildrenLen, Serialize, ReadHead;
    NestBytes(e, typ, children, rest);
    HeadReads(e, HEADER + ChildrenLen(children), NESTED + typ, SerializeAll(e, children) + rest);
  }

  /** Reading the header of a leaf leaves its data, the padding, and what follows. */
  lemma LeafReads(e: Endian, typ: uint16, data: seq<byte>, rest: seq<byte>)
    requires HEADER + |data| < 0x1_0000
    ensures ReadHead(e, Serialize(e, Leaf(typ, data)) + rest) ==
            Head(typ >= NESTED, typ % NESTED, |data|, Padded(data) + rest)
  {
    hide HeaderOf, Padded, Serialize, ReadHead;
    LeafBytes(e, typ, data, rest);
    HeadReads(e, HEADER + |data|, typ, Padded(data) + rest);
  }

  lemma AllOfOne(e: Endian, a: RtAttr)
    ensures SerializeAll(e, [a]) == Serialize(e, a) && ChildrenLen([a]) == Align(Len(a))
  {
    hide Serialize, Align, Len;
    assert [a][1..] == [] && SerializeAll(e, []) == [] && ChildrenLen([]) == 0;
  }

  lemma AllOfTwo(e: Endian, a: RtAttr, b: RtAttr)
    ensures SerializeAll(e, [a, b]) == Serialize(e, a) + Serialize(e, b)
    ensures ChildrenLen([a, b]) == Align(Len(a)) + Align(Len(b))
  {
    hide Serialize, Align, Len;
    AllOfOne(e, b);
    assert [a, b][1..] == [b];
  }

  lemma AllOfThree(e: Endian, a: RtAttr, b: RtAttr, c: RtAttr)
    ensures SerializeAll(e, [a, b, c]) == Serialize(e, a) + SerializeAll(e, [b, c])
    ensures ChildrenLen([a, b, c]) == Align(Len(a)) + Align(Len(b)) + Align(Len(c))
  {
    hide Serialize, Align, Len;
    AllOfTwo(e, b, c);
    assert [a, b, c][1..] == [b, c];
  }

  lemma PaddedWords(data: seq<byte>)
    requires |data| % 4 == 0
    ensures Padded(data) == data
  {
  }

  /** A leaf whose data fills whole words. */
  lemma WordLeaf(e: Endian, typ: uint16, data: seq<byte>, rest: seq<byte>)
    requires |data| % 4 == 0 && HEADER + |data| < 0x1_0000
    ensures var s := Serialize(e, Leaf(typ, data)) + rest;
            && ReadHead(e, s) == Head(typ >= NESTED, typ % NESTED, |data|, data + rest)
  {
    LeafBytes(e, typ, data, rest);
    PaddedWords(data);
    HeadReads(e, HEADER + |data|, typ, data + rest);
  }

  lemma SliceReads(data: seq<byte>, rest: seq<byte>)
    ensures ReadSlice(data + rest, |data|) == Read(data, rest)
    ensures Skip(data + rest, |data|) == rest
  {
    TakeConcat(data, rest);
  }

  lemma PutReads16(v: uint16, was: uint16, rest: seq<byte>)
    ensures Read16(Big, Put16(Big, v) + rest, was) == Read(v, rest)
  {
    Get16Put16(Big, v);
    TakeConcat(Put16(Big, v), rest);
  }

  lemma PutReads32(v: uint32, was: uint32, rest: seq<byte>)
    ensures Read32(Big, Put32(Big, v) + rest, was) == Read(v, rest)
  {
    Get32Put32(Big, v);
    TakeConcat(Put32(Big, v), rest);
  }

  lemma PutReads64(v: uint64, was: uint64, rest: seq<byte>)
    ensures Read64(Big, Put64(Big, v) + rest, was) == Read(v, rest)
  {
    Get64Put64(Big, v);
    TakeConcat(Put64(Big, v), rest);
  }

  /* ---------- tuples ---------- */

  lemma AddressReads(e: Endian, family: byte, source: bool, ip: seq<byte>, rest: seq<byte>, tpl: IPTuple)
    requires |ip| % 4 == 0 && |ip| <= 0xF000
    ensures var typ := if source then SourceType(family) else DestinationType(family);
            ReadAddress(e, Serialize(e, Leaf(typ, ip)) + rest, tpl) ==
            Read(if source then tpl.(srcIP := ip) else tpl.(dstIP := ip), rest)
  {
    hide Serialize, ReadHead;
    WordLeaf(e, if source then SourceType(family) else DestinationType(family), ip, rest);
    SliceReads(ip, rest);
  }

  lemma PortReads(e: Endian, source: bool, port: uint16, rest: seq<byte>, tpl: IPTuple, taken: uint16)
    requires taken <= 1000
    ensures var typ := if source then CTA_PROTO_SRC_PORT else CTA_PROTO_DST_PORT;
            ReadPort(e, Ports(tpl, Serialize(e, Leaf(typ, Put16(Big, port))) + rest, taken)) ==
            Ports(if source then tpl.(srcPort := port) else tpl.(dstPort := port), rest, taken + 8)
  {
    hide Serialize, ReadHead, Put16, Read16, HeaderOf;
    var typ := if source then CTA_PROTO_SRC_PORT else CTA_PROTO_DST_PORT;
    var data := Put16(Big, port);
    LeafBytes(e, typ, data, rest);
    assert Padded(data) + rest == data + ([0, 0] + rest);
    HeadReads(e, 6, typ, data + ([0, 0] + rest));
    PutReads16(port, if source then tpl.srcPort else tpl.dstPort, [0, 0] + rest);
    SliceReads([0, 0], rest);
  }

  /** A protocol nest, from its own header on. */
  lemma ProtoNestReads(e: Endian, protocol: byte, others: seq<RtAttr>, rest: seq<byte>)
    requires ChildrenLen(others) <= 0xF010
    ensures var num := Leaf(CTA_PROTO_NUM, [protocol]);
            var after := SerializeAll(e, others) + rest;
            && ReadHead(e, Serialize(e, Nest(CTA_TUPLE_PROTO, [num] + others)) + rest) ==
               Head(true, CTA_TUPLE_PROTO, 8 + ChildrenLen(others), Serialize(e, num) + after)
            && ReadHead(e, Serialize(e, num) + after) == Head(false, CTA_PROTO_NUM, 1, [protocol] + ([0, 0, 0] + after))
  {
    hide HeaderOf, ReadHead, Serialize, SerializeAll, ChildrenLen;
    var num := Leaf(CTA_PROTO_NUM, [protocol]);
    var after := SerializeAll(e, others) + rest;
    AllOfFirst(e, num, others);
    NumberLength(protocol);
    NestReads(e, CTA_TUPLE_PROTO, [num] + others, rest);
    assert SerializeAll(e, [num] + others) + rest == Serialize(e, num) + after;
    LeafReads(e, CTA_PROTO_NUM, [protocol], after);
    assert Padded([protocol]) + after == [protocol] + ([0, 0, 0] + after);
  }

  lemma NumberLength(protocol: byte)
    ensures Align(Len(Leaf(CTA_PROTO_NUM, [protocol]))) == 8
  {
  }

  lemma AllOfFirst(e: Endian, a: RtAttr, others: seq<RtAttr>)
    ensures SerializeAll(e, [a] + others) == Serialize(e, a) + SerializeAll(e, others)
    ensures ChildrenLen([a] + others) == Align(Len(a)) + ChildrenLen(others)
  {
    hide Serialize, Align, Len;
    assert ([a] + others)[1..] == others;
  }

  lemma ProtocolReads(e: Endian, protocol: byte, others: seq<RtAttr>, rest: seq<byte>, tpl: IPTuple)
    requires ChildrenLen(others) <= 0xF010
    ensures ReadProtocol(e, Serialize(e, Nest(CTA_TUPLE_PROTO, [Leaf(CTA_PROTO_NUM, [protocol])] + others)) + rest, tpl) ==
            Some(ReadPorts(e, Ports(tpl.(protocol := protocol), [0, 0, 0] + (SerializeAll(e, others) + rest), 5),
                           8 + ChildrenLen(others)))
  {
    hide Serialize, SerializeAll, ReadHead, ReadPorts, ChildrenLen;
    ProtoNestReads(e, protocol, others, rest);
    SliceReads([protocol], [0, 0, 0] + (SerializeAll(e, others) + rest));
  }

  /** Whatever follows the number of a protocol without ports is skipped whole. */
  lemma OthersAreSkipped(e: Endian, others: seq<RtAttr>, rest: seq<byte>, tpl: IPTuple)
    requires ChildrenLen(others) <= 0xF010 && !HasPorts(tpl.protocol)
    ensures ReadPorts(e, Ports(tpl, [0, 0, 0] + (SerializeAll(e, others) + rest), 5), 8 + ChildrenLen(others)) == Read(tpl, rest)
  {
    hide SerializeAll, ChildrenLen;
    SerializedLengths(e, others);
    var skipped := [0, 0, 0] + SerializeAll(e, others);
    assert [0, 0, 0] + (SerializeAll(e, others) + rest) == skipped + rest;
    SliceReads(skipped, rest);
  }

  lemma ReadPortsTurns(e: Endian, p: Ports, total: uint16)
    requires HasPorts(p.tpl.protocol)
    ensures var q := ReadPort(e, ReadPort(e, Ports(p.tpl, Skip(p.rest, 3), (p.taken + 3) % 0x1_0000)));
            ReadPorts(e, p, total) == Read(q.tpl, Skip(q.rest, (total - q.taken) % 0x1_0000))
  {
    hide ReadPort, Skip;
  }

  /** The two ports in turn; the second leaves the count at 24. */
  lemma TwoPortsRead(e: Endian, t: IPTuple, l: Layout, tail: seq<byte>, tpl: IPTuple)
    requires l.ports
    ensures var others := PortAttrs(t, l);
            ReadPort(e, ReadPort(e, Ports(tpl, Serialize(e, others[0]) + (Serialize(e, others[1]) + tail), 8))) ==
            Ports(tpl.(srcPort := t.srcPort, dstPort := t.dstPort), tail, 24)
  {
    hide Serialize, ReadHead, ReadPort, Put16;
    var others := PortAttrs(t, l);
    if l.destinationPortFirst {
      PortReads(e, false, t.dstPort, Serialize(e, others[1]) + tail, tpl, 8);
      PortReads(e, true, t.srcPort, tail, tpl.(dstPort := t.dstPort), 16);
    } else {
      PortReads(e, true, t.srcPort, Serialize(e, others[1]) + tail, tpl, 8);
      PortReads(e, false, t.dstPort, tail, tpl.(srcPort := t.srcPort), 16);
    }
  }

  /** Two ports in either order, and whatever follows them. */
  lemma PortsAreRead(e: Endian, t: IPTuple, l: Layout, rest: seq<byte>, tpl: IPTuple)
    requires ChildrenLen(l.extra) <= 0xF000 && HasPorts(tpl.protocol) && l.ports
    ensures var others := PortAttrs(t, l);
            && ChildrenLen(others) == 16 + ChildrenLen(l.extra)
            && ReadPorts(e, Ports(tpl, [0, 0, 0] + (SerializeAll(e, others) + rest), 5), 8 + ChildrenLen(others)) ==
               Read(tpl.(srcPort := t.srcPort, dstPort := t.dstPort), rest)
  {
    hide Serialize, SerializeAll, ChildrenLen, ReadPort, ReadPorts, PortAttrs, Skip, HasPorts;
    var others := PortAttrs(t, l);
    PortSizes(e, t, l);
    var tail := SerializeAll(e, l.extra) + rest;
    var after := Serialize(e, others[0]) + (Serialize(e, others[1]) + tail);
    assert SerializeAll(e, others) + rest == after;
    SliceReads([0, 0, 0], after);
    SerializedLengths(e, l.extra);
    ReadPortsTurns(e, Ports(tpl, [0, 0, 0] + after, 5), 24 + ChildrenLen(l.extra));
    TwoPortsRead(e, t, l, tail, tpl);
    SliceReads(SerializeAll(e, l.extra), rest);
  }

  lemma PortSizes(e: Endian, t: IPTuple, l: Layout)
    requires l.ports
    ensures var others := PortAttrs(t, l);
            && |others| >= 2
            && SerializeAll(e, others) == Serialize(e, others[0]) + (Serialize(e, others[1]) + SerializeAll(e, l.extra))
            && ChildrenLen(others) == 16 + ChildrenLen(l.extra)
  {
    hide Serialize, SerializeAll, ChildrenLen, Put16;
    var others := PortAttrs(t, l);
    AllOfFirst(e, others[1], l.extra);
    AllOfFirst(e, others[0], [others[1]] + l.extra);
    assert others == [others[0]] + ([others[1]] + l.extra);
  }

  /** The inside of an address nest followed by the protocol nest, in any layout: both are read whole, and nothing more. */
  lemma LaidOutReads(e: Endian, family: byte, t: IPTuple, l: Layout, rest: seq<byte>, tpl: IPTuple)
    requires WellFormed(Tuple(false, family, t, l))
    ensures var attrs := LaidOut(t, family, l);
            ReadTuple(e, SerializeAll(e, attrs[0].children) + (Serialize(e, attrs[1]) + rest), tpl) ==
            Some(Read(ApplyTuple(tpl, t), rest))
  {
    hide Serialize, SerializeAll, ReadAddress, ReadProtocol, ReadPorts, SourceType, DestinationType, PortAttrs, ChildrenLen;
    var attrs := LaidOut(t, family, l);
    var ip := attrs[0].children;
    var s2 := Serialize(e, attrs[1]) + rest;
    var s1 := Serialize(e, ip[1]) + s2;
    AllOfTwo(e, ip[0], ip[1]);
    assert SerializeAll(e, ip) + s2 == Serialize(e, ip[0]) + s1;
    if l.destinationFirst {
      AddressReads(e, family, false, t.dstIP, s1, tpl);
      AddressReads(e, family, true, t.srcIP, s2, tpl.(dstIP := t.dstIP));
    } else {
      AddressReads(e, family, true, t.srcIP, s1, tpl);
      AddressReads(e, family, false, t.dstIP, s2, tpl.(srcIP := t.srcIP));
    }
    var named := tpl.(srcIP := t.srcIP, dstIP := t.dstIP);
    ProtoSize(e, t, l);
    ProtocolReads(e, t.protocol, PortAttrs(t, l), rest, named);
    if HasPorts(t.protocol) {
      PortsAreRead(e, t, l, rest, named.(protocol := t.protocol));
    } else {
      OthersAreSkipped(e, PortAttrs(t, l), rest, named.(protocol := t.protocol));
    }
  }

  lemma ProtoSize(e: Endian, t: IPTuple, l: Layout)
    ensures ChildrenLen(PortAttrs(t, l)) <= 16 + ChildrenLen(l.extra)
  {
    hide ChildrenLen;
    if l.ports {
      PortSizes(e, t, l);
    } else {
      assert [] + l.extra == l.extra;
    }
  }

  /** The layout of the builder. */
  lemma TupleReads(e: Endian, family: byte, t: IPTuple, rest: seq<byte>, tpl: IPTuple)
    requires |t.srcIP| % 4 == 0 && |t.dstIP| % 4 == 0 && |t.srcIP| + |t.dstIP| <= 0xF000
    ensures var attrs := TupleAttrs(t, family);
            ReadTuple(e, SerializeAll(e, attrs[0].children) + (Serialize(e, attrs[1]) + rest), tpl) ==
            Some(Read(ApplyTuple(tpl, t), rest))
  {
    hide Serialize, SerializeAll, ReadTuple, TupleAttrs, LaidOut;
    WrittenLayout(t, family);
    NoChildren();
    LaidOutReads(e, family, t, Written(), rest, tpl);
  }

  /* ---------- one attribute, one turn of the loop ---------- */

  /** A turn of the loop takes exactly this attribute and applies it: the cursor ends on the next boundary. */
  predicate StepsOver(e: Endian, flow: Flow, a: Attribute, rest: seq<byte>)
    requires WellFormed(a)
  {
    var s := Serialize(e, Wire(a)) + rest;
    s != [] && Step(e, flow, s) == Some(Read(Apply(flow, a), rest))
  }

  lemma NotEmpty(e: Endian, a: RtAttr, rest: seq<byte>)
    ensures Serialize(e, a) + rest != []
  {
  }

  /** A turn of the loop dispatches on the header. */
  lemma StepByHead(e: Endian, flow: Flow, s: seq<byte>)
    requires s != []
    ensures var h := ReadHead(e, s);
            Step(e, flow, s) == if h.nested then ReadNested(e, flow, h) else Some(ReadPlain(flow, h))
  {
  }

  lemma NestedTuple(e: Endian, flow: Flow, h: Head, reply: bool)
    requires h.typ == if reply then CTA_TUPLE_REPLY else CTA_TUPLE_ORIG
    ensures var ip := ReadHead(e, h.rest);
            ip.nested && ip.typ == CTA_TUPLE_IP ==>
              ReadNested(e, flow, h) ==
              match ReadTuple(e, ip.rest, if reply then flow.reverse else flow.forward)
              case None => None
              case Some(t) => Some(Read(if reply then flow.(reverse := t.value) else flow.(forward := t.value), t.rest))
  {
    hide ReadHead, ReadTuple, ReadCounters, ReadTimes, ReadProtoInfo, SkipValue;
  }

  lemma TupleSteps(e: Endian, flow: Flow, reply: bool, family: byte, t: IPTuple, l: Layout, rest: seq<byte>)
    requires WellFormed(Tuple(reply, family, t, l))
    ensures StepsOver(e, flow, Tuple(reply, family, t, l), rest)
  {
    hide Serialize, SerializeAll, ChildrenLen, ReadHead, ReadTuple, HeaderOf, Step, ReadNested, ReadPlain, ApplyTuple, LaidOut,
      WellFormed;
    var attrs := LaidOut(t, family, l);
    var typ := if reply then CTA_TUPLE_REPLY else CTA_TUPLE_ORIG;
    var ip, proto := TwoNests(t, family, l);
    var s := Serialize(e, Nest(typ, attrs)) + rest;
    NotEmpty(e, Nest(typ, attrs), rest);
    TupleLengths(e, t, family, l);
    NestReads(e, typ, attrs, rest);
    AllOfTwo(e, ip, proto);
    assert SerializeAll(e, attrs) + rest == Serialize(e, ip) + (Serialize(e, proto) + rest);
    NestReads(e, CTA_TUPLE_IP, ip.children, Serialize(e, proto) + rest);
    EitherDirection(family, t, l);
    LaidOutReads(e, family, t, l, rest, if reply then flow.reverse else flow.forward);
    StepByHead(e, flow, s);
    NestedTuple(e, flow, ReadHead(e, s), reply);
  }

  lemma EitherDirection(family: byte, t: IPTuple, l: Layout)
    ensures WellFormed(Tuple(false, family, t, l)) == WellFormed(Tuple(true, family, t, l))
  {
  }

  lemma TwoNests(t: IPTuple, family: byte, l: Layout) returns (ip: RtAttr, proto: RtAttr)
    ensures LaidOut(t, family, l) == [ip, proto]
    ensures ip == Nest(CTA_TUPLE_IP, ip.children) && ip.children != []
  {
    ip, proto := LaidOut(t, family, l)[0], LaidOut(t, family, l)[1];
  }

  lemma TupleLengths(e: Endian, t: IPTuple, family: byte, l: Layout)
    requires WellFormed(Tuple(false, family, t, l)) || WellFormed(Tuple(true, family, t, l))
    ensures var attrs := LaidOut(t, family, l);
            HEADER + ChildrenLen(attrs) < 0x1_0000 && HEADER + ChildrenLen(attrs[0].children) < 0x1_0000
  {
    hide Serialize, SerializeAll, ChildrenLen, SourceType, DestinationType, PortAttrs, Align, Len;
    var attrs := LaidOut(t, family, l);
    var ip, proto := attrs[0].children, attrs[1].children;
    AllOfTwo(e, attrs[0], attrs[1]);
    AllOfTwo(e, ip[0], ip[1]);
    WordLength(ip[0].typ, ip[0].data);
    WordLength(ip[1].typ, ip[1].data);
    ProtoSize(e, t, l);
    AllOfFirst(e, Leaf(CTA_PROTO_NUM, [t.protocol]), PortAttrs(t, l));
    NumberLength(t.protocol);
    NestLength(e, CTA_TUPLE_IP, ip);
    NestLength(e, CTA_TUPLE_PROTO, proto);
  }

  lemma WordLength(typ: uint16, data: seq<byte>)
    requires |data| % 4 == 0
    ensures Align(Len(Leaf(typ, data))) == HEADER + |data|
  {
  }

  lemma WordSteps(e: Endian, flow: Flow, a: Attribute, rest: seq<byte>)
    requires a.Mark? || a.TimeOut? || (a.Labels? && |a.bits| == 16)
    ensures StepsOver(e, flow, a, rest)
  {
    hide Serialize, ReadHead, Put32, Read32;
    var leaf := Wire(a);
    NotEmpty(e, leaf, rest);
    WordLeaf(e, leaf.typ, leaf.data, rest);
    match a
    case Mark(v) => PutReads32(v, 0, rest);
    case TimeOut(v) => PutReads32(v, 0, rest);
    case Labels(bits) => SliceReads(bits, rest);
  }

  lemma ZoneSteps(e: Endian, flow: Flow, zone: uint16, rest: seq<byte>)
    ensures StepsOver(e, flow, Zone(zone), rest)
  {
    hide Serialize, ReadHead, Put16, Read16, ReadNested;
    var data := Put16(Big, zone);
    NotEmpty(e, Leaf(CTA_ZONE, data), rest);
    LeafReads(e, CTA_ZONE, data, rest);
    assert Padded(data) + rest == data + ([0, 0] + rest);
    PutReads16(zone, 0, [0, 0] + rest);
    SliceReads([0, 0], rest);
  }

  lemma UnhandledSteps(e: Endian, flow: Flow, nested: bool, typ: uint16, data: seq<byte>, rest: seq<byte>)
    requires WellFormed(Unhandled(nested, typ, data))
    ensures StepsOver(e, flow, Unhandled(nested, typ, data), rest)
  {
    hide Serialize, ReadHead, Step, ReadNested, ReadPlain, Padded, NoCase;
    NoCaseSmall(nested, typ);
    var wire := if nested then NESTED + typ else typ;
    assert wire % NESTED == typ;
    var s := Serialize(e, Leaf(wire, data)) + rest;
    NotEmpty(e, Leaf(wire, data), rest);
    LeafReads(e, wire, data, rest);
    StepByHead(e, flow, s);
    NoCaseSkips(e, flow, ReadHead(e, s));
    assert AlignWrapped(|data|) == Align(|data|);
    SliceReads(Padded(data), rest);
  }

  lemma NoCaseSmall(nested: bool, typ: uint16)
    requires NoCase(nested, typ)
    ensures typ < NESTED
  {
  }

  lemma NoCaseSkips(e: Endian, flow: Flow, h: Head)
    requires NoCase(h.nested, h.typ)
    ensures h.nested ==> ReadNested(e, flow, h) == Some(Read(flow, SkipValue(h.rest, h.len)))
    ensures !h.nested ==> ReadPlain(flow, h) == Read(flow, SkipValue(h.rest, h.len))
  {
    hide SkipValue;
  }

  lemma StateReads(e: Endian, s: byte, rest: seq<byte>, len: uint16, taken: nat, state: byte)
    requires taken < len
    ensures ReadTCP(e, Serialize(e, WirePart(State(s))) + rest, len, taken, state) == ReadTCP(e, rest, len, taken + 8, s)
  {
    hide Serialize, ReadHead, ReadTCP, Padded, SkipValue, Len, Align;
    ReadTCPTurn(e, Serialize(e, WirePart(State(s))) + rest, len, taken, state);
    LeafReads(e, CTA_PROTOINFO_TCP_STATE, [s], rest);
    StatePadding(s, rest);
    SliceReads([0, 0, 0], rest);
  }

  lemma OtherReads(e: Endian, p: TCPPart, rest: seq<byte>, len: uint16, taken: nat, state: byte)
    requires IsPart(p) && p.OtherPart? && taken < len
    ensures ReadTCP(e, Serialize(e, WirePart(p)) + rest, len, taken, state) ==
            ReadTCP(e, rest, len, taken + HEADER + Align(|p.data|), state)
  {
    hide Serialize, ReadHead, ReadTCP, Padded, SkipValue, Len, Align, AlignWrapped, WirePart;
    ReadTCPTurn(e, Serialize(e, WirePart(p)) + rest, len, taken, state);
    OtherHead(e, p, rest);
    SkipPadded(p.data, rest);
  }

  lemma OtherHead(e: Endian, p: TCPPart, rest: seq<byte>)
    requires IsPart(p) && p.OtherPart?
    ensures ReadHead(e, Serialize(e, WirePart(p)) + rest) == Head(p.nested, p.typ, |p.data|, Padded(p.data) + rest)
  {
    hide Serialize, ReadHead, Padded;
    LeafReads(e, if p.nested then NESTED + p.typ else p.typ, p.data, rest);
  }

  /** One attribute of a TCP nest, from its header on: a state is taken, anything else is skipped. */
  lemma PartReads(e: Endian, p: TCPPart, rest: seq<byte>, len: uint16, taken: nat, state: byte)
    requires IsPart(p) && taken < len
    ensures ReadTCP(e, Serialize(e, WirePart(p)) + rest, len, taken, state) ==
            ReadTCP(e, rest, len, taken + Align(Len(WirePart(p))), if p.State? then p.state else state)
  {
    hide Serialize, ReadTCP;
    match p
    case State(s) => StateReads(e, s, rest, len, taken, state);
    case OtherPart(_, _, data) =>
      OtherReads(e, p, rest, len, taken, state);
      SkipPadded(data, rest);
  }

  lemma StatePadding(state: byte, rest: seq<byte>)
    ensures Padded([state]) + rest == [state] + ([0, 0, 0] + rest)
    ensures ([state] + ([0, 0, 0] + rest))[1..] == [0, 0, 0] + rest
  {
  }

  lemma SkipPadded(data: seq<byte>, rest: seq<byte>)
    requires HEADER + |data| < 0x1_0000
    ensures SkipValue(Padded(data) + rest, |data|) == rest
    ensures AlignWrapped(|data|) == Align(|data|) && HEADER + Align(|data|) == Align(HEADER + |data|)
  {
    assert AlignWrapped(|data|) == Align(|data|);
    SliceReads(Padded(data), rest);
  }

  lemma ReadTCPTurn(e: Endian, s: seq<byte>, len: uint16, taken: nat, state: byte)
    requires taken < len
    ensures var h := ReadHead(e, s);
            ReadTCP(e, s, len, taken, state) ==
            if h.typ == CTA_PROTOINFO_TCP_STATE then
              ReadTCP(e, Skip(Read8(h.rest, 0).rest, 3), len, taken + 8, Read8(h.rest, 0).value)
            else ReadTCP(e, SkipValue(h.rest, h.len), len, taken + 4 + AlignWrapped(h.len), state)
  {
    hide ReadHead, Skip, SkipValue;
  }

  /** A TCP nest that holds any list of attributes is read to its last state, and exactly to its end. */
  lemma {:induction false} PartsRead(e: Endian, parts: seq<TCPPart>, rest: seq<byte>, len: uint16, taken: nat, state: byte)
    requires (forall p <- parts :: IsPart(p)) && len == taken + ChildrenLen(WireParts(parts))
    ensures ReadTCP(e, SerializeAll(e, WireParts(parts)) + rest, len, taken, state) == Read(LastState(parts, state), rest)
    decreases |parts|
  {
    hide Serialize, SerializeAll, ChildrenLen, WireParts, ReadHead, Len, Align, IsPart, ReadTCP, Skip, SkipValue;
    PartsSplit(e, parts);
    if parts == [] {
      assert [] + rest == rest;
      ReadTCPEnd(e, rest, len, taken, state);
    } else {
      var first, tail := WirePart(parts[0]), SerializeAll(e, WireParts(parts[1..])) + rest;
      PartTakes(parts[0]);
      assert SerializeAll(e, WireParts(parts)) + rest == Serialize(e, first) + tail;
      PartReads(e, parts[0], tail, len, taken, state);
      PartsRead(e, parts[1..], rest, len, taken + Align(Len(first)), if parts[0].State? then parts[0].state else state);
    }
  }

  lemma PartsSplit(e: Endian, parts: seq<TCPPart>)
    ensures var wire := WireParts(parts);
            if parts == [] then SerializeAll(e, wire) == [] && ChildrenLen(wire) == 0
            else
              var first, tail := WirePart(parts[0]), WireParts(parts[1..]);
              && SerializeAll(e, wire) == Serialize(e, first) + SerializeAll(e, tail)
              && ChildrenLen(wire) == Align(Len(first)) + ChildrenLen(tail)
  {
    hide Serialize, Len, Align;
    if parts != [] { assert WireParts(parts)[1..] == WireParts(parts[1..]); }
  }

  lemma ReadTCPEnd(e: Endian, s: seq<byte>, len: uint16, taken: nat, state: byte)
    requires taken >= len
    ensures ReadTCP(e, s, len, taken, state) == Read(state, s)
  {
  }

  lemma PartTakes(p: TCPPart)
    ensures Align(Len(WirePart(p))) >= HEADER
  {
  }

  lemma OneState(e: Endian, state: byte)
    ensures LastTold([TCPNest([State(state)])], NoProtoInfo) == TCP(state) && WellFormed(StateInfo(state))
  {
    var nest := TCPNest([State(state)]);
    OnePart(State(state));
    OneNest(nest);
    AllOfOne(e, WirePart(State(state)));
    AllOfOne(e, WireNest(nest));
    NestLength(e, 1, [WirePart(State(state))]);
    assert [State(state)][1..] == [] && [nest][1..] == [];
    assert forall part <- [State(state)] :: IsPart(part);
    assert forall n <- [nest] :: IsNest(n);
    assert LastState([State(state)], 0) == state;
  }

  /** One turn of the loop over protocol information. */
  lemma ReadInfoTurn(e: Endian, s: seq<byte>, len: uint16, taken: nat, p: ProtoInfo)
    requires taken < len
    ensures var h := ReadHead(e, s);
            ReadProtoInfo(e, s, len, taken, p) ==
            if h.typ == CTA_PROTOINFO_TCP then
              var tcp := ReadTCP(e, h.rest, h.len, 0, 0);
              ReadProtoInfo(e, tcp.rest, len, taken + 4 + h.len, TCP(tcp.value))
            else
              ReadProtoInfo(e, SkipValue(h.rest, h.len), len, taken + 4 + AlignWrapped(h.len),
                            if h.typ == CTA_PROTOINFO_DCCP then DCCP else if h.typ == CTA_PROTOINFO_SCTP then SCTP else p)
  {
    hide ReadHead, SkipValue, ReadTCP;
  }

  lemma ReadInfoEnd(e: Endian, s: seq<byte>, len: uint16, taken: nat, p: ProtoInfo)
    requires taken >= len
    ensures ReadProtoInfo(e, s, len, taken, p) == Read(p, s)
  {
  }

  /** A TCP nest takes its whole length and tells its last state. */
  lemma TCPNestReads(e: Endian, parts: seq<TCPPart>, rest: seq<byte>, len: uint16, taken: nat, p: ProtoInfo)
    requires (forall part <- parts :: IsPart(part)) && HEADER + ChildrenLen(WireParts(parts)) < 0x1_0000 && taken < len
    ensures ReadProtoInfo(e, Serialize(e, Nest(1, WireParts(parts))) + rest, len, taken, p) ==
            ReadProtoInfo(e, rest, len, taken + Align(Len(Nest(1, WireParts(parts)))), TCP(LastState(parts, 0)))
  {
    hide Serialize, SerializeAll, ChildrenLen, ReadHead, ReadTCP, ReadProtoInfo, WireParts, LastState, IsPart, Len, Align;
    var children := WireParts(parts);
    ReadInfoTurn(e, Serialize(e, Nest(1, children)) + rest, len, taken, p);
    NestReads(e, 1, children, rest);
    NestLength(e, 1, children);
    PartsRead(e, parts, rest, ChildrenLen(children), 0, 0);
  }

  /** Any other attribute is skipped whole, whatever it holds. */
  lemma OtherNestReads(e: Endian, n: InfoNest, rest: seq<byte>, len: uint16, taken: nat, p: ProtoInfo)
    requires IsNest(n) && n.OtherNest? && taken < len
    ensures ReadProtoInfo(e, Serialize(e, WireNest(n)) + rest, len, taken, p) ==
            ReadProtoInfo(e, rest, len, taken + Align(Len(WireNest(n))), Told(n, p))
  {
    hide Serialize, ReadHead, ReadProtoInfo, Padded, SkipValue, Align, AlignWrapped;
    ReadInfoTurn(e, Serialize(e, WireNest(n)) + rest, len, taken, p);
    LeafReads(e, if n.nested then NESTED + n.typ else n.typ, n.data, rest);
    SkipPadded(n.data, rest);
  }

  /** Protocol information that holds any list of nests is read to the last protocol told, and exactly to its end. */
  lemma {:induction false} NestsRead(e: Endian, nests: seq<InfoNest>, rest: seq<byte>, len: uint16, taken: nat, p: ProtoInfo)
    requires (forall n <- nests :: IsNest(n)) && len == taken + ChildrenLen(WireNests(nests))
    ensures ReadProtoInfo(e, SerializeAll(e, WireNests(nests)) + rest, len, taken, p) == Read(LastTold(nests, p), rest)
    decreases |nests|
  {
    hide Serialize, SerializeAll, ChildrenLen, WireNests, Len, Align, IsNest, ReadProtoInfo, Told, WireNest;
    NestsSplit(e, nests);
    if nests == [] {
      assert [] + rest == rest;
      ReadInfoEnd(e, rest, len, taken, p);
    } else {
      var first, tail := WireNest(nests[0]), SerializeAll(e, WireNests(nests[1..])) + rest;
      assert SerializeAll(e, WireNests(nests)) + rest == Serialize(e, first) + tail;
      NestTakes(e, nests[0]);
      NestTells(e, nests[0], tail, len, taken, p);
      NestsRead(e, nests[1..], rest, len, taken + Align(Len(first)), Told(nests[0], p));
    }
  }

  lemma NestTells(e: Endian, n: InfoNest, rest: seq<byte>, len: uint16, taken: nat, p: ProtoInfo)
    requires IsNest(n) && taken < len && Align(Len(WireNest(n))) <= 0xFFFF
    ensures ReadProtoInfo(e, Serialize(e, WireNest(n)) + rest, len, taken, p) ==
            ReadProtoInfo(e, rest, len, taken + Align(Len(WireNest(n))), Told(n, p))
  {
    hide Serialize, ReadProtoInfo, ChildrenLen, WireParts, Align, Len, LastState, IsPart;
    if n.TCPNest? {
      NestLength(e, 1, WireParts(n.parts));
      TCPNestReads(e, n.parts, rest, len, taken, p);
    } else {
      OtherNestReads(e, n, rest, len, taken, p);
    }
  }

  lemma NestTakes(e: Endian, n: InfoNest)
    ensures Align(Len(WireNest(n))) >= HEADER
  {
  }

  lemma NestsSplit(e: Endian, nests: seq<InfoNest>)
    ensures var wire := WireNests(nests);
            if nests == [] then SerializeAll(e, wire) == [] && ChildrenLen(wire) == 0
            else
              var first, tail := WireNest(nests[0]), WireNests(nests[1..]);
              && SerializeAll(e, wire) == Serialize(e, first) + SerializeAll(e, tail)
              && ChildrenLen(wire) == Align(Len(first)) + ChildrenLen(tail)
  {
    hide Serialize, Len, Align;
    if nests != [] { assert WireNests(nests)[1..] == WireNests(nests[1..]); }
  }

  lemma NestLength(e: Endian, typ: uint16, children: seq<RtAttr>)
    requires typ < NESTED
    ensures Align(Len(Nest(typ, children))) == HEADER + ChildrenLen(children)
  {
    hide ChildrenLen;
    SerializedLengths(e, children);
    assert ChildrenLen([]) == 0 by { NoChildren(); }
  }

  lemma NoChildren()
    ensures ChildrenLen([]) == 0
  {
  }

  lemma InfoTurn(e: Endian, flow: Flow, s: seq<byte>, len: uint16, body: seq<byte>)
    requires s != [] && ReadHead(e, s) == Head(true, CTA_PROTOINFO, len, body)
    ensures var p := ReadProtoInfo(e, body, len, 0, NoProtoInfo);
            Step(e, flow, s) == Some(Read(flow.(protoInfo := p.value), p.rest))
  {
    hide ReadHead, ReadTimes, ReadTuple, ReadCounters, ReadProtoInfo;
  }

  lemma InfoSteps(e: Endian, flow: Flow, nests: seq<InfoNest>, rest: seq<byte>)
    requires WellFormed(Info(nests))
    ensures StepsOver(e, flow, Info(nests), rest)
  {
    hide Serialize, SerializeAll, ChildrenLen, ReadHead, Step, ReadProtoInfo, WireNests, LastTold, IsNest;
    var children := WireNests(nests);
    var wire := Nest(CTA_PROTOINFO, children);
    NotEmpty(e, wire, rest);
    NestReads(e, CTA_PROTOINFO, children, rest);
    NestsRead(e, nests, rest, ChildrenLen(children), 0, NoProtoInfo);
    InfoTurn(e, flow, Serialize(e, wire) + rest, ChildrenLen(children), SerializeAll(e, children) + rest);
  }

  /** Two 64-bit values under one nest. */
  lemma PairBytes(e: Endian, typ: uint16, typ1: uint16, v1: uint64, typ2: uint16, v2: uint64, rest: seq<byte>)
    requires typ < NESTED && typ1 < NESTED && typ2 < NESTED
    ensures var a, b := Leaf(typ1, Put64(Big, v1)), Leaf(typ2, Put64(Big, v2));
            var s1 := Serialize(e, b) + rest;
            && ReadHead(e, Serialize(e, Nest(typ, [a, b])) + rest) == Head(true, typ, 24, Serialize(e, a) + s1)
            && ReadHead(e, Serialize(e, a) + s1) == Head(false, typ1, 8, Put64(Big, v1) + s1)
            && ReadHead(e, s1) == Head(false, typ2, 8, Put64(Big, v2) + rest)
  {
    hide Serialize, SerializeAll, ChildrenLen, ReadHead, Put64;
    var a, b := Leaf(typ1, Put64(Big, v1)), Leaf(typ2, Put64(Big, v2));
    var s1 := Serialize(e, b) + rest;
    AllOfTwo(e, a, b);
    NestReads(e, typ, [a, b], rest);
    assert SerializeAll(e, [a, b]) + rest == Serialize(e, a) + s1;
    WordLeaf(e, typ1, Put64(Big, v1), s1);
    WordLeaf(e, typ2, Put64(Big, v2), rest);
  }

  lemma CountersTurn(e: Endian, flow: Flow, s: seq<byte>, reply: bool, len: uint16, body: seq<byte>)
    requires s != []
    requires ReadHead(e, s) == Head(true, if reply then CTA_COUNTERS_REPLY else CTA_COUNTERS_ORIG, len, body)
    ensures var c := ReadCounters(e, body, Counts(0, 0), 2);
            Step(e, flow, s) ==
            Some(Read(if reply then flow.(reverse := flow.reverse.(bytes := c.value.bytes, packets := c.value.packets))
                      else flow.(forward := flow.forward.(bytes := c.value.bytes, packets := c.value.packets)), c.rest))
  {
    hide ReadHead, ReadTimes, ReadTuple, ReadCounters, ReadProtoInfo;
  }

  function CountType(c: Count): uint16 {
    if c.Packets? then CTA_COUNTERS_PACKETS else CTA_COUNTERS_BYTES
  }

  function CountValue(c: Count): uint64 {
    if c.Packets? then c.packets else c.bytes
  }

  /** One item, from its header on. */
  lemma CountReads(e: Endian, s: seq<byte>, c: Count, rest: seq<byte>, was: Counts, turns: nat)
    requires turns > 0 && ReadHead(e, s) == Head(false, CountType(c), 8, Put64(Big, CountValue(c)) + rest)
    ensures ReadCounters(e, s, was, turns) == ReadCounters(e, rest, Counted(c, was), turns - 1)
  {
    hide ReadHead, Put64, Read64;
    PutReads64(CountValue(c), if c.Packets? then was.packets else was.bytes, rest);
  }

  lemma CountersRead(e: Endian, first: Count, second: Count, rest: seq<byte>)
    ensures ReadCounters(e, Serialize(e, WireCount(first)) + (Serialize(e, WireCount(second)) + rest), Counts(0, 0), 2) ==
            Read(Counted(second, Counted(first, Counts(0, 0))), rest)
  {
    hide Serialize, ReadHead, Put64, ReadCounters;
    var s1 := Serialize(e, WireCount(second)) + rest;
    PairBytes(e, CTA_COUNTERS_ORIG, CountType(first), CountValue(first), CountType(second), CountValue(second), rest);
    CountReads(e, Serialize(e, WireCount(first)) + s1, first, s1, Counts(0, 0), 2);
    CountReads(e, s1, second, rest, Counted(first, Counts(0, 0)), 1);
    NoCountsLeft(e, rest, Counted(second, Counted(first, Counts(0, 0))));
  }

  lemma NoCountsLeft(e: Endian, s: seq<byte>, c: Counts)
    ensures ReadCounters(e, s, c, 0) == Read(c, s)
  {
  }

  lemma CountersSteps(e: Endian, flow: Flow, reply: bool, first: Count, second: Count, rest: seq<byte>)
    ensures StepsOver(e, flow, Counters(reply, first, second), rest)
  {
    hide Serialize, ReadHead, Put64, ReadCounters, Step;
    var wire := Wire(Counters(reply, first, second));
    var typ := if reply then CTA_COUNTERS_REPLY else CTA_COUNTERS_ORIG;
    NotEmpty(e, wire, rest);
    PairBytes(e, typ, CountType(first), CountValue(first), CountType(second), CountValue(second), rest);
    CountersRead(e, first, second, rest);
    CountersTurn(e, flow, Serialize(e, wire) + rest, reply, 24,
                 Serialize(e, WireCount(first)) + (Serialize(e, WireCount(second)) + rest));
  }

  /** A turn of the loop over timestamps: the nest's length says how many to read. */
  lemma StampsTurn(e: Endian, flow: Flow, s: seq<byte>, turns: nat, body: seq<byte>)
    requires s != [] && turns <= 2 && ReadHead(e, s) == Head(true, CTA_TIMESTAMP, turns * 12, body)
    ensures var t := ReadTimes(e, body, Times(0, 0), turns);
            Step(e, flow, s) == Some(Read(flow.(timeStart := t.value.start, timeStop := t.value.stop), t.rest))
  {
    hide ReadHead, ReadTimes, ReadTuple, ReadCounters, ReadProtoInfo;
  }

  function StampType(t: Stamp): uint16 {
    if t.Start? then CTA_TIMESTAMP_START else CTA_TIMESTAMP_STOP
  }

  function StampValue(t: Stamp): uint64 {
    if t.Start? then t.start else t.stop
  }

  /** One item, from its header on. */
  lemma StampReads(e: Endian, s: seq<byte>, t: Stamp, rest: seq<byte>, was: Times, turns: nat)
    requires turns > 0 && ReadHead(e, s) == Head(false, StampType(t), 8, Put64(Big, StampValue(t)) + rest)
    ensures ReadTimes(e, s, was, turns) == ReadTimes(e, rest, Stamped(t, was), turns - 1)
  {
    hide ReadHead, Put64, Read64;
    PutReads64(StampValue(t), if t.Start? then was.start else was.stop, rest);
  }

  lemma NoStampsLeft(e: Endian, s: seq<byte>, t: Times)
    ensures ReadTimes(e, s, t, 0) == Read(t, s)
  {
  }

  lemma StampsSteps(e: Endian, flow: Flow, one: Stamp, other: Option<Stamp>, rest: seq<byte>)
    ensures StepsOver(e, flow, Stamps(one, other), rest)
  {
    hide Serialize, ReadHead, Put64, ReadTimes, Step;
    var wire := Wire(Stamps(one, other));
    var first := WireStamp(one);
    var s := Serialize(e, wire) + rest;
    NotEmpty(e, wire, rest);
    if other.Some? {
      var second := WireStamp(other.value);
      assert wire == Nest(CTA_TIMESTAMP, [first, second]);
      var s1 := Serialize(e, second) + rest;
      PairBytes(e, CTA_TIMESTAMP, StampType(one), StampValue(one), StampType(other.value), StampValue(other.value), rest);
      StampReads(e, Serialize(e, first) + s1, one, s1, Times(0, 0), 2);
      StampReads(e, s1, other.value, rest, Stamped(one, Times(0, 0)), 1);
      NoStampsLeft(e, rest, Stamped(other.value, Stamped(one, Times(0, 0))));
      StampsTurn(e, flow, s, 2, Serialize(e, first) + s1);
    } else {
      assert wire == Nest(CTA_TIMESTAMP, [first]);
      OneStampBytes(e, one, rest);
      StampReads(e, Serialize(e, first) + rest, one, rest, Times(0, 0), 1);
      NoStampsLeft(e, rest, Stamped(one, Times(0, 0)));
      StampsTurn(e, flow, s, 1, Serialize(e, first) + rest);
    }
  }

  lemma OneStampBytes(e: Endian, t: Stamp, rest: seq<byte>)
    ensures var first := WireStamp(t);
            && ReadHead(e, Serialize(e, Nest(CTA_TIMESTAMP, [first])) + rest) ==
               Head(true, CTA_TIMESTAMP, 12, Serialize(e, first) + rest)
            && ReadHead(e, Serialize(e, first) + rest) == Head(false, StampType(t), 8, Put64(Big, StampValue(t)) + rest)
  {
    hide Serialize, SerializeAll, ChildrenLen, ReadHead, Put64;
    var first := WireStamp(t);
    AllOfOne(e, first);
    NestReads(e, CTA_TIMESTAMP, [first], rest);
    WordLeaf(e, StampType(t), Put64(Big, StampValue(t)), rest);
  }

  lemma AttributeSteps(e: Endian, flow: Flow, a: Attribute, rest: seq<byte>)
    requires WellFormed(a)
    ensures StepsOver(e, flow, a, rest)
  {
    hide StepsOver;
    match a
    case Tuple(reply, family, t, l) => TupleSteps(e, flow, reply, family, t, l, rest);
    case Mark(_) => WordSteps(e, flow, a, rest);
    case TimeOut(_) => WordSteps(e, flow, a, rest);
    case Labels(_) => WordSteps(e, flow, a, rest);
    case Info(nests) => InfoSteps(e, flow, nests, rest);
    case Zone(zone) => ZoneSteps(e, flow, zone, rest);
    case Counters(reply, first, second) => CountersSteps(e, flow, reply, first, second, rest);
    case Stamps(one, other) => StampsSteps(e, flow, one, other, rest);
    case Unhandled(nested, typ, data) => UnhandledSteps(e, flow, nested, typ, data, rest);
  }

  /* ---------- whole messages ---------- */

  /** The attributes are applied in turn, whatever follows them. */
  lemma {:induction false} LoopApplies(e: Endian, flow: Flow, attrs: seq<Attribute>, after: seq<byte>)
    requires forall a :: a in attrs ==> WellFormed(a)
    ensures Loop(e, flow, SerializeAll(e, WireAll(attrs)) + after) == Loop(e, ApplyAll(flow, attrs), after)
    decreases |attrs|
  {
    hide Serialize, Step, Wire, Apply, WellFormed;
    if attrs == [] {
      assert [] + after == after;
    } else {
      var rest := SerializeAll(e, WireAll(attrs[1..])) + after;
      assert WireAll(attrs)[1..] == WireAll(attrs[1..]);
      assert SerializeAll(e, WireAll(attrs)) + after == Serialize(e, Wire(attrs[0])) + rest;
      AttributeSteps(e, flow, attrs[0], rest);
      LoopApplies(e, Apply(flow, attrs[0]), attrs[1..], after);
    }
  }

  lemma LoopEnds(e: Endian, flow: Flow)
    ensures Loop(e, flow, []) == Some(flow)
  {
  }

  /** A message with anything behind it: what is behind is read into what the attributes have left. */
  lemma MessageThen(e: Endian, family: byte, rest: seq<byte>, attrs: seq<Attribute>, after: seq<byte>)
    requires |rest| == 3 && forall a :: a in attrs ==> WellFormed(a)
    ensures Parse(e, Message(e, family, rest, attrs) + after) == Loop(e, ApplyAll(EmptyFlow(family), attrs), after)
  {
    hide Loop, SerializeAll, WellFormed;
    var body := SerializeAll(e, WireAll(attrs)) + after;
    var data := Message(e, family, rest, attrs) + after;
    assert data == [family] + (rest + body);
    assert data[1..] == rest + body;
    SliceReads(rest, body);
    LoopApplies(e, EmptyFlow(family), attrs, after);
  }

  /** A message of well-formed attributes, in any order and number, is parsed to what the attributes say in turn. */
  lemma MessageParses(e: Endian, family: byte, rest: seq<byte>, attrs: seq<Attribute>)
    requires |rest| == 3 && forall a :: a in attrs ==> WellFormed(a)
    ensures Parse(e, Message(e, family, rest, attrs)) == Some(ApplyAll(EmptyFlow(family), attrs))
  {
    hide Loop, SerializeAll, WellFormed, Parse;
    MessageThen(e, family, rest, attrs, []);
    assert Message(e, family, rest, attrs) + [] == Message(e, family, rest, attrs);
    LoopEnds(e, ApplyAll(EmptyFlow(family), attrs));
  }

  lemma {:induction false} ApplyConcat(flow: Flow, a: seq<Attribute>, b: seq<Attribute>)
    ensures ApplyAll(flow, a + b) == ApplyAll(ApplyAll(flow, a), b)
    decreases |a|
  {
    if a == [] {
      assert a + b == b;
    } else {
      assert (a + b)[0] == a[0] && (a + b)[1..] == a[1..] + b;
      ApplyConcat(Apply(flow, a[0]), a[1..], b);
    }
  }

  /**
   * Attributes that the parser does not handle are transparent: inserting one, of any type and content, at any
   * attribute boundary of any message leaves the parsed flow as it was.
   */
  lemma UnhandledIsTransparent(e: Endian, family: byte, rest: seq<byte>, before: seq<Attribute>, after: seq<Attribute>,
                               nested: bool, typ: uint16, data: seq<byte>)
    requires |rest| == 3 && NoCase(nested, typ) && HEADER + |data| < 0x1_0000
    requires (forall a :: a in before ==> WellFormed(a)) && forall a :: a in after ==> WellFormed(a)
    ensures Parse(e, Message(e, family, rest, before + [Unhandled(nested, typ, data)] + after)) ==
            Parse(e, Message(e, family, rest, before + after))
  {
    hide Message, Parse, Apply;
    var u := Unhandled(nested, typ, data);
    var flow := EmptyFlow(family);
    MessageParses(e, family, rest, before + [u] + after);
    MessageParses(e, family, rest, before + after);
    ApplyConcat(flow, before + [u], after);
    ApplyConcat(flow, before, [u]);
    ApplyConcat(flow, before, after);
    UnhandledAppliesNothing(ApplyAll(flow, before), u);
  }

  lemma UnhandledAppliesNothing(flow: Flow, u: Attribute)
    requires u.Unhandled?
    ensures ApplyAll(flow, [u]) == flow
  {
    assert [u][1..] == [];
  }

  /** What a message can carry of a flow: no counters, no timestamps, and ports for TCP and UDP only. */
  function Carried(flow: Flow): Flow {
    flow.(forward := ApplyTuple(EmptyTuple(), flow.forward), reverse := ApplyTuple(EmptyTuple(), flow.reverse),
          timeStart := 0, timeStop := 0)
  }

  predicate WholeAddresses(flow: Flow) {
    && WellFormed(Tuple(false, flow.family, flow.forward, Written()))
    && WellFormed(Tuple(true, flow.family, flow.reverse, Written()))
  }

  /**
   * Round trip. For every flow that the builder accepts, whatever its protocol, parsing the netfilter header and the
   * serialised attributes gives back the family, both tuples, mark, timeout, labels, zone and TCP state.
   */
  lemma FlowRoundTrip(e: Endian, flow: Flow, rest: seq<byte>)
    requires |rest| == 3 && Build(flow).Some? && WholeAddresses(flow)
    ensures forall a :: a in Build(flow).value ==> WellFormed(a)
    ensures Parse(e, Message(e, flow.family, rest, Build(flow).value)) == Some(Carried(flow))
  {
    hide Message, Parse;
    var attrs := Build(flow).value;
    if flow.protoInfo.TCP? { OneState(e, flow.protoInfo.state); }
    assert forall a :: a in attrs ==> WellFormed(a);
    MessageParses(e, flow.family, rest, attrs);
    BuildApplies(flow);
  }

  lemma BuildApplies(flow: Flow)
    requires Build(flow).Some?
    ensures ApplyAll(EmptyFlow(flow.family), Build(flow).value) == Carried(flow)
  {
    hide ApplyTuple, LastTold, ApplyAll;
    var f0 := EmptyFlow(flow.family);
    var forward, reverse := Tuple(false, flow.family, flow.forward, Written()), Tuple(true, flow.family, flow.reverse, Written());
    var fixed := [forward, reverse, Mark(flow.mark), TimeOut(flow.timeOut)];
    var labels := if flow.labels.Some? then [Labels(flow.labels.value)] else [];
    var state := if flow.protoInfo.TCP? then [StateInfo(flow.protoInfo.state)] else [];
    var zone := if flow.zone != 0 then [Zone(flow.zone)] else [];
    ApplyConcat(f0, fixed + labels + state, zone);
    ApplyConcat(f0, fixed + labels, state);
    ApplyConcat(f0, fixed, labels);
    assert fixed == [forward] + ([reverse] + ([Mark(flow.mark)] + [TimeOut(flow.timeOut)]));
    var f1 := Apply(f0, forward);
    var f2 := Apply(f1, reverse);
    var f3 := Apply(f2, Mark(flow.mark));
    var f4 := Apply(f3, TimeOut(flow.timeOut));
    ApplyConcat(f0, [forward], [reverse] + ([Mark(flow.mark)] + [TimeOut(flow.timeOut)]));
    ApplyConcat(f1, [reverse], [Mark(flow.mark)] + [TimeOut(flow.timeOut)]);
    ApplyConcat(f2, [Mark(flow.mark)], [TimeOut(flow.timeOut)]);
    ApplyOne(f0, forward);
    ApplyOne(f1, reverse);
    ApplyOne(f2, Mark(flow.mark));
    ApplyOne(f3, TimeOut(flow.timeOut));
    var f5 := ApplyAll(f4, labels);
    var f6 := ApplyAll(f5, state);
    ApplyNone(f4);
    ApplyNone(f5);
    ApplyNone(f6);
    if flow.labels.Some? { ApplyOne(f4, labels[0]); }
    if flow.protoInfo.TCP? {
      ApplyOne(f5, state[0]);
      OneState(Little, flow.protoInfo.state);
    }
    if flow.zone != 0 { ApplyOne(f6, zone[0]); }
  }

  lemma ApplyNone(flow: Flow)
    ensures ApplyAll(flow, []) == flow
  {
  }

  lemma ApplyOne(flow: Flow, a: Attribute)
    ensures ApplyAll(flow, [a]) == Apply(flow, a)
  {
    hide Apply;
    assert [a][1..] == [];
  }

  /** For TCP and UDP flows without counters and timestamps nothing is lost. */
  lemma PortFlowRoundTrip(e: Endian, flow: Flow, rest: seq<byte>)
    requires |rest| == 3 && Build(flow).Some? && WholeAddresses(flow)
    requires flow.forward.protocol in {IPPROTO_TCP, IPPROTO_UDP} && flow.reverse.protocol in {IPPROTO_TCP, IPPROTO_UDP}
    ensures forall a :: a in Build(flow).value ==> WellFormed(a)
    ensures Parse(e, Message(e, flow.family, rest, Build(flow).value)) == Some(flow) <==>
            && flow.forward.bytes == 0 && flow.forward.packets == 0 && flow.reverse.bytes == 0 && flow.reverse.packets == 0
            && flow.timeStart == 0 && flow.timeStop == 0
  {
    hide Parse, Message, Build;
    FlowRoundTrip(e, flow, rest);
  }
}
