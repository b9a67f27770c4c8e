/**
 * The conntrack flow parser (netlink/conntrack_linux.go), as functions of the bytes still unread. A cursor past the end
 * has nothing unread, and `None` is an index failure. Reads that come up short consume what is left and set nothing.
 */
module Conntrack {
  import opened Bytes
  import opened Netlink

  /* ---------- flows ---------- */

  const AF_INET: byte := 2
  const AF_INET6: byte := 10
  const IPPROTO_TCP: byte := 6
  const IPPROTO_UDP: byte := 17

  datatype IPTuple = IPTuple(
    bytes: uint64, dstIP: seq<byte>, dstPort: uint16, packets: uint64, protocol: byte, srcIP: seq<byte>, srcPort: uint16)

  datatype ProtoInfo = NoProtoInfo | TCP(state: byte) | DCCP | SCTP

  datatype Flow = Flow(
    family: byte, forward: IPTuple, reverse: IPTuple, mark: uint32, zone: uint16, timeStart: uint64, timeStop: uint64,
    timeOut: uint32, labels: Option<seq<byte>>, protoInfo: ProtoInfo)

  function EmptyTuple(): IPTuple {
    IPTuple(0, [], 0, 0, 0, [], 0)
  }

  function EmptyFlow(family: byte): Flow {
    Flow(family, EmptyTuple(), EmptyTuple(), 0, 0, 0, 0, 0, None, NoProtoInfo)
  }

  /* ---------- attribute numbers ---------- */

  const CTA_TUPLE_ORIG: nat := 1
  const CTA_TUPLE_REPLY: nat := 2
  const CTA_PROTOINFO: nat := 4
  const CTA_TIMEOUT: nat := 7
  const CTA_MARK: nat := 8
  const CTA_COUNTERS_ORIG: nat := 9
  const CTA_COUNTERS_REPLY: nat := 10
  const CTA_ZONE: nat := 18
  const CTA_TIMESTAMP: nat := 20
  const CTA_LABELS: nat := 22

  const CTA_TUPLE_IP: nat := 1
  const CTA_TUPLE_PROTO: nat := 2

  const CTA_IP_V4_SRC: nat := 1
  const CTA_IP_V4_DST: nat := 2
  const CTA_IP_V6_SRC: nat := 3
  const CTA_IP_V6_DST: nat := 4

  const CTA_PROTO_NUM: nat := 1
  const CTA_PROTO_SRC_PORT: nat := 2
  const CTA_PROTO_DST_PORT: nat := 3

  const CTA_PROTOINFO_TCP: nat := 1
  const CTA_PROTOINFO_DCCP: nat := 2
  const CTA_PROTOINFO_SCTP: nat := 3
  const CTA_PROTOINFO_TCP_STATE: nat := 1

  const CTA_COUNTERS_PACKETS: nat := 1
  const CTA_COUNTERS_BYTES: nat := 2
  const CTA_TIMESTAMP_START: nat := 1
  const CTA_TIMESTAMP_STOP: nat := 2

  /* ---------- reading ---------- */

  /** What a read of a fixed-size value leaves in its variable, and what is left to read. */
  datatype Read<T> = Read(value: T, rest: seq<byte>)

  function Skip(s: seq<byte>, n: nat): (r: seq<byte>)
    ensures |r| == |s| - Min(n, |s|)
  {
    s[Min(n, |s|)..]
  }

  function Read8(s: seq<byte>, was: byte): Read<byte> {
    if |s| < 1 then Read(was, []) else Read(s[0], s[1..])
  }

  function Read16(e: Endian, s: seq<byte>, was: uint16): Read<uint16> {
    if |s| < 2 then Read(was, []) else Read(Get16(e, s[..2]), s[2..])
  }

  function Read32(e: Endian, s: seq<byte>, was: uint32): Read<uint32> {
    if |s| < 4 then Read(was, []) else Read(Get32(e, s[..4]), s[4..])
  }

  function Read64(e: Endian, s: seq<byte>, was: uint64): Read<uint64> {
    if |s| < 8 then Read(was, []) else Read(Get64(e, s[..8]), s[8..])
  }

  /** A byte slice of length `n`: all of it, or zeros. */
  function ReadSlice(s: seq<byte>, n: nat): (r: Read<seq<byte>>)
    ensures |r.value| == n
  {
    if |s| < n then Read(seq(n, _ => 0), []) else Read(s[..n], s[n..])
  }

  datatype Head = Head(nested: bool, typ: uint16, len: uint16, rest: seq<byte>)

  /** `parseNfAttrTL`: the length loses the header in 16 bits, so a length below 4 wraps. */
  function ReadHead(e: Endian, s: seq<byte>): (h: Head)
    ensures h.rest == Skip(s, 4)
    ensures h.typ < NESTED
  {
    var length := Read16(e, s, 0);
    var typ := Read16(e, length.rest, 0);
    Head(typ.value >= NESTED, typ.value % NESTED, (length.value - HEADER) % 0x1_0000, typ.rest)
  }

  /** The rounding of `skipNfAttrValue`, in 16 bits. */
  function AlignWrapped(len: uint16): uint16 {
    (len + 3) % 0x1_0000 / 4 * 4
  }

  function SkipValue(s: seq<byte>, len: uint16): seq<byte> {
    Skip(s, AlignWrapped(len))
  }

  /** One of the two address attributes, in either family and any order. */
  function ReadAddress(e: Endian, s: seq<byte>, tpl: IPTuple): (r: Read<IPTuple>)
    ensures |r.rest| <= |s|
  {
    var h := ReadHead(e, s);
    var v := ReadSlice(h.rest, h.len);
    Read(if h.typ == CTA_IP_V4_SRC || h.typ == CTA_IP_V6_SRC then tpl.(srcIP := v.value)
         else if h.typ == CTA_IP_V4_DST || h.typ == CTA_IP_V6_DST then tpl.(dstIP := v.value)
         else tpl, v.rest)
  }

  /** A tuple, the bytes left, and the running 16-bit count of protocol bytes. */
  datatype Ports = Ports(tpl: IPTuple, rest: seq<byte>, taken: uint16)

  /** One turn of the port loop. */
  function ReadPort(e: Endian, p: Ports): (r: Ports)
    ensures |r.rest| <= |p.rest|
  {
    var h := ReadHead(e, p.rest);
    var taken := (p.taken + HEADER) % 0x1_0000;
    var port := Read16(Big, h.rest, if h.typ == CTA_PROTO_SRC_PORT then p.tpl.srcPort else p.tpl.dstPort);
    if h.typ == CTA_PROTO_SRC_PORT then
      Ports(p.tpl.(srcPort := port.value), Skip(port.rest, 2), (taken + 4) % 0x1_0000)
    else if h.typ == CTA_PROTO_DST_PORT then
      Ports(p.tpl.(dstPort := port.value), Skip(port.rest, 2), (taken + 4) % 0x1_0000)
    else Ports(p.tpl, Skip(h.rest, 2), (taken + 2) % 0x1_0000)
  }

  /** The end of `parseIpTuple`: ports for TCP and UDP, and whatever the nest's total length leaves to skip. */
  function ReadPorts(e: Endian, p: Ports, total: uint16): (r: Read<IPTuple>)
    ensures |r.rest| <= |p.rest|
  {
    if p.tpl.protocol != IPPROTO_TCP && p.tpl.protocol != IPPROTO_UDP then
      Read(p.tpl, Skip(p.rest, (total - p.taken) % 0x1_0000))
    else
      var q := ReadPort(e, ReadPort(e, Ports(p.tpl, Skip(p.rest, 3), (p.taken + 3) % 0x1_0000)));
      Read(q.tpl, Skip(q.rest, (total - q.taken) % 0x1_0000))
  }

  /** The protocol nest; an empty protocol number is an index failure. */
  function ReadProtocol(e: Endian, s: seq<byte>, tpl: IPTuple): (r: Option<Read<IPTuple>>)
    ensures r.Some? ==> |r.value.rest| <= |s|
  {
    var total := ReadHead(e, s);
    var num := ReadHead(e, total.rest);
    var v := ReadSlice(num.rest, num.len);
    if num.typ == CTA_PROTO_NUM && num.len == 0 then None
    else
      var tpl' := if num.typ == CTA_PROTO_NUM then tpl.(protocol := v.value[0]) else tpl;
      Some(ReadPorts(e, Ports(tpl', v.rest, (HEADER + num.len) % 0x1_0000), total.len))
  }

  /** `parseIpTuple`. */
  function ReadTuple(e: Endian, s: seq<byte>, tpl: IPTuple): (r: Option<Read<IPTuple>>)
    ensures r.Some? ==> |r.value.rest| <= |s|
  {
    var first := ReadAddress(e, s, tpl);
    var second := ReadAddress(e, first.rest, first.value);
    ReadProtocol(e, second.rest, second.value)
  }

  datatype Counts = Counts(bytes: uint64, packets: uint64)

  /** `parseByteAndPacketCounters`, with `turns` attributes to go. */
  function ReadCounters(e: Endian, s: seq<byte>, c: Counts, turns: nat): (r: Read<Counts>)
    ensures |r.rest| <= |s|
    decreases turns
  {
    if turns == 0 then Read(c, s)
    else
      var h := ReadHead(e, s);
      if h.typ == CTA_COUNTERS_BYTES then
        var v := Read64(Big, h.rest, c.bytes);
        ReadCounters(e, v.rest, c.(bytes := v.value), turns - 1)
      else if h.typ == CTA_COUNTERS_PACKETS then
        var v := Read64(Big, h.rest, c.packets);
        ReadCounters(e, v.rest, c.(packets := v.value), turns - 1)
      else Read(c, h.rest)
  }

  datatype Times = Times(start: uint64, stop: uint64)

  /** The loop of `parseTimeStamp`. */
  function ReadTimes(e: Endian, s: seq<byte>, t: Times, turns: nat): (r: Read<Times>)
    ensures |r.rest| <= |s|
    decreases turns
  {
    if turns == 0 then Read(t, s)
    else
      var h := ReadHead(e, s);
      if h.typ == CTA_TIMESTAMP_START then
        var v := Read64(Big, h.rest, t.start);
        ReadTimes(e, v.rest, t.(start := v.value), turns - 1)
      else if h.typ == CTA_TIMESTAMP_STOP then
        var v := Read64(Big, h.rest, t.stop);
        ReadTimes(e, v.rest, t.(stop := v.value), turns - 1)
      else Read(t, h.rest)
  }

  /** How many timestamps a nest of this length holds; none, and nothing is read, for any other length. */
  function TimeStamps(len: uint16): nat {
    if len == 12 then 1 else if len == 24 then 2 else 0
  }

  /** `parseProtoInfoTCP`, with `taken` bytes accounted for. */
  function ReadTCP(e: Endian, s: seq<byte>, len: uint16, taken: nat, state: byte): (r: Read<byte>)
    ensures |r.rest| <= |s|
    decreases len - taken
  {
    if taken >= len then Read(state, s)
    else
      var h := ReadHead(e, s);
      if h.typ == CTA_PROTOINFO_TCP_STATE then
        var v := Read8(h.rest, 0);
        ReadTCP(e, Skip(v.rest, 3), len, taken + 8, v.value)
      else ReadTCP(e, SkipValue(h.rest, h.len), len, taken + 4 + AlignWrapped(h.len), state)
  }

  /** `parseProtoInfo`, with `taken` bytes accounted for. */
  function ReadProtoInfo(e: Endian, s: seq<byte>, len: uint16, taken: nat, p: ProtoInfo): (r: Read<ProtoInfo>)
    ensures |r.rest| <= |s|
    decreases len - taken
  {
    if taken >= len then Read(p, s)
    else
      var h := ReadHead(e, s);
      if h.typ == CTA_PROTOINFO_TCP then
        var tcp := ReadTCP(e, h.rest, h.len, 0, 0);
        ReadProtoInfo(e, tcp.rest, len, taken + 4 + h.len, TCP(tcp.value))
      else
        var p' := if h.typ == CTA_PROTOINFO_DCCP then DCCP else if h.typ == CTA_PROTOINFO_SCTP then SCTP else p;
        ReadProtoInfo(e, SkipValue(h.rest, h.len), len, taken + 4 + AlignWrapped(h.len), p')
  }

  /** A nested top-level attribute whose header has been read. */
  function ReadNested(e: Endian, flow: Flow, h: Head): (r: Option<Read<Flow>>)
    ensures r.Some? ==> |r.value.rest| <= |h.rest|
  {
    if h.typ == CTA_TUPLE_ORIG then
      var ip := ReadHead(e, h.rest);
      if ip.nested && ip.typ == CTA_TUPLE_IP then
        match ReadTuple(e, ip.rest, flow.forward)
        case None => None
        case Some(t) => Some(Read(flow.(forward := t.value), t.rest))
      else Some(Read(flow, ip.rest))
    else if h.typ == CTA_TUPLE_REPLY then
      var ip := ReadHead(e, h.rest);
      if ip.nested && ip.typ == CTA_TUPLE_IP then
        match ReadTuple(e, ip.rest, flow.reverse)
        case None => None
        case Some(t) => Some(Read(flow.(reverse := t.value), t.rest))
      else Some(Read(flow, SkipValue(ip.rest, ip.len)))
    else if h.typ == CTA_COUNTERS_ORIG then
      var c := ReadCounters(e, h.rest, Counts(0, 0), 2);
      Some(Read(flow.(forward := flow.forward.(bytes := c.value.bytes, packets := c.value.packets)), c.rest))
    else if h.typ == CTA_COUNTERS_REPLY then
      var c := ReadCounters(e, h.rest, Counts(0, 0), 2);
      Some(Read(flow.(reverse := flow.reverse.(bytes := c.value.bytes, packets := c.value.packets)), c.rest))
    else if h.typ == CTA_TIMESTAMP then
      var t := ReadTimes(e, h.rest, Times(0, 0), TimeStamps(h.len));
      Some(Read(flow.(timeStart := t.value.start, timeStop := t.value.stop), t.rest))
    else if h.typ == CTA_PROTOINFO then
      var p := ReadProtoInfo(e, h.rest, h.len, 0, NoProtoInfo);
      Some(Read(flow.(protoInfo := p.value), p.rest))
    else Some(Read(flow, SkipValue(h.rest, h.len)))
  }

  /** A plain top-level attribute whose header has been read. */
  function ReadPlain(flow: Flow, h: Head): (r: Read<Flow>)
    ensures |r.rest| <= |h.rest|
  {
    if h.typ == CTA_MARK then
      var v := Read32(Big, h.rest, 0);
      Read(flow.(mark := v.value), v.rest)
    else if h.typ == CTA_LABELS then
      var v := ReadSlice(h.rest, 16);
      Read(flow.(labels := Some(v.value)), v.rest)
    else if h.typ == CTA_TIMEOUT then
      var v := Read32(Big, h.rest, 0);
      Read(flow.(timeOut := v.value), v.rest)
    else if h.typ == CTA_ZONE then
      var v := Read16(Big, h.rest, 0);
      Read(flow.(zone := v.value), Skip(v.rest, 2))
    else Read(flow, SkipValue(h.rest, h.len))
  }

  /** One turn of the top-level loop; it takes at least one byte. */
  function Step(e: Endian, flow: Flow, s: seq<byte>): (r: Option<Read<Flow>>)
    requires s != []
    ensures r.Some? ==> |r.value.rest| < |s|
  {
    var h := ReadHead(e, s);
    if h.nested then ReadNested(e, flow, h) else Some(ReadPlain(flow, h))
  }

  function Loop(e: Endian, flow: Flow, s: seq<byte>): Option<Flow>
    decreases |s|
  {
    if s == [] then Some(flow)
    else match Step(e, flow, s)
      case None => None
      case Some(r) => Loop(e, r.value, r.rest)
  }

  /** `parseRawData`: of the netfilter header only the family is used. */
  function Parse(e: Endian, data: seq<byte>): Option<Flow> {
    var family := Read8(data, 0);
    Loop(e, EmptyFlow(family.value), Skip(family.rest, 3))
  }

  /** How many turns the top-level loop takes until the bytes run out or an index fails. */
  function Turns(e: Endian, flow: Flow, s: seq<byte>): nat
    decreases |s|
  {
    if s == [] then 0
    else match Step(e, flow, s)
      case None => 1
      case Some(r) => 1 + Turns(e, r.value, r.rest)
  }

  /** On any bytes whatever the parser takes at most one turn per byte. */
  lemma {:induction false} ProgressBound(e: Endian, flow: Flow, s: seq<byte>)
    ensures Turns(e, flow, s) <= |s|
    decreases |s|
  {
    hide ReadNested, ReadPlain;
    if s != [] && Step(e, flow, s).Some? {
      var r := Step(e, flow, s).value;
      ProgressBound(e, r.value, r.rest);
    }
  }
}
