/**
 * The conntrack parser (netlink/conntrack_linux.go) as it runs: a cursor over the message and a flow filled in place.
 * Every method does to the unread bytes and to the flow what the functions of `Conntrack` say, and never moves the
 * cursor back, whatever the lengths in the message wrap to.
 */
module ConntrackReader {
  import opened Bytes
  import opened Netlink
  import opened Conntrack

  /** An `IPTuple` that the parser fills through a pointer. */
  class TupleCell {
    var bytes: uint64
    var dstIP: seq<byte>
    var dstPort: uint16
    var packets: uint64
    var protocol: byte
    var srcIP: seq<byte>
    var srcPort: uint16

    constructor ()
      ensures Value() == EmptyTuple()
    {
      bytes, dstIP, dstPort, packets, protocol, srcIP, srcPort := 0, [], 0, 0, 0, [], 0;
    }

    function Value(): IPTuple
      reads this
    {
      IPTuple(bytes, dstIP, dstPort, packets, protocol, srcIP, srcPort)
    }
  }

  class FlowCell {
    var family: byte
    const forward: TupleCell
    const reverse: TupleCell
    var mark: uint32
    var zone: uint16
    var timeStart: uint64
    var timeStop: uint64
    var timeOut: uint32
    var labels: Option<seq<byte>>
    var protoInfo: ProtoInfo

    constructor ()
      ensures Value() == EmptyFlow(0) && forward != reverse
      ensures fresh(forward) && fresh(reverse)
    {
      family, mark, zone, timeStart, timeStop, timeOut, labels, protoInfo := 0, 0, 0, 0, 0, 0, None, NoProtoInfo;
      forward := new TupleCell();
      reverse := new TupleCell();
    }

    function Value(): Flow
      reads this, forward, reverse
    {
      Flow(family, forward.Value(), reverse.Value(), mark, zone, timeStart, timeStop, timeOut, labels, protoInfo)
    }
  }

  /** A `bytes.Reader`: seeking past the end is allowed, and nothing is left to read there. */
  class NfReader {
    const e: Endian
    const data: seq<byte>
    var pos: nat

    constructor (e: Endian, data: seq<byte>)
      ensures this.e == e && this.data == data && Rest() == data
    {
      this.e, this.data, pos := e, data, 0;
    }

    function Rest(): seq<byte>
      reads this
    {
      if pos <= |data| then data[pos..] else []
    }

    /** `io.ReadFull`: a short read still takes what is left. */
    method Take(n: nat) returns (r: Option<seq<byte>>)
      modifies this
      ensures pos >= old(pos)
      ensures n <= |old(Rest())| ==> r == Some(old(Rest())[..n]) && Rest() == old(Rest())[n..]
      ensures n > |old(Rest())| ==> r == None && Rest() == []
    {
      if n <= |Rest()| {
        r := Some(Rest()[..n]);
        pos := pos + n;
      } else {
        r := None;
        pos := pos + |Rest()|;
      }
    }

    method Seek(n: nat)
      modifies this
      ensures pos == old(pos) + n && Rest() == Skip(old(Rest()), n)
    {
      pos := pos + n;
    }

    method Take8(was: byte) returns (v: byte)
      modifies this
      ensures pos >= old(pos) && Read(v, Rest()) == Read8(old(Rest()), was)
    {
      var b := Take(1);
      v := if b.Some? then b.value[0] else was;
    }

    method Take16(order: Endian, was: uint16) returns (v: uint16)
      modifies this
      ensures pos >= old(pos) && Read(v, Rest()) == Read16(order, old(Rest()), was)
    {
      var b := Take(2);
      v := if b.Some? then Get16(order, b.value) else was;
    }

    method Take32(order: Endian, was: uint32) returns (v: uint32)
      modifies this
      ensures pos >= old(pos) && Read(v, Rest()) == Read32(order, old(Rest()), was)
    {
      var b := Take(4);
      v := if b.Some? then Get32(order, b.value) else was;
    }

    method Take64(order: Endian, was: uint64) returns (v: uint64)
      modifies this
      ensures pos >= old(pos) && Read(v, Rest()) == Read64(order, old(Rest()), was)
    {
      var b := Take(8);
      v := if b.Some? then Get64(order, b.value) else was;
    }

    method TakeSlice(n: nat) returns (v: seq<byte>)
      modifies this
      ensures pos >= old(pos) && Read(v, Rest()) == ReadSlice(old(Rest()), n)
    {
      var b := Take(n);
      v := if b.Some? then b.value else seq(n, _ => 0);
    }

    /** `parseNfAttrTL`. */
    method ParseTL() returns (nested: bool, typ: uint16, len: uint16)
      modifies this
      ensures pos >= old(pos) && Head(nested, typ, len, Rest()) == ReadHead(e, old(Rest()))
    {
      hide Get16;
      var length := Take16(e, 0);
      len := (length - HEADER) % 0x1_0000;
      var t := Take16(e, 0);
      nested := t >= NESTED;
      typ := t % NESTED;
    }

    /** `parseNfAttrTLV`. */
    method ParseTLV() returns (nested: bool, typ: uint16, len: uint16, value: seq<byte>)
      modifies this
      ensures pos >= old(pos)
      ensures var h := ReadHead(e, old(Rest()));
              && Head(nested, typ, len, h.rest) == h
              && Read(value, Rest()) == ReadSlice(h.rest, len)
    {
      hide ReadHead, ReadSlice;
      nested, typ, len := ParseTL();
      value := TakeSlice(len);
    }

    /** `skipNfAttrValue`. */
    method SkipNfAttrValue(len: uint16) returns (skipped: uint16)
      modifies this
      ensures pos >= old(pos) && skipped == AlignWrapped(len) && Rest() == SkipValue(old(Rest()), len)
    {
      skipped := (len + 3) % 0x1_0000 / 4 * 4;
      Seek(skipped);
    }

    method ParseAddress(tpl: TupleCell)
      modifies this, tpl
      ensures pos >= old(pos)
      ensures Read(tpl.Value(), Rest()) == ReadAddress(e, old(Rest()), old(tpl.Value()))
    {
      hide ReadHead, ReadSlice;
      var _, t, _, v := ParseTLV();
      if t == CTA_IP_V4_SRC || t == CTA_IP_V6_SRC {
        tpl.srcIP := v;
      } else if t == CTA_IP_V4_DST || t == CTA_IP_V6_DST {
        tpl.dstIP := v;
      }
    }

    method ParsePort(tpl: TupleCell, taken: uint16) returns (now: uint16)
      modifies this, tpl
      ensures pos >= old(pos)
      ensures Ports(tpl.Value(), Rest(), now) == ReadPort(e, Ports(old(tpl.Value()), old(Rest()), taken))
    {
      hide ReadHead, Read16, Skip;
      var _, t, _ := ParseTL();
      now := (taken + HEADER) % 0x1_0000;
      if t == CTA_PROTO_SRC_PORT {
        tpl.srcPort := Take16(Big, tpl.srcPort);
        now := (now + 2) % 0x1_0000;
      } else if t == CTA_PROTO_DST_PORT {
        tpl.dstPort := Take16(Big, tpl.dstPort);
        now := (now + 2) % 0x1_0000;
      }
      Seek(2);
      now := (now + 2) % 0x1_0000;
      AddTwice((taken + HEADER) % 0x1_0000);
    }

    /** The end of `parseIpTuple`. */
    method ParsePorts(tpl: TupleCell, total: uint16, taken0: uint16)
      modifies this, tpl
      ensures pos >= old(pos)
      ensures Read(tpl.Value(), Rest()) == ReadPorts(e, Ports(old(tpl.Value()), old(Rest()), taken0), total)
    {
      hide ReadPort, Skip;
      var taken: nat := taken0;
      if tpl.protocol != IPPROTO_TCP && tpl.protocol != IPPROTO_UDP {
        Seek((total - taken) % 0x1_0000);
        return;
      }
      Seek(3);
      taken := (taken + 3) % 0x1_0000;
      ghost var before := Ports(tpl.Value(), Rest(), taken);
      for i := 0 to 2
        invariant pos >= old(pos) && taken < 0x1_0000
        invariant Ports(tpl.Value(), Rest(), taken) == TwoPorts(e, before, i)
      {
        taken := ParsePort(tpl, taken);
      }
      Seek((total - taken) % 0x1_0000);
    }

    /** `parseIpTuple`; it fails when the protocol attribute is empty. */
    method ParseIpTuple(tpl: TupleCell) returns (ok: bool)
      modifies this, tpl
      ensures pos >= old(pos)
      ensures ReadTuple(e, old(Rest()), old(tpl.Value())) == if ok then Some(Read(tpl.Value(), Rest())) else None
    {
      hide ReadHead, ReadSlice, ReadPorts, ReadAddress;
      for i := 0 to 2
        invariant pos >= old(pos)
        invariant Read(tpl.Value(), Rest()) == Addresses(e, old(Rest()), old(tpl.Value()), i)
      {
        ParseAddress(tpl);
      }
      var _, _, total := ParseTL();
      var _, t, l, v := ParseTLV();
      if t == CTA_PROTO_NUM {
        if l == 0 { return false; }
        tpl.protocol := v[0];
      }
      ParsePorts(tpl, total, (HEADER + l) % 0x1_0000);
      ok := true;
    }

    /** `parseByteAndPacketCounters`. */
    method ParseCounters() returns (bytes: uint64, packets: uint64)
      modifies this
      ensures pos >= old(pos)
      ensures Read(Counts(bytes, packets), Rest()) == ReadCounters(e, old(Rest()), Counts(0, 0), 2)
    {
      hide ReadHead, Read64;
      bytes, packets := 0, 0;
      for i := 0 to 2
        invariant pos >= old(pos)
        invariant ReadCounters(e, Rest(), Counts(bytes, packets), 2 - i) == ReadCounters(e, old(Rest()), Counts(0, 0), 2)
      {
        var _, t, _ := ParseTL();
        if t == CTA_COUNTERS_BYTES {
          bytes := Take64(Big, bytes);
        } else if t == CTA_COUNTERS_PACKETS {
          packets := Take64(Big, packets);
        } else {
          return;
        }
      }
    }

    /** `parseTimeStamp`. */
    method ParseTimeStamp(readSize: uint16) returns (start: uint64, stop: uint64)
      modifies this
      ensures pos >= old(pos)
      ensures Read(Times(start, stop), Rest()) == ReadTimes(e, old(Rest()), Times(0, 0), TimeStamps(readSize))
    {
      hide ReadHead, Read64;
      start, stop := 0, 0;
      var count := 0;
      var oneItem := HEADER + 8;
      if readSize == oneItem {
        count := 1;
      } else if readSize == 2 * oneItem {
        count := 2;
      } else {
        return;
      }
      for i := 0 to count
        invariant pos >= old(pos)
        invariant ReadTimes(e, Rest(), Times(start, stop), count - i) == ReadTimes(e, old(Rest()), Times(0, 0), count)
      {
        var _, t, _ := ParseTL();
        if t == CTA_TIMESTAMP_START {
          start := Take64(Big, start);
        } else if t == CTA_TIMESTAMP_STOP {
          stop := Take64(Big, stop);
        } else {
          return;
        }
      }
    }

    /** `parseProtoInfoTCP`. */
    method ParseProtoInfoTCP(attrLen: uint16) returns (state: byte, ghost turns: nat)
      modifies this
      ensures pos >= old(pos) && 4 * turns <= attrLen + 3
      ensures Read(state, Rest()) == ReadTCP(e, old(Rest()), attrLen, 0, 0)
    {
      hide ReadHead, SkipValue, Skip;
      state, turns := 0, 0;
      var bytesRead: nat := 0;
      while bytesRead < attrLen
        invariant pos >= old(pos)
        invariant 4 * turns <= bytesRead && 4 * turns <= attrLen + 3
        invariant ReadTCP(e, Rest(), attrLen, bytesRead, state) == ReadTCP(e, old(Rest()), attrLen, 0, 0)
      {
        var _, t, l := ParseTL();
        bytesRead := bytesRead + HEADER;
        turns := turns + 1;
        if t == CTA_PROTOINFO_TCP_STATE {
          state := Take8(0);
          Seek(HEADER - 1);
          bytesRead := bytesRead + HEADER;
        } else {
          var skipped := SkipNfAttrValue(l);
          bytesRead := bytesRead + skipped;
        }
      }
    }

    /** `parseProtoInfo`. */
    method ParseProtoInfo(attrLen: uint16) returns (p: ProtoInfo, ghost turns: nat)
      modifies this
      ensures pos >= old(pos) && 4 * turns <= attrLen + 3
      ensures Read(p, Rest()) == ReadProtoInfo(e, old(Rest()), attrLen, 0, NoProtoInfo)
    {
      hide ReadHead, ReadTCP, SkipValue;
      p, turns := NoProtoInfo, 0;
      var bytesRead: nat := 0;
      while bytesRead < attrLen
        invariant pos >= old(pos)
        invariant 4 * turns <= bytesRead && 4 * turns <= attrLen + 3
        invariant ReadProtoInfo(e, Rest(), attrLen, bytesRead, p) == ReadProtoInfo(e, old(Rest()), attrLen, 0, NoProtoInfo)
      {
        var _, t, l := ParseTL();
        bytesRead := bytesRead + HEADER;
        turns := turns + 1;
        if t == CTA_PROTOINFO_TCP {
          var state, _ := ParseProtoInfoTCP(l);
          p := TCP(state);
          bytesRead := bytesRead + l;
        } else {
          if t == CTA_PROTOINFO_DCCP {
            p := DCCP;
          } else if t == CTA_PROTOINFO_SCTP {
            p := SCTP;
          }
          var skipped := SkipNfAttrValue(l);
          bytesRead := bytesRead + skipped;
        }
      }
    }

    /** The nested cases of the top-level switch, after the header. */
    method ParseNested(s: FlowCell, t: uint16, l: uint16) returns (ok: bool)
      requires s.forward != s.reverse
      modifies this, s, s.forward, s.reverse
      ensures pos >= old(pos)
      ensures ReadNested(e, old(s.Value()), Head(true, t, l, old(Rest()))) ==
              if ok then Some(Read(s.Value(), Rest())) else None
    {
      hide ReadHead, ReadTuple, ReadCounters, ReadTimes, ReadProtoInfo, SkipValue;
      ok := true;
      if t == CTA_TUPLE_ORIG {
        var nested, t, _ := ParseTL();
        if nested && t == CTA_TUPLE_IP {
          ok := ParseIpTuple(s.forward);
        }
      } else if t == CTA_TUPLE_REPLY {
        var nested, t, l := ParseTL();
        if nested && t == CTA_TUPLE_IP {
          ok := ParseIpTuple(s.reverse);
        } else {
          var _ := SkipNfAttrValue(l);
        }
      } else if t == CTA_COUNTERS_ORIG {
        s.forward.bytes, s.forward.packets := ParseCounters();
      } else if t == CTA_COUNTERS_REPLY {
        s.reverse.bytes, s.reverse.packets := ParseCounters();
      } else if t == CTA_TIMESTAMP {
        s.timeStart, s.timeStop := ParseTimeStamp(l);
      } else if t == CTA_PROTOINFO {
        var p, _ := ParseProtoInfo(l);
        s.protoInfo := p;
      } else {
        var _ := SkipNfAttrValue(l);
      }
    }

    /** The plain cases of the top-level switch, after the header. */
    method ParsePlain(s: FlowCell, t: uint16, l: uint16)
      modifies this, s
      ensures pos >= old(pos)
      ensures Read(s.Value(), Rest()) == ReadPlain(old(s.Value()), Head(false, t, l, old(Rest())))
    {
      hide Read16, Read32, ReadSlice, SkipValue;
      if t == CTA_MARK {
        s.mark := Take32(Big, 0);
      } else if t == CTA_LABELS {
        var bits := TakeSlice(16);
        s.labels := Some(bits);
      } else if t == CTA_TIMEOUT {
        s.timeOut := Take32(Big, 0);
      } else if t == CTA_ZONE {
        s.zone := Take16(Big, 0);
        Seek(2);
      } else {
        var _ := SkipNfAttrValue(l);
      }
    }

    /** One turn of the top-level loop. */
    method ParseAttribute(s: FlowCell) returns (ok: bool)
      requires Rest() != [] && s.forward != s.reverse
      modifies this, s, s.forward, s.reverse
      ensures pos >= old(pos)
      ensures |Rest()| < |old(Rest())|
      ensures Step(e, old(s.Value()), old(Rest())) == if ok then Some(Read(s.Value(), Rest())) else None
    {
      hide ReadHead, ReadNested, ReadPlain;
      ok := true;
      var nested, t, l := ParseTL();
      if nested {
        ok := ParseNested(s, t, l);
      } else {
        ParsePlain(s, t, l);
      }
    }

    /** The top-level loop; every turn takes bytes. */
    method ParseAll(s: FlowCell) returns (ok: bool, ghost turns: nat)
      requires s.forward != s.reverse
      modifies this, s, s.forward, s.reverse
      ensures pos >= old(pos) && turns <= |old(Rest())|
      ensures Loop(e, old(s.Value()), old(Rest())) == if ok then Some(s.Value()) else None
    {
      hide Step;
      ok, turns := true, 0;
      while |Rest()| > 0
        invariant pos >= old(pos) && turns + |Rest()| <= |old(Rest())|
        invariant Loop(e, s.Value(), Rest()) == Loop(e, old(s.Value()), old(Rest()))
        decreases |Rest()|
      {
        ok := ParseAttribute(s);
        turns := turns + 1;
        if !ok { return; }
      }
    }
  }

  lemma AddTwice(n: uint16)
    ensures ((n + 2) % 0x1_0000 + 2) % 0x1_0000 == (n + 4) % 0x1_0000
  {
  }

  /** The address loop of `parseIpTuple`, `turns` turns in. */
  function Addresses(e: Endian, s: seq<byte>, tpl: IPTuple, turns: nat): Read<IPTuple> {
    if turns == 0 then Read(tpl, s)
    else
      var r := Addresses(e, s, tpl, turns - 1);
      ReadAddress(e, r.rest, r.value)
  }

  function TwoPorts(e: Endian, p: Ports, turns: nat): Ports {
    if turns == 0 then p else ReadPort(e, TwoPorts(e, p, turns - 1))
  }

  /** `parseRawData`: it fails exactly on an index failure, and otherwise fills a new flow; every turn takes bytes. */
  method ParseRawData(e: Endian, data: seq<byte>) returns (ok: bool, s: FlowCell, ghost turns: nat)
    ensures fresh(s) && fresh(s.forward) && fresh(s.reverse) && turns <= |data|
    ensures Parse(e, data) == if ok then Some(s.Value()) else None
  {
    hide Loop;
    s := new FlowCell();
    var reader := new NfReader(e, data);
    s.family := reader.Take8(0);
    reader.Seek(3);
    ok, turns := reader.ParseAll(s);
  }
}
