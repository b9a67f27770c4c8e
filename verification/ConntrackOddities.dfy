/**
 * What the conntrack parser (netlink/conntrack_linux.go) makes of nests that the builder never writes: which protocol
 * wins, and where the cursor is left by an attribute that a nest should not hold.
 */
module ConntrackOddities {
  import opened Bytes
  import opened Netlink
  import opened Conntrack
  import opened ConntrackCodec

  /* ---------- protocol information ---------- */

  predicate TellsNothing(nests: seq<InfoNest>) {
    forall n <- nests :: n.OtherNest? && n.typ != 2 && n.typ != 3
  }

  lemma {:induction false} NothingTold(nests: seq<InfoNest>, was: ProtoInfo)
    requires TellsNothing(nests)
    ensures LastTold(nests, was) == was
    decreases |nests|
  {
    if nests != [] {
      NothingTold(nests[1..], was);
    }
  }

  lemma {:induction false} ToldConcat(a: seq<InfoNest>, b: seq<InfoNest>, was: ProtoInfo)
    ensures LastTold(a + b, was) == LastTold(b, LastTold(a, was))
    decreases |a|
  {
    hide Told;
    if a == [] {
      assert a + b == b;
    } else {
      assert (a + b)[0] == a[0] && (a + b)[1..] == a[1..] + b;
      ToldConcat(a[1..], b, Told(a[0], was));
    }
  }

  lemma ToldOnce(n: InfoNest, was: ProtoInfo)
    ensures LastTold([n], was) == Told(n, was)
  {
    hide Told;
    assert [n][1..] == [];
  }

  /**
   * Of all nests of a protocol information the last DCCP (2), SCTP (3) or TCP nest decides, whatever stands before it and
   * whatever unknown nests stand behind it; and unknown nests alone leave the flow without any.
   */
  lemma LastNestWins(e: Endian, family: byte, head: seq<byte>, before: seq<InfoNest>, n: InfoNest, after: seq<InfoNest>)
    requires |head| == 3 && WellFormed(Info(before + [n] + after)) && TellsNothing(after) && !TellsNothing([n])
    ensures Parse(e, Message(e, family, head, [Info(before + [n] + after)])) ==
            Some(EmptyFlow(family).(protoInfo :=
              if n.TCPNest? then TCP(LastState(n.parts, 0)) else if n.typ == 2 then DCCP else SCTP))
  {
    hide Parse, Message, WellFormed, LastTold, LastState;
    var info := Info(before + [n] + after);
    MessageParses(e, family, head, [info]);
    ApplyOne(EmptyFlow(family), info);
    ToldConcat(before + [n], after, NoProtoInfo);
    ToldConcat(before, [n], NoProtoInfo);
    ToldOnce(n, LastTold(before, NoProtoInfo));
    NothingTold(after, Told(n, NoProtoInfo));
    assert [n][0] == n;
  }

  /* ---------- where the cursor is left ---------- */

  /** An item of another type ends the counters at once: its value is left unread. */
  lemma OtherCountStops(e: Endian, typ: uint16, data: seq<byte>, rest: seq<byte>, was: Counts, turns: nat)
    requires turns > 0 && typ % NESTED != 1 && typ % NESTED != 2 && HEADER + |data| < 0x1_0000
    ensures ReadCounters(e, Serialize(e, Leaf(typ, data)) + rest, was, turns) == Read(was, Padded(data) + rest)
  {
    hide Serialize, ReadHead, Padded;
    LeafReads(e, typ, data, rest);
  }

  /** So does one of another type among timestamps. */
  lemma OtherStampStops(e: Endian, typ: uint16, data: seq<byte>, rest: seq<byte>, was: Times, turns: nat)
    requires turns > 0 && typ % NESTED != 1 && typ % NESTED != 2 && HEADER + |data| < 0x1_0000
    ensures ReadTimes(e, Serialize(e, Leaf(typ, data)) + rest, was, turns) == Read(was, Padded(data) + rest)
  {
    hide Serialize, ReadHead, Padded;
    LeafReads(e, typ, data, rest);
  }

  /** Timestamps of any length but 12 and 24 are not read, and both times become zero. */
  lemma OtherLengthsUnread(e: Endian, flow: Flow, children: seq<RtAttr>, rest: seq<byte>)
    requires HEADER + ChildrenLen(children) < 0x1_0000 && ChildrenLen(children) != 12 && ChildrenLen(children) != 24
    ensures var s := Serialize(e, Nest(CTA_TIMESTAMP, children)) + rest;
            && s != []
            && Step(e, flow, s) == Some(Read(flow.(timeStart := 0, timeStop := 0), SerializeAll(e, children) + rest))
  {
    hide Serialize, SerializeAll, ChildrenLen, ReadHead;
    NotEmpty(e, Nest(CTA_TIMESTAMP, children), rest);
    NestReads(e, CTA_TIMESTAMP, children, rest);
  }

  /**
   * A tuple that does not begin with a nest of addresses is not read. In the original direction the value of its first
   * attribute is left unread; in the reply direction it is skipped.
   */
  lemma NoAddresses(e: Endian, flow: Flow, reply: bool, typ: uint16, data: seq<byte>, others: seq<RtAttr>, rest: seq<byte>)
    requires typ != NESTED + 1 && HEADER + |data| < 0x1_0000
    requires HEADER + ChildrenLen([Leaf(typ, data)] + others) < 0x1_0000
    ensures var s := Serialize(e, Nest(if reply then 2 else 1, [Leaf(typ, data)] + others)) + rest;
            var after := SerializeAll(e, others) + rest;
            && s != []
            && Step(e, flow, s) == Some(Read(flow, if reply then after else Padded(data) + after))
  {
    hide Serialize, SerializeAll, ChildrenLen, ReadHead, Padded, SkipValue, ReadTuple, Step, ReadNested, ReadPlain;
    var first := Leaf(typ, data);
    var nest := Nest(if reply then 2 else 1, [first] + others);
    var after := SerializeAll(e, others) + rest;
    NotEmpty(e, nest, rest);
    NestReads(e, if reply then 2 else 1, [first] + others, rest);
    AllOfFirst(e, first, others);
    assert SerializeAll(e, [first] + others) + rest == Serialize(e, first) + after;
    LeafReads(e, typ, data, after);
    SkipPadded(data, after);
    StepByHead(e, flow, Serialize(e, nest) + rest);
    NotAddresses(e, flow, ReadHead(e, Serialize(e, nest) + rest));
  }

  lemma NotAddresses(e: Endian, flow: Flow, h: Head)
    requires h.typ == 1 || h.typ == 2
    requires var ip := ReadHead(e, h.rest); !ip.nested || ip.typ != 1
    ensures var ip := ReadHead(e, h.rest);
            ReadNested(e, flow, h) == Some(Read(flow, if h.typ == 1 then ip.rest else SkipValue(ip.rest, ip.len)))
  {
    hide ReadHead, SkipValue, ReadTuple;
  }

  /** An address of another type is passed over, but its padding is not. */
  lemma OtherAddress(e: Endian, typ: uint16, data: seq<byte>, rest: seq<byte>, tpl: IPTuple)
    requires typ % NESTED !in {1, 2, 3, 4} && HEADER + |data| < 0x1_0000
    ensures ReadAddress(e, Serialize(e, Leaf(typ, data)) + rest, tpl) == Read(tpl, seq(Align(|data|) - |data|, _ => 0) + rest)
  {
    hide Serialize, ReadHead, Padded;
    LeafReads(e, typ, data, rest);
    var padding := seq(Align(|data|) - |data|, _ => 0);
    PaddingLast(data);
    assert Padded(data) + rest == data + (padding + rest);
    SliceReads(data, padding + rest);
  }

  lemma PaddingLast(data: seq<byte>)
    ensures Padded(data) == data + seq(Align(|data|) - |data|, _ => 0)
  {
  }

  /** Where a protocol nest is left whose first attribute is not a number. */
  lemma SkippedByLength(e: Endian, s: seq<byte>, tpl: IPTuple)
    ensures var total := ReadHead(e, s);
            var num := ReadHead(e, total.rest);
            var v := ReadSlice(num.rest, num.len);
            && (num.typ != 1 && !HasPorts(tpl.protocol) ==>
                  ReadProtocol(e, s, tpl) == Some(Read(tpl, Skip(v.rest, (total.len - (HEADER + num.len) % 0x1_0000) % 0x1_0000))))
            && (num.typ == 1 && num.len == 0 ==> ReadProtocol(e, s, tpl) == None)
  {
    hide ReadHead, ReadSlice, Skip;
  }

  /** The padding of the first attribute and the others are what the length leaves. */
  lemma LeftByLength(e: Endian, data: seq<byte>, others: seq<RtAttr>, rest: seq<byte>)
    requires HEADER + |data| < 0x1_0000 && 2 * HEADER + Align(|data|) + ChildrenLen(others) < 0x1_0000
    ensures var v := ReadSlice(Padded(data) + (SerializeAll(e, others) + rest), |data|);
            var total := HEADER + Align(|data|) + ChildrenLen(others);
            Skip(v.rest, (total - (HEADER + |data|) % 0x1_0000) % 0x1_0000) == rest
  {
    hide SerializeAll, ChildrenLen, Padded, ReadSlice, Skip;
    var padding := seq(Align(|data|) - |data|, _ => 0);
    var left := padding + SerializeAll(e, others);
    PaddingLast(data);
    SerializedLengths(e, others);
    assert Padded(data) + (SerializeAll(e, others) + rest) == data + (left + rest);
    SliceReads(data, left + rest);
    SliceReads(left, rest);
  }

  lemma LeafLength(typ: uint16, data: seq<byte>)
    ensures Align(Len(Leaf(typ, data))) == HEADER + Align(|data|)
  {
  }

  /**
   * A protocol nest that does not begin with a number is skipped whole, unless the tuple already has a protocol with
   * ports; and a number without a value is an index failure.
   */
  lemma NoNumber(e: Endian, typ: uint16, data: seq<byte>, others: seq<RtAttr>, rest: seq<byte>, tpl: IPTuple)
    requires HEADER + |data| < 0x1_0000 && HEADER + ChildrenLen([Leaf(typ, data)] + others) < 0x1_0000
    ensures var s := Serialize(e, Nest(CTA_TUPLE_PROTO, [Leaf(typ, data)] + others)) + rest;
            && (typ % NESTED != 1 && !HasPorts(tpl.protocol) ==> ReadProtocol(e, s, tpl) == Some(Read(tpl, rest)))
            && (typ % NESTED == 1 && data == [] ==> ReadProtocol(e, s, tpl) == None)
  {
    hide Serialize, SerializeAll, ChildrenLen, ReadHead, Padded, ReadProtocol, ReadSlice, Skip, HasPorts, Align, Len;
    var first := Leaf(typ, data);
    var after := SerializeAll(e, others) + rest;
    NestReads(e, CTA_TUPLE_PROTO, [first] + others, rest);
    AllOfFirst(e, first, others);
    LeafLength(typ, data);
    assert SerializeAll(e, [first] + others) + rest == Serialize(e, first) + after;
    LeafReads(e, typ, data, after);
    SkippedByLength(e, Serialize(e, Nest(CTA_TUPLE_PROTO, [first] + others)) + rest, tpl);
    LeftByLength(e, data, others, rest);
  }

  /** A port of another type moves the cursor by six bytes, not by eight. */
  lemma OtherPort(e: Endian, typ: uint16, a: byte, b: byte, rest: seq<byte>, tpl: IPTuple, taken: uint16)
    requires typ % NESTED != 2 && typ % NESTED != 3 && taken <= 1000
    ensures ReadPort(e, Ports(tpl, Serialize(e, Leaf(typ, [a, b])) + rest, taken)) == Ports(tpl, [0, 0] + rest, taken + 6)
  {
    hide Serialize, ReadHead;
    LeafReads(e, typ, [a, b], rest);
    assert Padded([a, b]) + rest == [a, b] + ([0, 0] + rest);
    SliceReads([a, b], [0, 0] + rest);
  }

  /* ---------- messages that are cut off ---------- */

  /** Fewer than four bytes hold no header, and are passed over. */
  lemma ScrapIgnored(e: Endian, flow: Flow, scrap: seq<byte>)
    requires |scrap| < 4
    ensures Loop(e, flow, scrap) == Some(flow)
  {
    if scrap != [] {
      var h := ReadHead(e, scrap);
      assert h.typ == 0 && !h.nested && h.rest == [] by { NoType(e, scrap); }
      hide ReadHead;
      assert Step(e, flow, scrap) == Some(Read(flow, []));
    }
  }

  lemma NoType(e: Endian, scrap: seq<byte>)
    requires |scrap| < 4
    ensures var h := ReadHead(e, scrap); h.typ == 0 && !h.nested && h.rest == []
  {
    hide Get16;
  }

  /**
   * A message that is followed by fewer than four bytes, or cut off within the header of its next attribute, is parsed to
   * what its whole attributes say.
   */
  lemma CutHeader(e: Endian, family: byte, head: seq<byte>, attrs: seq<Attribute>, scrap: seq<byte>)
    requires |head| == 3 && (forall a :: a in attrs ==> WellFormed(a)) && |scrap| < 4
    ensures Parse(e, Message(e, family, head, attrs) + scrap) == Some(ApplyAll(EmptyFlow(family), attrs))
  {
    hide Parse, Message, Loop, WellFormed;
    MessageThen(e, family, head, attrs, scrap);
    ScrapIgnored(e, ApplyAll(EmptyFlow(family), attrs), scrap);
  }

  /** A mark that is cut off in its value is read as zero, and ends the message. */
  lemma CutMark(e: Endian, family: byte, head: seq<byte>, attrs: seq<Attribute>, mark: uint32, k: nat)
    requires |head| == 3 && (forall a :: a in attrs ==> WellFormed(a)) && k < 4
    ensures Parse(e, Message(e, family, head, attrs) + HeaderOf(e, 8, CTA_MARK) + Put32(Big, mark)[..k]) ==
            Some(ApplyAll(EmptyFlow(family), attrs).(mark := 0))
  {
    hide Parse, Message, WellFormed, HeaderOf, Put32, ReadHead;
    var flow := ApplyAll(EmptyFlow(family), attrs);
    var value := Put32(Big, mark)[..k];
    var after := HeaderOf(e, 8, CTA_MARK) + value;
    MessageThen(e, family, head, attrs, after);
    assert Message(e, family, head, attrs) + HeaderOf(e, 8, CTA_MARK) + value == Message(e, family, head, attrs) + after;
    HeadReads(e, 8, CTA_MARK, value);
    assert Step(e, flow, after) == Some(Read(flow.(mark := 0), []));
    LoopEnds(e, flow.(mark := 0));
  }
}
