/**
 * VLAN tunnels of a bridge (netlink/bridge_linux.go): ranges are written as a begin and an end entry, and expanded again
 * when they are read. Attributes are read with `ParseRouteAttr` (nl/nl_linux.go).
 */
module BridgeVlan {
  import opened Bytes
  import opened Netlink

  const TUNNEL_INFO: nat := 3
  const TUNNEL_ID: nat := 1
  const TUNNEL_VID: nat := 2
  const TUNNEL_FLAGS: nat := 3
  const RANGE_BEGIN: nat := 8
  const RANGE_END: nat := 16

  datatype TunnelInfo = TunnelInfo(tunId: uint32, vid: uint16)

  /** A result, a reported error, or an index failure. */
  datatype Parsed<T> = Done(value: T) | Invalid | Crash

  /* ---------- attributes ---------- */

  datatype Attr = Attr(typ: uint16, value: seq<byte>)

  /** `ParseRouteAttr`; a last attribute whose padding is cut off is an index failure. */
  function ParseRouteAttr(e: Endian, b: seq<byte>): Parsed<seq<Attr>>
    decreases |b|
  {
    if |b| < HEADER then Done([])
    else
      var len := Get16(e, b[..2]);
      if len < HEADER || len > |b| then Invalid
      else if Align(len) > |b| then Crash
      else match ParseRouteAttr(e, b[Align(len)..])
        case Done(rest) => Done([Attr(Get16(e, b[2..4]), b[HEADER..len])] + rest)
        case Invalid => Invalid
        case Crash => Crash
  }

  method ReadRouteAttrs(e: Endian, b0: seq<byte>) returns (r: Parsed<seq<Attr>>)
    ensures r == ParseRouteAttr(e, b0)
  {
    hide Get16;
    var attrs: seq<Attr> := [];
    var b := b0;
    PrependNothing(ParseRouteAttr(e, b));
    while |b| >= HEADER
      invariant ParseRouteAttr(e, b0) == Prepend(attrs, ParseRouteAttr(e, b))
      decreases |b|
    {
      var len := Get16(e, b[..2]);
      if len < HEADER || len > |b| { return Invalid; }
      ghost var was := attrs;
      attrs := attrs + [Attr(Get16(e, b[2..4]), b[HEADER..len])];
      if Align(len) > |b| { return Crash; }
      PrependTwice(was, [Attr(Get16(e, b[2..4]), b[HEADER..len])], ParseRouteAttr(e, b[Align(len)..]));
      b := b[Align(len)..];
    }
    assert attrs + [] == attrs;
    r := Done(attrs);
  }

  function Prepend<T>(first: seq<T>, r: Parsed<seq<T>>): Parsed<seq<T>> {
    match r
    case Done(rest) => Done(first + rest)
    case Invalid => Invalid
    case Crash => Crash
  }

  lemma PrependNothing<T>(r: Parsed<seq<T>>)
    ensures Prepend([], r) == r
  {
    if r.Done? { assert [] + r.value == r.value; }
  }

  lemma PrependTwice<T>(a: seq<T>, b: seq<T>, r: Parsed<seq<T>>)
    ensures Prepend(a, Prepend(b, r)) == Prepend(a + b, r)
  {
    if r.Done? { assert a + (b + r.value) == (a + b) + r.value; }
  }

  /** What reading an attribute gives as its value: its data, or its children written out. */
  function Body(e: Endian, a: RtAttr): seq<byte> {
    if a.children == [] then a.data else Padded(a.data) + SerializeAll(e, a.children)
  }

  function Bodies(e: Endian, cs: seq<RtAttr>): seq<Attr> {
    seq(|cs|, i requires 0 <= i < |cs| => Attr(cs[i].typ, Body(e, cs[i])))
  }

  lemma BodyBytes(e: Endian, a: RtAttr)
    ensures Len(a) >= HEADER && |Serialize(e, a)| == Align(Len(a))
    ensures Serialize(e, a)[..4] == HeaderOf(e, Len(a), a.typ)
    ensures Serialize(e, a)[4..Len(a)] == Body(e, a)
  {
    hide HeaderOf, SerializeAll, ChildrenLen, Align, Padded;
    SerializedLength(e, a);
    var h, all := HeaderOf(e, Len(a), a.typ), SerializeAll(e, a.children);
    assert Serialize(e, a) == h + (Padded(a.data) + all);
    assert (h + (Padded(a.data) + all))[4..] == Padded(a.data) + all;
    if a.children == [] {
      PaddedStart(a.data);
      assert Serialize(e, a)[4..Len(a)] == (Padded(a.data) + all)[..|a.data|];
    } else {
      SerializedLengths(e, a.children);
      AlignShift(|a.data|, ChildrenLen(a.children) + HEADER);
    }
  }

  lemma PaddedStart(data: seq<byte>)
    ensures |data| <= |Padded(data)| && Padded(data)[..|data|] == data
  {
  }

  lemma HeaderParts(e: Endian, length: uint16, typ: uint16, h: seq<byte>)
    requires h == HeaderOf(e, length, typ)
    ensures Get16(e, h[..2]) == length && Get16(e, h[2..4]) == typ
  {
    hide Get16, Put16;
    Get16Put16(e, length);
    Get16Put16(e, typ);
    assert h == Put16(e, length) + Put16(e, typ);
    assert h[..2] == Put16(e, length) && h[2..4] == Put16(e, typ);
  }

  lemma ParseOne(e: Endian, a: RtAttr, rest: seq<byte>)
    requires Len(a) < 0x1_0000
    ensures ParseRouteAttr(e, Serialize(e, a) + rest) == Prepend([Attr(a.typ, Body(e, a))], ParseRouteAttr(e, rest))
  {
    hide Serialize, Len, Body, HeaderOf, Get16;
    var s := Serialize(e, a);
    var b := s + rest;
    BodyBytes(e, a);
    HeaderParts(e, Len(a), a.typ, s[..4]);
    assert b[..2] == s[..4][..2] && b[2..4] == s[..4][2..4];
    assert b[HEADER..Len(a)] == s[4..Len(a)];
    assert b[Align(Len(a))..] == rest;
  }

  /** Reading undoes writing, for any list of attributes that fit their length field. */
  lemma {:induction false} ParseAttrs(e: Endian, cs: seq<RtAttr>)
    requires forall c :: c in cs ==> Len(c) < 0x1_0000
    ensures ParseRouteAttr(e, SerializeAll(e, cs)) == Done(Bodies(e, cs))
  {
    hide Len, Body, Serialize, ParseRouteAttr;
    if cs == [] {
      assert ParseRouteAttr(e, []) == Done([]) by { EmptyParses(e); }
      assert Bodies(e, []) == [];
    } else {
      ParseOne(e, cs[0], SerializeAll(e, cs[1..]));
      ParseAttrs(e, cs[1..]);
      assert Bodies(e, cs) == [Attr(cs[0].typ, Body(e, cs[0]))] + Bodies(e, cs[1..]);
    }
  }

  lemma EmptyParses(e: Endian)
    ensures ParseRouteAttr(e, []) == Done([])
  {
  }

  /* ---------- reading tunnels ---------- */

  datatype Tunnel = Tunnel(id: uint32, vid: uint16, flag: uint16)

  /** The last attribute of a kind wins; a value shorter than its number is an index failure. */
  function Fields(e: Endian, attrs: seq<Attr>, t: Tunnel): Parsed<Tunnel>
    decreases |attrs|
  {
    if attrs == [] then Done(t)
    else
      var a := attrs[0];
      if a.typ == TUNNEL_ID then
        if |a.value| < 4 then Crash else Fields(e, attrs[1..], t.(id := Get32(e, a.value[..4])))
      else if a.typ == TUNNEL_VID then
        if |a.value| < 2 then Crash else Fields(e, attrs[1..], t.(vid := Get16(e, a.value[..2])))
      else if a.typ == TUNNEL_FLAGS then
        if |a.value| < 2 then Crash else Fields(e, attrs[1..], t.(flag := Get16(e, a.value[..2])))
      else Fields(e, attrs[1..], t)
  }

  /** The entries strictly between two ends of a range. */
  function Fill(vni: uint32, i: uint16, vid: uint16): seq<TunnelInfo>
    decreases vid - i
  {
    if i < vid then [TunnelInfo(vni, i)] + Fill((vni + 1) % 0x1_0000_0000, i + 1, vid) else []
  }

  /** Adding one entry that was read. */
  function AddEntry(t: Tunnel, results: seq<TunnelInfo>): Parsed<seq<TunnelInfo>> {
    if t.flag == RANGE_END then
      if results == [] then Crash
      else
        var last := results[|results| - 1];
        Done(results + Fill((last.tunId + 1) % 0x1_0000_0000, (last.vid + 1) % 0x1_0000, t.vid) + [TunnelInfo(t.id, t.vid)])
    else Done(results + [TunnelInfo(t.id, t.vid)])
  }

  function ReadTunnelInfo(e: Endian, value: seq<byte>, results: seq<TunnelInfo>): Parsed<seq<TunnelInfo>> {
    match ParseRouteAttr(e, value)
    case Invalid => Invalid
    case Crash => Crash
    case Done(attrs) =>
      match Fields(e, attrs, Tunnel(0, 0, 0))
      case Done(t) => AddEntry(t, results)
      case _ => Crash
  }

  /** `parseTunnelInfo`. */
  method ParseTunnelInfo(e: Endian, value: seq<byte>, results0: seq<TunnelInfo>) returns (r: Parsed<seq<TunnelInfo>>)
    ensures r == ReadTunnelInfo(e, value, results0)
  {
    hide Get16, Get32, ParseRouteAttr;
    var parsed := ReadRouteAttrs(e, value);
    if parsed.Invalid? { return Invalid; }
    if parsed.Crash? { return Crash; }
    var attrs := parsed.value;
    var tunnelId: uint32, vid: uint16, flag: uint16 := 0, 0, 0;
    assert attrs[0..] == attrs;
    for k := 0 to |attrs|
      invariant Fields(e, attrs[k..], Tunnel(tunnelId, vid, flag)) == Fields(e, attrs, Tunnel(0, 0, 0))
    {
      var a := attrs[k];
      assert attrs[k..][0] == a && attrs[k..][1..] == attrs[k + 1..];
      if a.typ == TUNNEL_ID {
        if |a.value| < 4 { return Crash; }
        tunnelId := Get32(e, a.value[..4]);
      } else if a.typ == TUNNEL_VID {
        if |a.value| < 2 { return Crash; }
        vid := Get16(e, a.value[..2]);
      } else if a.typ == TUNNEL_FLAGS {
        if |a.value| < 2 { return Crash; }
        flag := Get16(e, a.value[..2]);
      }
    }
    assert attrs[|attrs|..] == [];
    var results := results0;
    if flag == RANGE_END {
      if results == [] { return Crash; }
      var last := results[|results| - 1];
      var vni: uint32 := AddOne32(last.tunId);
      var i: uint16 := (last.vid + 1) % 0x1_0000;
      ghost var all := results + Fill(vni, i, vid);
      while i < vid
        invariant results + Fill(vni, i, vid) == all
        decreases vid - i
      {
        results := results + [TunnelInfo(vni, i)];
        vni := AddOne32(vni);
        i := i + 1;
      }
      assert results + [] == results;
    }
    r := Done(results + [TunnelInfo(tunnelId, vid)]);
  }

  function AddOne32(n: uint32): uint32 {
    (n + 1) % 0x1_0000_0000
  }

  /** The entries of one `IFLA_AF_SPEC`, in order. */
  function ReadTunnels(e: Endian, attrs: seq<Attr>, results: seq<TunnelInfo>): Parsed<seq<TunnelInfo>>
    decreases |attrs|
  {
    if attrs == [] then Done(results)
    else if attrs[0].typ != TUNNEL_INFO then ReadTunnels(e, attrs[1..], results)
    else match ReadTunnelInfo(e, attrs[0].value, results)
      case Done(more) => ReadTunnels(e, attrs[1..], more)
      case Invalid => Invalid
      case Crash => Crash
  }

  /** The tunnel entries among the attributes. */
  function OnlyTunnels(attrs: seq<Attr>): seq<Attr> {
    if attrs == [] then []
    else (if attrs[0].typ == 3 then [attrs[0]] else []) + OnlyTunnels(attrs[1..])
  }

  /** Attributes of any other type, anywhere between the entries, change nothing. */
  lemma {:induction false} OthersChangeNothing(e: Endian, attrs: seq<Attr>, results: seq<TunnelInfo>)
    ensures ReadTunnels(e, attrs, results) == ReadTunnels(e, OnlyTunnels(attrs), results)
    decreases |attrs|
  {
    hide ReadTunnelInfo;
    if attrs != [] {
      var rest := OnlyTunnels(attrs[1..]);
      if attrs[0].typ == 3 {
        assert ([attrs[0]] + rest)[1..] == rest;
        if ReadTunnelInfo(e, attrs[0].value, results).Done? {
          OthersChangeNothing(e, attrs[1..], ReadTunnelInfo(e, attrs[0].value, results).value);
        }
      } else {
        assert [] + rest == rest;
        OthersChangeNothing(e, attrs[1..], results);
      }
    }
  }

  /** Without anything before it, the end of a range is an index failure. */
  lemma EndNeedsBegin(id: uint32, vid: uint16)
    ensures AddEntry(Tunnel(id, vid, 16), []) == Crash
  {
  }

  /** The last value of a kind, or what was there before. */
  function LastOf(attrs: seq<Attr>, typ: uint16, was: seq<byte>): seq<byte>
    decreases |attrs|
  {
    if attrs == [] then was else LastOf(attrs[1..], typ, if attrs[0].typ == typ then attrs[0].value else was)
  }

  /** An identifier of less than four bytes, or a VLAN or flags of less than two. */
  predicate Short(a: Attr) {
    (a.typ == 1 && |a.value| < 4) || ((a.typ == 2 || a.typ == 3) && |a.value| < 2)
  }

  /** How a tunnel is spelled by the last values of types 1, 2 and 3. */
  predicate Spells(e: Endian, id: seq<byte>, vid: seq<byte>, flag: seq<byte>, t: Tunnel) {
    && |id| >= 4 && t.id == Get32(e, id[..4])
    && |vid| >= 2 && t.vid == Get16(e, vid[..2])
    && |flag| >= 2 && t.flag == Get16(e, flag[..2])
  }

  /** The fields of an entry come in any order and number, with anything between them; a short one is an index failure. */
  lemma {:induction false} FieldsExactly(e: Endian, attrs: seq<Attr>, t: Tunnel, id: seq<byte>, vid: seq<byte>, flag: seq<byte>)
    requires Spells(e, id, vid, flag, t)
    ensures Fields(e, attrs, t).Crash? <==> exists a :: a in attrs && Short(a)
    ensures var r := Fields(e, attrs, t);
            r.Crash? || (r.Done? && Spells(e, LastOf(attrs, 1, id), LastOf(attrs, 2, vid), LastOf(attrs, 3, flag), r.value))
    decreases |attrs|
  {
    hide Get16, Get32;
    if attrs != [] && !Short(attrs[0]) {
      var a := attrs[0];
      var t' := if a.typ == 1 then t.(id := Get32(e, a.value[..4]))
                else if a.typ == 2 then t.(vid := Get16(e, a.value[..2]))
                else if a.typ == 3 then t.(flag := Get16(e, a.value[..2])) else t;
      FieldsExactly(e, attrs[1..], t', if a.typ == 1 then a.value else id, if a.typ == 2 then a.value else vid,
                    if a.typ == 3 then a.value else flag);
      assert forall b :: b in attrs <==> b == a || b in attrs[1..];
    } else if attrs != [] {
      assert attrs[0] in attrs;
    }
  }

  method ParseTunnels(e: Endian, spec: seq<byte>, results0: seq<TunnelInfo>) returns (r: Parsed<seq<TunnelInfo>>)
    ensures r == match ParseRouteAttr(e, spec)
                 case Done(attrs) => ReadTunnels(e, attrs, results0)
                 case Invalid => Invalid
                 case Crash => Crash
  {
    hide ParseRouteAttr, ReadTunnelInfo;
    var parsed := ReadRouteAttrs(e, spec);
    if parsed.Invalid? { return Invalid; }
    if parsed.Crash? { return Crash; }
    var attrs := parsed.value;
    var results := results0;
    for k := 0 to |attrs|
      invariant ReadTunnels(e, attrs[k..], results) == ReadTunnels(e, attrs, results0)
    {
      assert attrs[k..][0] == attrs[k] && attrs[k..][1..] == attrs[k + 1..];
      if attrs[k].typ == TUNNEL_INFO {
        var one := ParseTunnelInfo(e, attrs[k].value, results);
        if !one.Done? { return one; }
        results := one.value;
      }
    }
    r := Done(results);
  }

  /* ---------- writing tunnels ---------- */

  datatype Entry = Single(tunId: uint32, vid: uint16) | Range(tunId: uint32, tunIdEnd: uint32, vid: uint16, vidEnd: uint16)

  function Info(e: Endian, tunId: uint32, vid: uint16, flags: uint16): RtAttr {
    RtAttr(TUNNEL_INFO, [], [Leaf(TUNNEL_ID, Put32(e, tunId)), Leaf(TUNNEL_VID, Put16(e, vid)),
                             Leaf(TUNNEL_FLAGS, Put16(e, flags))])
  }

  function Infos(e: Endian, t: Entry): seq<RtAttr> {
    match t
    case Single(tunId, vid) => [Info(e, tunId, vid, 0)]
    case Range(tunId, tunIdEnd, vid, vidEnd) => [Info(e, tunId, vid, RANGE_BEGIN), Info(e, tunIdEnd, vidEnd, RANGE_END)]
  }

  /** The tunnel branch of `bridgeVlanModify`: a nonzero end of the tunnel range makes a range. */
  method WriteTunnel(e: Endian, br0: RtAttr, vid: uint16, vidEnd: uint16, tunid: uint32, tunidEnd: uint32)
    returns (br: RtAttr)
    requires tunid != 0
    ensures var t := if tunidEnd != 0 then Range(tunid, tunidEnd, vid, vidEnd) else Single(tunid, vid);
            br == br0.(children := br0.children + Infos(e, t))
  {
    hide Put16, Put32;
    if tunidEnd != 0 {
      var start := TunnelAttr(e, tunid, vid, RANGE_BEGIN);
      var end := TunnelAttr(e, tunidEnd, vidEnd, RANGE_END);
      br := br0.(children := br0.children + [start]);
      br := br.(children := br.children + [end]);
      assert br.children == br0.children + [start, end];
    } else {
      var ti := TunnelAttr(e, tunid, vid, 0);
      br := br0.(children := br0.children + [ti]);
    }
  }

  method TunnelAttr(e: Endian, tunid: uint32, vid: uint16, flags: uint16) returns (ti: RtAttr)
    ensures ti == Info(e, tunid, vid, flags)
  {
    hide Put16, Put32;
    ti := RtAttr(TUNNEL_INFO, [], []);
    ti := ti.(children := ti.children + [Leaf(TUNNEL_ID, Put32(e, tunid))]);
    ti := ti.(children := ti.children + [Leaf(TUNNEL_VID, Put16(e, vid))]);
    ti := ti.(children := ti.children + [Leaf(TUNNEL_FLAGS, Put16(e, flags))]);
    assert ti.children == Info(e, tunid, vid, flags).children;
  }

  /* ---------- reading what was written ---------- */

  lemma InfoLens(e: Endian, tunId: uint32, vid: uint16, flags: uint16)
    ensures var info := Info(e, tunId, vid, flags);
            Len(info) == 28 && forall c :: c in info.children ==> Len(c) < 0x1_0000
  {
    hide Put16, Put32;
    var cs := Info(e, tunId, vid, flags).children;
    assert cs[1..] == [cs[1], cs[2]] && [cs[1], cs[2]][1..] == [cs[2]] && [cs[2]][1..] == [];
    assert Len(cs[0]) == 8 && Len(cs[1]) == 6 && Len(cs[2]) == 6;
    assert ChildrenLen([]) == 0;
    assert ChildrenLen([cs[2]]) == 8;
    assert ChildrenLen([cs[1], cs[2]]) == 16;
    assert ChildrenLen(cs) == 24;
  }

  lemma InfoFields(e: Endian, tunId: uint32, vid: uint16, flags: uint16)
    ensures var info := Info(e, tunId, vid, flags);
            Fields(e, Bodies(e, info.children), Tunnel(0, 0, 0)) == Done(Tunnel(tunId, vid, flags))
  {
    hide Put16, Put32, Get16, Get32, SerializeAll;
    Get32Put32(e, tunId);
    Get16Put16(e, vid);
    Get16Put16(e, flags);
    var a, b, c := Attr(TUNNEL_ID, Put32(e, tunId)), Attr(TUNNEL_VID, Put16(e, vid)), Attr(TUNNEL_FLAGS, Put16(e, flags));
    assert Bodies(e, Info(e, tunId, vid, flags).children) == [a, b, c];
    assert a.value[..4] == a.value && b.value[..2] == b.value && c.value[..2] == c.value;
    assert [a, b, c][1..] == [b, c] && [b, c][1..] == [c] && [c][1..] == [];
    assert Fields(e, [c], Tunnel(tunId, vid, 0)) == Done(Tunnel(tunId, vid, flags));
    assert Fields(e, [b, c], Tunnel(tunId, 0, 0)) == Done(Tunnel(tunId, vid, flags));
  }

  lemma InfoReads(e: Endian, tunId: uint32, vid: uint16, flags: uint16, results: seq<TunnelInfo>)
    ensures ReadTunnelInfo(e, Body(e, Info(e, tunId, vid, flags)), results) == AddEntry(Tunnel(tunId, vid, flags), results)
  {
    hide Fields, AddEntry, ParseRouteAttr, Bodies, SerializeAll;
    var info := Info(e, tunId, vid, flags);
    InfoLens(e, tunId, vid, flags);
    ParseAttrs(e, info.children);
    InfoFields(e, tunId, vid, flags);
    assert Padded([]) + SerializeAll(e, info.children) == SerializeAll(e, info.children);
  }

  /** What a written entry reads back as, after whatever came before. */
  function Expanded(t: Entry): seq<TunnelInfo> {
    match t
    case Single(tunId, vid) => [TunnelInfo(tunId, vid)]
    case Range(tunId, tunIdEnd, vid, vidEnd) =>
      [TunnelInfo(tunId, vid)] + Fill((tunId + 1) % 0x1_0000_0000, (vid + 1) % 0x1_0000, vidEnd) + [TunnelInfo(tunIdEnd, vidEnd)]
  }

  function AllInfos(e: Endian, ts: seq<Entry>): seq<RtAttr> {
    if ts == [] then [] else Infos(e, ts[0]) + AllInfos(e, ts[1..])
  }

  function AllExpanded(ts: seq<Entry>): seq<TunnelInfo> {
    if ts == [] then [] else Expanded(ts[0]) + AllExpanded(ts[1..])
  }

  lemma InfoTurn(e: Endian, tunId: uint32, vid: uint16, flags: uint16, rest: seq<Attr>, results: seq<TunnelInfo>)
    ensures ReadTunnels(e, [Attr(TUNNEL_INFO, Body(e, Info(e, tunId, vid, flags)))] + rest, results) ==
            match AddEntry(Tunnel(tunId, vid, flags), results)
            case Done(more) => ReadTunnels(e, rest, more)
            case Invalid => Invalid
            case Crash => Crash
  {
    hide AddEntry, Body, ReadTunnelInfo;
    InfoReads(e, tunId, vid, flags, results);
    var attrs := [Attr(TUNNEL_INFO, Body(e, Info(e, tunId, vid, flags)))] + rest;
    assert attrs[1..] == rest;
  }

  lemma EntryReads(e: Endian, t: Entry, rest: seq<Attr>, results: seq<TunnelInfo>)
    ensures ReadTunnels(e, Bodies(e, Infos(e, t)) + rest, results) == ReadTunnels(e, rest, results + Expanded(t))
  {
    hide Body, ReadTunnels, Fill, Info;
    match t
    case Single(tunId, vid) =>
      InfoTyp(e, tunId, vid, 0);
      assert Bodies(e, Infos(e, t)) == [Attr(TUNNEL_INFO, Body(e, Info(e, tunId, vid, 0)))];
      InfoTurn(e, tunId, vid, 0, rest, results);
    case Range(tunId, tunIdEnd, vid, vidEnd) =>
      var first := TunnelInfo(tunId, vid);
      var a := Attr(TUNNEL_INFO, Body(e, Info(e, tunId, vid, RANGE_BEGIN)));
      var b := Attr(TUNNEL_INFO, Body(e, Info(e, tunIdEnd, vidEnd, RANGE_END)));
      InfoTyp(e, tunId, vid, RANGE_BEGIN);
      InfoTyp(e, tunIdEnd, vidEnd, RANGE_END);
      assert Bodies(e, Infos(e, t)) + rest == [a] + ([b] + rest);
      InfoTurn(e, tunId, vid, RANGE_BEGIN, [b] + rest, results);
      InfoTurn(e, tunIdEnd, vidEnd, RANGE_END, rest, results + [first]);
      var fill := Fill((tunId + 1) % 0x1_0000_0000, (vid + 1) % 0x1_0000, vidEnd);
      assert results + Expanded(t) == results + [first] + fill + [TunnelInfo(tunIdEnd, vidEnd)];
  }

  lemma InfoTyp(e: Endian, tunId: uint32, vid: uint16, flags: uint16)
    ensures Info(e, tunId, vid, flags).typ == TUNNEL_INFO
  {
  }

  lemma {:induction false} EntriesRead(e: Endian, ts: seq<Entry>, results: seq<TunnelInfo>)
    ensures ReadTunnels(e, Bodies(e, AllInfos(e, ts)), results) == Done(results + AllExpanded(ts))
    decreases |ts|
  {
    hide Body, Infos, Expanded, Bodies;
    if ts == [] {
      assert Bodies(e, []) == [] by { NoBodies(e); }
      assert results + [] == results;
    } else {
      BodiesConcat(e, Infos(e, ts[0]), AllInfos(e, ts[1..]));
      EntryReads(e, ts[0], Bodies(e, AllInfos(e, ts[1..])), results);
      EntriesRead(e, ts[1..], results + Expanded(ts[0]));
      assert results + Expanded(ts[0]) + AllExpanded(ts[1..]) == results + AllExpanded(ts);
    }
  }

  lemma NoBodies(e: Endian)
    ensures Bodies(e, []) == []
  {
  }

  lemma BodiesConcat(e: Endian, a: seq<RtAttr>, b: seq<RtAttr>)
    ensures Bodies(e, a + b) == Bodies(e, a) + Bodies(e, b)
  {
    hide Body;
  }

  lemma {:induction false} InfosFit(e: Endian, ts: seq<Entry>)
    ensures forall c :: c in AllInfos(e, ts) ==> Len(c) < 0x1_0000
  {
    hide Len, Info;
    if ts != [] {
      InfosFit(e, ts[1..]);
      match ts[0]
      case Single(tunId, vid) => InfoLens(e, tunId, vid, 0);
      case Range(tunId, tunIdEnd, vid, vidEnd) =>
        InfoLens(e, tunId, vid, RANGE_BEGIN);
        InfoLens(e, tunIdEnd, vidEnd, RANGE_END);
    }
  }

  /** The tunnels an entry stands for: tunnel `tunId + k` for VLAN `vid + k`. */
  function Wanted(t: Entry): seq<TunnelInfo> {
    match t
    case Single(tunId, vid) => [TunnelInfo(tunId, vid)]
    case Range(tunId, _, vid, vidEnd) => if vid <= vidEnd then Run(tunId, vid, vidEnd - vid + 1) else []
  }

  function Run(tunId: uint32, vid: nat, count: nat): seq<TunnelInfo>
    requires vid + count <= 0x1_0000
  {
    seq(count, k requires 0 <= k < count => TunnelInfo((tunId + k) % 0x1_0000_0000, vid + k))
  }

  /** A range of at least two VLANs whose tunnel span is its VLAN span (tunnel numbers wrap at 2^32). */
  predicate EqualSpan(t: Entry) {
    t.Range? ==> t.vid < t.vidEnd && t.tunIdEnd == (t.tunId + (t.vidEnd - t.vid)) % 0x1_0000_0000
  }

  lemma NextWraps(n: uint32, k: nat)
    ensures ((n + 1) % 0x1_0000_0000 + k) % 0x1_0000_0000 == (n + (k + 1)) % 0x1_0000_0000
  {
    if n == 0xFFFF_FFFF { assert n + (k + 1) == 0x1_0000_0000 + k; }
  }

  lemma RunCons(tunId: uint32, vid: nat, count: nat)
    requires count > 0 && vid + count <= 0x1_0000
    ensures Run(tunId, vid, count) == [TunnelInfo(tunId, vid)] + Run((tunId + 1) % 0x1_0000_0000, vid + 1, count - 1)
  {
    var next: uint32 := (tunId + 1) % 0x1_0000_0000;
    forall k | 0 < k < count
      ensures Run(tunId, vid, count)[k] == Run(next, vid + 1, count - 1)[k - 1]
    {
      NextWraps(tunId, k - 1);
    }
    assert Run(tunId, vid, count)[0] == TunnelInfo(tunId, vid);
  }

  lemma {:induction false} FillRuns(tunId: uint32, i: uint16, vid: uint16)
    requires i <= vid
    ensures Fill(tunId, i, vid) == Run(tunId, i, vid - i)
    decreases vid - i
  {
    hide Run;
    if i < vid {
      RunCons(tunId, i, vid - i);
      FillRuns((tunId + 1) % 0x1_0000_0000, i + 1, vid);
    } else {
      assert Run(tunId, i, 0) == [] by { RunNothing(tunId, i); }
    }
  }

  lemma RunNothing(tunId: uint32, vid: nat)
    requires vid <= 0x1_0000
    ensures Run(tunId, vid, 0) == []
  {
  }

  lemma RunSnoc(tunId: uint32, vid: nat, count: nat)
    requires vid + count < 0x1_0000
    ensures Run(tunId, vid, count + 1) == Run(tunId, vid, count) + [TunnelInfo((tunId + count) % 0x1_0000_0000, vid + count)]
  {
  }

  /** An entry reads back as the tunnels it stands for exactly when it is single or a range of equal spans. */
  lemma ExpandedExactly(t: Entry)
    ensures Expanded(t) == Wanted(t) <==> EqualSpan(t)
  {
    hide Run, Fill;
    if t.Range? && t.vid < t.vidEnd {
      var span: nat := t.vidEnd - t.vid;
      FillRuns((t.tunId + 1) % 0x1_0000_0000, t.vid + 1, t.vidEnd);
      RunCons(t.tunId, t.vid, span);
      RunSnoc(t.tunId, t.vid, span);
      var head := Run(t.tunId, t.vid, span);
      SameLast(head, TunnelInfo(t.tunIdEnd, t.vidEnd), TunnelInfo((t.tunId + span) % 0x1_0000_0000, t.vidEnd));
    } else if t.Range? && t.vid == t.vidEnd {
      RunCons(t.tunId, t.vid, 1);
      RunNothing((t.tunId + 1) % 0x1_0000_0000, t.vid + 1);
      assert |Expanded(t)| >= 2;
    }
  }

  lemma SameLast<T>(head: seq<T>, a: T, b: T)
    ensures head + [a] == head + [b] <==> a == b
  {
    assert (head + [a])[|head|] == a && (head + [b])[|head|] == b;
  }

  function AllWanted(ts: seq<Entry>): seq<TunnelInfo> {
    if ts == [] then [] else Wanted(ts[0]) + AllWanted(ts[1..])
  }

  lemma {:induction false} AllExpandedExactly(ts: seq<Entry>)
    requires forall t :: t in ts ==> EqualSpan(t)
    ensures AllExpanded(ts) == AllWanted(ts)
  {
    if ts != [] {
      ExpandedExactly(ts[0]);
      AllExpandedExactly(ts[1..]);
    }
  }

  /** The tunnel entries among the attributes to write. */
  function OnlyInfos(cs: seq<RtAttr>): seq<RtAttr> {
    if cs == [] then [] else (if cs[0].typ == 3 then [cs[0]] else []) + OnlyInfos(cs[1..])
  }

  lemma {:induction false} OnlyBodies(e: Endian, cs: seq<RtAttr>)
    ensures OnlyTunnels(Bodies(e, cs)) == Bodies(e, OnlyInfos(cs))
  {
    hide Body;
    if cs != [] {
      assert Bodies(e, cs)[1..] == Bodies(e, cs[1..]) && Bodies(e, cs)[0].typ == cs[0].typ;
      OnlyBodies(e, cs[1..]);
      BodiesConcat(e, if cs[0].typ == 3 then [cs[0]] else [], OnlyInfos(cs[1..]));
    }
  }

  /** Entries mixed with attributes of any other kind, as plain VLAN entries are, read back as the entries alone. */
  lemma MixedRoundTrip(e: Endian, cs: seq<RtAttr>, ts: seq<Entry>)
    requires (forall c :: c in cs ==> Len(c) < 0x1_0000) && OnlyInfos(cs) == AllInfos(e, ts)
    ensures var parsed := ParseRouteAttr(e, SerializeAll(e, cs));
            parsed.Done? && ReadTunnels(e, parsed.value, []) == Done(AllExpanded(ts))
  {
    hide ParseRouteAttr, SerializeAll, ReadTunnels, Bodies, Len;
    ParseAttrs(e, cs);
    OthersChangeNothing(e, Bodies(e, cs), []);
    OnlyBodies(e, cs);
    EntriesRead(e, ts, []);
    assert [] + AllExpanded(ts) == AllExpanded(ts);
  }

  /**
   * Reading the bytes of any list of single entries and equal-span ranges gives all their tunnels, in order, none lost
   * or repeated.
   */
  lemma TunnelsRoundTrip(e: Endian, ts: seq<Entry>)
    ensures var parsed := ParseRouteAttr(e, SerializeAll(e, AllInfos(e, ts)));
            && parsed.Done?
            && ReadTunnels(e, parsed.value, []) == Done(AllExpanded(ts))
            && ((forall t :: t in ts ==> EqualSpan(t)) ==> ReadTunnels(e, parsed.value, []) == Done(AllWanted(ts)))
  {
    hide ParseRouteAttr, SerializeAll, AllInfos, ReadTunnels, EqualSpan, Bodies;
    InfosFit(e, ts);
    ParseAttrs(e, AllInfos(e, ts));
    EntriesRead(e, ts, []);
    assert [] + AllExpanded(ts) == AllExpanded(ts);
    if forall t :: t in ts ==> EqualSpan(t) { AllExpandedExactly(ts); }
  }
}
