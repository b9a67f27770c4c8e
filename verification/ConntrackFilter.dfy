/**
 * The conntrack filter (netlink/conntrack_linux.go): how it is put together and which flows it matches. A subnet is the
 * set of addresses it contains.
 */
module ConntrackFiltering {
  import opened Bytes
  import opened Conntrack

  type Subnet = seq<byte> -> bool

  const ORIG_SRC_IP: nat := 0
  const ORIG_DST_IP: nat := 1
  const REPLY_SRC_IP: nat := 2
  const REPLY_DST_IP: nat := 3
  const REPLY_ANY_IP: nat := 4
  const ORIG_SRC_PORT: nat := 5
  const ORIG_DST_PORT: nat := 6
  const MATCH_LABELS: nat := 7
  const UNMATCH_LABELS: nat := 8

  datatype Filter = Filter(ipNets: map<nat, Subnet>, ports: map<nat, uint16>, protocol: byte,
                           labels: map<nat, seq<seq<byte>>>, zone: Option<uint16>)

  const EMPTY := Filter(map[], map[], 0, map[], None)

  predicate FoundAt(s: seq<byte>, part: seq<byte>, i: nat) {
    i + |part| <= |s| && s[i..i + |part|] == part
  }

  /** `bytes.Contains`. */
  predicate Contains(s: seq<byte>, part: seq<byte>) {
    exists i :: 0 <= i <= |s| && FoundAt(s, part, i)
  }

  /* ---------- one criterion ---------- */

  /** A subnet under a key that no branch looks up says nothing. */
  predicate SubnetHolds(key: nat, subnet: Subnet, flow: Flow) {
    if key == ORIG_SRC_IP then subnet(flow.forward.srcIP)
    else if key == ORIG_DST_IP then subnet(flow.forward.dstIP)
    else if key == REPLY_SRC_IP then subnet(flow.reverse.srcIP)
    else if key == REPLY_DST_IP then subnet(flow.reverse.dstIP)
    else if key == REPLY_ANY_IP then subnet(flow.reverse.srcIP) || subnet(flow.reverse.dstIP)
    else true
  }

  predicate PortHolds(key: nat, port: uint16, flow: Flow) {
    if key == ORIG_SRC_PORT then port == flow.forward.srcPort
    else if key == ORIG_DST_PORT then port == flow.forward.dstPort
    else true
  }

  /** A flow without labels meets no label criterion at all, not even an unmatching one. */
  predicate LabelsHold(key: nat, list: seq<seq<byte>>, flow: Flow) {
    var bits := flow.labels.GetOr([]);
    && bits != []
    && if key == MATCH_LABELS then forall l <- list :: Contains(bits, l)
       else if key == UNMATCH_LABELS then forall l <- list :: !Contains(bits, l)
       else true
  }

  predicate ProtocolHolds(protocol: byte, flow: Flow) {
    protocol != 0 ==> flow.forward.protocol == protocol
  }

  /** All criteria hold together. */
  predicate Criteria(f: Filter, flow: Flow) {
    && ProtocolHolds(f.protocol, flow)
    && (f.zone.Some? ==> f.zone.value == flow.zone)
    && (forall key <- f.ipNets :: SubnetHolds(key, f.ipNets[key], flow))
    && (forall key <- f.ports :: PortHolds(key, f.ports[key], flow))
    && (forall key <- f.labels :: LabelsHold(key, f.labels[key], flow))
  }

  predicate IsEmpty(f: Filter) {
    f.ipNets == map[] && f.ports == map[] && f.protocol == 0 && f.labels == map[] && f.zone.None?
  }

  class ConntrackFilter {
    var ipNets: map<nat, Subnet>
    var ports: map<nat, uint16>
    var protocol: byte
    var labels: map<nat, seq<seq<byte>>>
    var zone: Option<uint16>

    constructor ()
      ensures Value() == EMPTY
    {
      ipNets, ports, protocol, labels, zone := map[], map[], 0, map[], None;
    }

    function Value(): Filter
      reads this
    {
      Filter(ipNets, ports, protocol, labels, zone)
    }

    method AddIPNet(key: nat, subnet: Option<Subnet>) returns (ok: bool)
      modifies this
      ensures ok == (subnet.Some? && key !in old(ipNets))
      ensures !ok ==> Value() == old(Value())
      ensures ok ==> forall flow :: Criteria(Value(), flow) <==>
                                    Criteria(old(Value()), flow) && SubnetHolds(key, subnet.value, flow)
    {
      if subnet.None? || key in ipNets { return false; }
      ghost var was := Value();
      ipNets := ipNets[key := subnet.value];
      forall flow ensures Criteria(Value(), flow) <==> Criteria(was, flow) && SubnetHolds(key, subnet.value, flow) {
        SubnetNarrows(was, key, subnet.value, flow);
      }
      ok := true;
    }

    /** Ports need a protocol that has them: TCP, UDP, DCCP, SCTP or UDPLite. */
    method AddPort(key: nat, port: uint16) returns (ok: bool)
      modifies this
      ensures ok == (protocol in {6, 17, 33, 132, 136} && key !in old(ports))
      ensures !ok ==> Value() == old(Value())
      ensures ok ==> forall flow :: Criteria(Value(), flow) <==>
                                    Criteria(old(Value()), flow) && PortHolds(key, port, flow)
    {
      if protocol !in {6, 17, 33, 132, 136} || key in ports { return false; }
      ghost var was := Value();
      ports := ports[key := port];
      forall flow ensures Criteria(Value(), flow) <==> Criteria(was, flow) && PortHolds(key, port, flow) {
        PortNarrows(was, key, port, flow);
      }
      ok := true;
    }

    method AddProtocol(p: byte) returns (ok: bool)
      modifies this
      ensures ok == (old(protocol) == 0)
      ensures !ok ==> Value() == old(Value())
      ensures ok ==> forall flow :: Criteria(Value(), flow) <==> Criteria(old(Value()), flow) && ProtocolHolds(p, flow)
    {
      if protocol != 0 { return false; }
      protocol := p;
      ok := true;
    }

    method AddLabels(key: nat, list: seq<seq<byte>>) returns (ok: bool)
      modifies this
      ensures ok == (list != [] && key !in old(labels))
      ensures !ok ==> Value() == old(Value())
      ensures ok ==> forall flow :: Criteria(Value(), flow) <==>
                                    Criteria(old(Value()), flow) && LabelsHold(key, list, flow)
    {
      if list == [] || key in labels { return false; }
      ghost var was := Value();
      labels := labels[key := list];
      forall flow ensures Criteria(Value(), flow) <==> Criteria(was, flow) && LabelsHold(key, list, flow) {
        LabelsNarrow(was, key, list, flow);
      }
      ok := true;
    }

    method AddZone(z: uint16) returns (ok: bool)
      modifies this
      ensures ok == old(zone).None?
      ensures !ok ==> Value() == old(Value())
      ensures ok ==> forall flow :: Criteria(Value(), flow) <==> Criteria(old(Value()), flow) && flow.zone == z
    {
      if zone.Some? { return false; }
      zone := Some(z);
      ok := true;
    }

    /** `MatchConntrackFlow`: a filter without criteria matches nothing; any other matches when all of them hold. */
    method MatchConntrackFlow(flow: Flow) returns (match_: bool)
      ensures match_ <==> !IsEmpty(Value()) && Criteria(Value(), flow)
    {
      if |ipNets| == 0 && |ports| == 0 && protocol == 0 && |labels| == 0 && zone.None? { return false; }
      if protocol != 0 && flow.forward.protocol != protocol { return false; }
      if zone.Some? && zone.value != flow.zone { return false; }
      match_ := MatchIPs(flow);
      var portsMatch := MatchPorts(flow, match_);
      match_ := portsMatch;
      if |labels| > 0 {
        var labelled := MatchLabels(flow, match_);
        match_ := labelled;
      }
    }

    method MatchIPs(flow: Flow) returns (match_: bool)
      ensures match_ <==> forall key <- ipNets :: SubnetHolds(key, ipNets[key], flow)
    {
      match_ := true;
      if |ipNets| > 0 {
        if ORIG_SRC_IP in ipNets {
          match_ := match_ && ipNets[ORIG_SRC_IP](flow.forward.srcIP);
        }
        if match_ && ORIG_DST_IP in ipNets {
          match_ := match_ && ipNets[ORIG_DST_IP](flow.forward.dstIP);
        }
        if match_ && REPLY_SRC_IP in ipNets {
          match_ := match_ && ipNets[REPLY_SRC_IP](flow.reverse.srcIP);
        }
        if match_ && REPLY_DST_IP in ipNets {
          match_ := match_ && ipNets[REPLY_DST_IP](flow.reverse.dstIP);
        }
        if match_ && REPLY_ANY_IP in ipNets {
          match_ := match_ && (ipNets[REPLY_ANY_IP](flow.reverse.srcIP) || ipNets[REPLY_ANY_IP](flow.reverse.dstIP));
        }
      }
    }

    method MatchPorts(flow: Flow, before: bool) returns (match_: bool)
      ensures match_ <==> before && forall key <- ports :: PortHolds(key, ports[key], flow)
    {
      match_ := before;
      if |ports| > 0 {
        if match_ && ORIG_SRC_PORT in ports {
          match_ := match_ && ports[ORIG_SRC_PORT] == flow.forward.srcPort;
        }
        if match_ && ORIG_DST_PORT in ports {
          match_ := match_ && ports[ORIG_DST_PORT] == flow.forward.dstPort;
        }
      }
    }

    method MatchLabels(flow: Flow, before: bool) returns (match_: bool)
      requires labels != map[]
      ensures match_ <==> before && forall key <- labels :: LabelsHold(key, labels[key], flow)
    {
      match_ := before;
      var bits := flow.labels.GetOr([]);
      if |bits| > 0 {
        if match_ && MATCH_LABELS in labels {
          var list := labels[MATCH_LABELS];
          for i := 0 to |list|
            invariant match_ <==> forall l <- list[..i] :: Contains(bits, l)
          {
            assert list[..i + 1] == list[..i] + [list[i]];
            match_ := match_ && Contains(bits, list[i]);
          }
          assert list[..|list|] == list;
        }
        if match_ && UNMATCH_LABELS in labels {
          var list := labels[UNMATCH_LABELS];
          for i := 0 to |list|
            invariant match_ <==> forall l <- list[..i] :: !Contains(bits, l)
          {
            assert list[..i + 1] == list[..i] + [list[i]];
            match_ := match_ && !Contains(bits, list[i]);
          }
          assert list[..|list|] == list;
        }
      } else {
        match_ := false;
        var key :| key in labels;
        assert !LabelsHold(key, labels[key], flow);
      }
    }
  }

  /* ---------- criteria narrow ---------- */

  lemma SubnetNarrows(f: Filter, key: nat, subnet: Subnet, flow: Flow)
    requires key !in f.ipNets
    ensures Criteria(f.(ipNets := f.ipNets[key := subnet]), flow) <==> Criteria(f, flow) && SubnetHolds(key, subnet, flow)
  {
    hide SubnetHolds, PortHolds, LabelsHold;
    var m := f.ipNets[key := subnet];
    assert m[key] == subnet;
    assert forall k <- f.ipNets :: k in m && m[k] == f.ipNets[k];
  }

  lemma PortNarrows(f: Filter, key: nat, port: uint16, flow: Flow)
    requires key !in f.ports
    ensures Criteria(f.(ports := f.ports[key := port]), flow) <==> Criteria(f, flow) && PortHolds(key, port, flow)
  {
    hide SubnetHolds, PortHolds, LabelsHold;
    var m := f.ports[key := port];
    assert m[key] == port;
    assert forall k <- f.ports :: k in m && m[k] == f.ports[k];
  }

  lemma LabelsNarrow(f: Filter, key: nat, list: seq<seq<byte>>, flow: Flow)
    requires key !in f.labels
    ensures Criteria(f.(labels := f.labels[key := list]), flow) <==> Criteria(f, flow) && LabelsHold(key, list, flow)
  {
    hide SubnetHolds, PortHolds, LabelsHold;
    var m := f.labels[key := list];
    assert m[key] == list;
    assert forall k <- f.labels :: k in m && m[k] == f.labels[k];
  }

  /* ---------- the criteria, one by one ---------- */

  predicate Meets(nets: map<nat, Subnet>, key: nat, ip: seq<byte>) {
    key in nets ==> nets[key](ip)
  }

  /**
   * What a filter asks: subnets 0 to 3 for the source and the destination of the original and of the reply direction, 4
   * for either end of the reply, ports 5 and 6 for the original direction, labels 7 all there and labels 8 none there.
   */
  lemma CriteriaSpelledOut(f: Filter, flow: Flow)
    ensures Criteria(f, flow) <==>
            && (f.protocol == 0 || flow.forward.protocol == f.protocol)
            && (f.zone == None || f.zone == Some(flow.zone))
            && Meets(f.ipNets, 0, flow.forward.srcIP) && Meets(f.ipNets, 1, flow.forward.dstIP)
            && Meets(f.ipNets, 2, flow.reverse.srcIP) && Meets(f.ipNets, 3, flow.reverse.dstIP)
            && (Meets(f.ipNets, 4, flow.reverse.srcIP) || Meets(f.ipNets, 4, flow.reverse.dstIP))
            && (5 in f.ports ==> flow.forward.srcPort == f.ports[5])
            && (6 in f.ports ==> flow.forward.dstPort == f.ports[6])
            && (f.labels != map[] ==> flow.labels.Some? && flow.labels.value != [])
            && (7 in f.labels ==> forall l <- f.labels[7] :: Contains(flow.labels.value, l))
            && (8 in f.labels ==> forall l <- f.labels[8] :: !Contains(flow.labels.value, l))
  {
    hide Contains;
    SubnetsSpelledOut(f, flow);
    PortsSpelledOut(f, flow);
    LabelsSpelledOut(f, flow);
    hide SubnetHolds, PortHolds, LabelsHold, Meets;
  }

  lemma SubnetsSpelledOut(f: Filter, flow: Flow)
    ensures (forall key <- f.ipNets :: SubnetHolds(key, f.ipNets[key], flow)) <==>
            && Meets(f.ipNets, 0, flow.forward.srcIP) && Meets(f.ipNets, 1, flow.forward.dstIP)
            && Meets(f.ipNets, 2, flow.reverse.srcIP) && Meets(f.ipNets, 3, flow.reverse.dstIP)
            && (Meets(f.ipNets, 4, flow.reverse.srcIP) || Meets(f.ipNets, 4, flow.reverse.dstIP))
  {
  }

  lemma PortsSpelledOut(f: Filter, flow: Flow)
    ensures (forall key <- f.ports :: PortHolds(key, f.ports[key], flow)) <==>
            && (5 in f.ports ==> flow.forward.srcPort == f.ports[5])
            && (6 in f.ports ==> flow.forward.dstPort == f.ports[6])
  {
  }

  lemma LabelsSpelledOut(f: Filter, flow: Flow)
    ensures (forall key <- f.labels :: LabelsHold(key, f.labels[key], flow)) <==>
            && (f.labels != map[] ==> flow.labels.Some? && flow.labels.value != [])
            && (7 in f.labels ==> forall l <- f.labels[7] :: Contains(flow.labels.value, l))
            && (8 in f.labels ==> forall l <- f.labels[8] :: !Contains(flow.labels.value, l))
  {
    hide Contains;
    if f.labels != map[] {
      var key :| key in f.labels;
      assert LabelsHold(key, f.labels[key], flow) ==> flow.labels.Some? && flow.labels.value != [];
    }
  }

  /** A filter without criteria is one in which nothing was set. */
  lemma EmptyMeansUnset(f: Filter)
    ensures IsEmpty(f) <==> f == EMPTY
  {
  }

  /* ---------- label criteria against their documentation ---------- */

  /** The comment on `AddLabels`: an unmatching list is met by a flow that does not contain all of the labels. */
  predicate UnmatchAsDocumented(list: seq<seq<byte>>, flow: Flow) {
    var bits := flow.labels.GetOr([]);
    bits != [] && !(forall l <- list :: Contains(bits, l))
  }

  /** The code agrees with that comment exactly for flows that contain all of the labels, or none, or have none at all. */
  lemma UnmatchNeedsNone(list: seq<seq<byte>>, flow: Flow)
    requires list != []
    ensures var bits := flow.labels.GetOr([]);
            (LabelsHold(UNMATCH_LABELS, list, flow) <==> UnmatchAsDocumented(list, flow)) <==>
            (bits == [] || (forall l <- list :: Contains(bits, l)) || (forall l <- list :: !Contains(bits, l)))
  {
    hide Contains;
    assert list[0] in list;
  }

  lemma UnmatchExample()
    ensures var flow := EmptyFlow(AF_INET).(labels := Some([1]));
            UnmatchAsDocumented([[1], [2]], flow) && !LabelsHold(UNMATCH_LABELS, [[1], [2]], flow)
  {
    var bits: seq<byte> := [1];
    assert FoundAt(bits, [1], 0);
    assert !Contains(bits, [2]) by {
      forall i | 0 <= i <= |bits| ensures !FoundAt(bits, [2], i) {
        if i == 0 { assert bits[0..1][0] == 1; }
      }
    }
    assert [1] in [[1], [2]] && [2] in [[1], [2]];
  }

  /** A subnet added under a key that no branch looks up makes a filter that matches every flow. */
  lemma IgnoredKeyMatchesAll(key: nat, subnet: Subnet, flow: Flow)
    requires key > REPLY_ANY_IP
    ensures var f := EMPTY.(ipNets := map[key := subnet]);
            !IsEmpty(f) && Criteria(f, flow)
  {
    assert key in map[key := subnet];
  }
}
