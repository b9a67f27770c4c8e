/**
 * Segmentation of a Bound Profile Package (v2/bpp.go; GSMA SGP.22 v2.5 section 2.5.5): the encoded tree is cut at
 * chosen boundaries without encoding it whole.
 */
module BoundProfile {
  import opened Bytes
  import opened BerTag
  import opened BerLength
  import opened BerTlv
  import opened BerIO

  function ContextTag(value: nat): Tag {
    EncodeTag(CONTEXT_SPECIFIC, Constructed, value)
  }

  /** `[54]`, `[35]`, `[0]`, `[1]`, `[2]` and `[3]`, all constructed and context-specific. */
  lemma TagOctets()
    ensures ContextTag(54) == [0xBF, 0x36] && ContextTag(35) == [0xBF, 0x23]
    ensures ContextTag(0) == [0xA0] && ContextTag(1) == [0xA1] && ContextTag(2) == [0xA2] && ContextTag(3) == [0xA3]
  {
    assert Continued(Septets(54)) == [54] && Continued(Septets(35)) == [35];
  }

  lemma ContextTagConstructed(value: uint64)
    ensures |ContextTag(value)| > 0 && FormOf(ContextTag(value)).Constructed? && ValidTag(ContextTag(value))
  {
    EncodedTagDecodes(CONTEXT_SPECIFIC, Constructed, value);
  }

  /** `First`: the first child with this very tag, or nil. */
  function First(cs: seq<TLV>, tag: Tag): (r: TLV)
    ensures r.TLV? ==> r in cs && r.tag == tag
  {
    if cs == [] then Nil
    else if cs[0].TLV? && cs[0].tag == tag then cs[0]
    else First(cs[1..], tag)
  }

  datatype Outcome = Segmented(segments: seq<seq<byte>>) | InvalidPackage | PackagePanic

  /** `ValidBoundProfilePackage`. */
  predicate ValidBpp(bpp: TLV) {
    && bpp.TLV?
    && bpp.tag == ContextTag(54)
    && First(bpp.children, ContextTag(35)).TLV?
    && First(bpp.children, ContextTag(0)).TLV?
    && First(bpp.children, ContextTag(1)).TLV?
    && First(bpp.children, ContextTag(3)).TLV?
  }

  /* ---------- pieces; `None` is a panic ---------- */

  /** `marshalHeader`. */
  function Header(t: TLV): Option<seq<byte>>
    requires t.TLV?
  {
    match ChildrenSize(t.children)
    case None => None
    case Some(n) => if n < LENGTH_LIMIT then Some(t.tag + MarshalLength(n)) else None
  }

  /** `Bytes` of every child, in order; calling it on a nil child panics. */
  function AllBytes(cs: seq<TLV>): Option<seq<seq<byte>>> {
    if cs == [] then Some([])
    else match (Marshal(cs[0]), AllBytes(cs[1..]))
      case (Some(b), Some(rest)) => Some([b] + rest)
      case _ => None
  }

  function NonNil(cs: seq<TLV>): (r: seq<TLV>)
    ensures forall c :: c in r <==> c in cs && c.TLV?
  {
    if cs == [] then []
    else if cs[0].Nil? then NonNil(cs[1..])
    else [cs[0]] + NonNil(cs[1..])
  }

  /** Header glued to the first non-nil child, then the others; the header alone when there is none. */
  function GluedPieces(t: TLV): Option<seq<seq<byte>>>
    requires t.TLV?
  {
    match (Header(t), AllBytes(NonNil(t.children)))
    case (Some(h), Some(bs)) => Some(if bs == [] then [h] else [h + bs[0]] + bs[1..])
    case _ => None
  }

  /** Header alone, then every child. */
  function HeadedPieces(t: TLV): Option<seq<seq<byte>>>
    requires t.TLV?
  {
    match (Header(t), AllBytes(t.children))
    case (Some(h), Some(bs)) => Some([h] + bs)
    case _ => None
  }

  function Join(a: Option<seq<seq<byte>>>, b: Option<seq<seq<byte>>>): Option<seq<seq<byte>>> {
    match (a, b)
    case (Some(x), Some(y)) => Some(x + y)
    case _ => None
  }

  function FirstPiece(bpp: TLV): Option<seq<seq<byte>>>
    requires ValidBpp(bpp)
  {
    match (Header(bpp), Marshal(First(bpp.children, ContextTag(35))))
    case (Some(h), Some(b)) => Some([h + b])
    case _ => None
  }

  function SecondSequence(bpp: TLV): Option<seq<seq<byte>>>
    requires ValidBpp(bpp)
  {
    var second := First(bpp.children, ContextTag(2));
    if second.Nil? then Some([]) else GluedPieces(second)
  }

  /** `SegmentedBoundProfilePackage`. */
  function Segment(bpp: TLV): Outcome {
    if !ValidBpp(bpp) then InvalidPackage
    else
      var cs := bpp.children;
      match Join(Join(Join(Join(FirstPiece(bpp),
                                GluedPieces(First(cs, ContextTag(0)))),
                           HeadedPieces(First(cs, ContextTag(1)))),
                      SecondSequence(bpp)),
                 HeadedPieces(First(cs, ContextTag(3))))
      case None => PackagePanic
      case Some(segments) => Segmented(segments)
  }

  /* ---------- what the pieces add up to ---------- */

  /** The children in the order of section 2.5.5; the second sequence of '87' is optional. */
  function Expected(second: bool): seq<Tag> {
    [ContextTag(35), ContextTag(0), ContextTag(1)] + (if second then [ContextTag(2)] else []) + [ContextTag(3)]
  }

  function Tags(cs: seq<TLV>): seq<Tag>
    requires forall c :: c in cs ==> c.TLV?
  {
    seq(|cs|, i requires 0 <= i < |cs| => cs[i].tag)
  }

  /** The non-nil children are exactly those of section 2.5.5, in its order. */
  predicate InOrder(bpp: TLV)
    requires bpp.TLV?
  {
    Tags(NonNil(bpp.children)) == Expected(First(bpp.children, ContextTag(2)).TLV?)
  }

  /** The children that segmentation visits, in the order in which it visits them. */
  function Visited(bpp: TLV): (r: seq<TLV>)
    requires ValidBpp(bpp)
    ensures forall c :: c in r ==> c.TLV? && c in bpp.children
  {
    var cs := bpp.children;
    var second := First(cs, ContextTag(2));
    [First(cs, ContextTag(35)), First(cs, ContextTag(0)), First(cs, ContextTag(1))]
    + (if second.TLV? then [second] else [])
    + [First(cs, ContextTag(3))]
  }

  /** The bytes of a list of children are their encodings in a row. */
  lemma {:induction false} EmitIsFlat(cs: seq<TLV>)
    requires EmitChildren(cs).status.Done? && ChildrenSize(cs).Some?
    ensures AllBytes(NonNil(cs)).Some?
    ensures Flatten(AllBytes(NonNil(cs)).value) == EmitChildren(cs).out
    ensures |AllBytes(NonNil(cs)).value| == |NonNil(cs)|
    ensures forall c :: c in cs && c.TLV? ==> Marshal(c).Some?
  {
    hide Emit;
    if cs != [] {
      EmitIsFlat(cs[1..]);
      if cs[0].TLV? {
        assert NonNil(cs)[1..] == NonNil(cs[1..]);
        var all := AllBytes(NonNil(cs)).value;
        assert all[1..] == AllBytes(NonNil(cs[1..])).value;
      }
    }
  }

  lemma {:induction false} AllBytesPanics(cs: seq<TLV>)
    requires forall c :: c in cs && c.TLV? ==> Marshal(c).Some?
    ensures AllBytes(cs).Some? <==> Nil !in cs
    ensures AllBytes(cs).Some? ==> NonNil(cs) == cs && |AllBytes(cs).value| == |cs|
  {
    hide Marshal;
    if cs != [] {
      AllBytesPanics(cs[1..]);
      if cs[0].Nil? {
        MarshalLen(cs[0]);
      } else if Nil !in cs {
        assert cs == [cs[0]] + cs[1..];
      }
    }
  }

  /** A marshalled constructed node is its header followed by its children's encodings. */
  lemma HeaderAndChildren(t: TLV)
    requires Tagged(t) && !IsPrimitive(t) && Marshal(t).Some?
    ensures Header(t).Some? && EmitChildren(t.children).status.Done? && ChildrenSize(t.children).Some?
    ensures Marshal(t).value == Header(t).value + EmitChildren(t.children).out
  {
  }

  /** Both ways of cutting a node reassemble to its encoding; only a nil child can make the second one panic. */
  lemma PiecesReassemble(t: TLV)
    requires Tagged(t) && !IsPrimitive(t) && Marshal(t).Some?
    ensures GluedPieces(t).Some?
    ensures Flatten(GluedPieces(t).value) == Marshal(t).value
    ensures |GluedPieces(t).value| == Max(1, |NonNil(t.children)|)
    ensures HeadedPieces(t).Some? <==> Nil !in t.children
    ensures HeadedPieces(t).Some? ==> Flatten(HeadedPieces(t).value) == Marshal(t).value
    ensures HeadedPieces(t).Some? ==> |HeadedPieces(t).value| == 1 + |t.children|
  {
    hide Emit, Marshal, MarshalLength;
    HeaderAndChildren(t);
    EmitIsFlat(t.children);
    AllBytesPanics(t.children);
    var h, bs := Header(t).value, AllBytes(NonNil(t.children)).value;
    if bs == [] {
      FlattenSingle(h);
      assert h + [] == h;
    } else {
      var g := [h + bs[0]] + bs[1..];
      assert g[1..] == bs[1..];
      assert h + bs[0] + Flatten(bs[1..]) == h + (bs[0] + Flatten(bs[1..]));
    }
    assert ([h] + bs)[1..] == bs;
  }

  /** The pieces of the visited children, in a row, are the header followed by those children's encodings. */
  lemma SegmentFlattens(bpp: TLV)
    requires ValidBpp(bpp) && Marshal(bpp).Some?
    ensures Segment(bpp) != InvalidPackage
    ensures Segment(bpp).Segmented? <==>
            Nil !in First(bpp.children, ContextTag(1)).children && Nil !in First(bpp.children, ContextTag(3)).children
    ensures Segment(bpp).Segmented? ==>
              && Header(bpp).Some?
              && AllBytes(Visited(bpp)).Some?
              && Flatten(Segment(bpp).segments) == Header(bpp).value + Flatten(AllBytes(Visited(bpp)).value)
    ensures Segment(bpp).Segmented? ==> |Segment(bpp).segments| == SegmentCount(bpp)
  {
    hide Marshal, ContextTag, Header, AllBytes, GluedPieces, HeadedPieces;
    VisitedMarshal(bpp);
    VisitedPieces(bpp);
    var cs := bpp.children;
    var second := First(cs, ContextTag(2));
    var init, a0, a1, a3 := First(cs, ContextTag(35)), First(cs, ContextTag(0)), First(cs, ContextTag(1)), First(cs, ContextTag(3));
    if HeadedPieces(a1).Some? && HeadedPieces(a3).Some? {
      var first := [Header(bpp).value + Marshal(init).value];
      FlattenFive(first, GluedPieces(a0).value, HeadedPieces(a1).value, SecondSequence(bpp).value, HeadedPieces(a3).value);
      FlattenSingle(Header(bpp).value + Marshal(init).value);
      var second2 := if second.TLV? then [second] else [];
      VisitedBytes(init, a0, a1, second2, a3);
      assert Flatten(SecondSequence(bpp).value) == if second2 == [] then [] else Marshal(second).value;
      Regroup(Header(bpp).value, Marshal(init).value, Marshal(a0).value, Marshal(a1).value,
              Flatten(SecondSequence(bpp).value), Marshal(a3).value);
    }
  }

  /** The two cuts, on the children that are cut. */
  lemma VisitedPieces(bpp: TLV)
    requires ValidBpp(bpp) && Marshal(bpp).Some?
    ensures var cs := bpp.children;
            && Glues(First(cs, ContextTag(0))) && Heads(First(cs, ContextTag(1))) && Heads(First(cs, ContextTag(3)))
            && (First(cs, ContextTag(2)).TLV? ==> Glues(First(cs, ContextTag(2))))
  {
    hide Marshal, ContextTag, GluedPieces, HeadedPieces;
    VisitedMarshal(bpp);
    forall c | c in Visited(bpp) ensures Glues(c) && Heads(c) {
      PiecesReassemble(c);
    }
    var cs := bpp.children;
    var v := Visited(bpp);
    assert v[1] == First(cs, ContextTag(0)) && v[2] == First(cs, ContextTag(1));
    assert v[|v| - 1] == First(cs, ContextTag(3));
    assert First(cs, ContextTag(2)).TLV? ==> v[3] == First(cs, ContextTag(2));
  }

  predicate Glues(c: TLV) {
    && c.TLV?
    && Marshal(c).Some?
    && GluedPieces(c).Some?
    && Flatten(GluedPieces(c).value) == Marshal(c).value
    && |GluedPieces(c).value| == Max(1, |NonNil(c.children)|)
  }

  predicate Heads(c: TLV) {
    && c.TLV?
    && Marshal(c).Some?
    && (HeadedPieces(c).Some? <==> Nil !in c.children)
    && (HeadedPieces(c).Some? ==>
          Flatten(HeadedPieces(c).value) == Marshal(c).value && |HeadedPieces(c).value| == 1 + |c.children|)
  }

  /** 1 for the package, then one group of segments for each visited sequence. */
  function SegmentCount(bpp: TLV): nat
    requires ValidBpp(bpp)
  {
    var cs := bpp.children;
    var second := First(cs, ContextTag(2));
    1 + Max(1, |NonNil(First(cs, ContextTag(0)).children)|)
    + 1 + |First(cs, ContextTag(1)).children|
    + (if second.TLV? then Max(1, |NonNil(second.children)|) else 0)
    + 1 + |First(cs, ContextTag(3)).children|
  }

  lemma Regroup(h: seq<byte>, a: seq<byte>, b: seq<byte>, c: seq<byte>, d: seq<byte>, e: seq<byte>)
    ensures h + a + b + c + d + e == h + (a + b + c + d + e)
  {
  }

  lemma FlattenFive(a: seq<seq<byte>>, b: seq<seq<byte>>, c: seq<seq<byte>>, d: seq<seq<byte>>, e: seq<seq<byte>>)
    ensures Flatten(a + b + c + d + e) == Flatten(a) + Flatten(b) + Flatten(c) + Flatten(d) + Flatten(e)
  {
    FlattenConcat(a + b + c + d, e);
    FlattenConcat(a + b + c, d);
    FlattenConcat(a + b, c);
    FlattenConcat(a, b);
  }

  lemma {:induction false} AllBytesConcat(a: seq<TLV>, b: seq<TLV>)
    requires AllBytes(a).Some? && AllBytes(b).Some?
    ensures AllBytes(a + b) == Some(AllBytes(a).value + AllBytes(b).value)
  {
    hide Marshal;
    if a == [] {
      assert a + b == b;
      assert [] + AllBytes(b).value == AllBytes(b).value;
    } else {
      assert (a + b)[1..] == a[1..] + b;
      AllBytesConcat(a[1..], b);
      var x, y, z := [Marshal(a[0]).value], AllBytes(a[1..]).value, AllBytes(b).value;
      assert x + (y + z) == x + y + z;
    }
  }

  lemma AllBytesOne(c: TLV)
    requires Marshal(c).Some?
    ensures AllBytes([c]) == Some([Marshal(c).value])
  {
    hide Marshal;
    var b := [Marshal(c).value];
    assert AllBytes([c][1..]) == Some([]);
    assert b + [] == b;
  }

  lemma VisitedBytes(init: TLV, a0: TLV, a1: TLV, second: seq<TLV>, a3: TLV)
    requires Marshal(init).Some? && Marshal(a0).Some? && Marshal(a1).Some? && Marshal(a3).Some?
    requires |second| <= 1 && forall c :: c in second ==> Marshal(c).Some?
    ensures var all := AllBytes([init, a0, a1] + second + [a3]);
            && all.Some?
            && Flatten(all.value) ==
               Marshal(init).value + Marshal(a0).value + Marshal(a1).value
               + (if second == [] then [] else Marshal(second[0]).value) + Marshal(a3).value
  {
    hide Marshal;
    AllBytesOne(init);
    AllBytesOne(a0);
    AllBytesOne(a1);
    AllBytesOne(a3);
    if second != [] {
      AllBytesOne(second[0]);
      assert second == [second[0]];
    }
    AllBytesConcat([init], [a0]);
    AllBytesConcat([init] + [a0], [a1]);
    assert [init, a0, a1] == [init] + [a0] + [a1];
    AllBytesConcat([init, a0, a1], second);
    AllBytesConcat([init, a0, a1] + second, [a3]);
    var b2 := AllBytes(second).value;
    FlattenFive([Marshal(init).value], [Marshal(a0).value], [Marshal(a1).value], b2, [Marshal(a3).value]);
    FlattenSingle(Marshal(init).value);
    FlattenSingle(Marshal(a0).value);
    FlattenSingle(Marshal(a1).value);
    FlattenSingle(Marshal(a3).value);
    if second != [] {
      FlattenSingle(Marshal(second[0]).value);
    }
  }

  /** In a marshalled package every visited child is itself marshalled, and constructed. */
  lemma VisitedMarshal(bpp: TLV)
    requires ValidBpp(bpp) && Marshal(bpp).Some?
    ensures Header(bpp).Some? && EmitChildren(bpp.children).status.Done? && ChildrenSize(bpp.children).Some?
    ensures Marshal(bpp).value == Header(bpp).value + EmitChildren(bpp.children).out
    ensures forall c :: c in bpp.children && c.TLV? ==> Marshal(c).Some?
    ensures forall c :: c in Visited(bpp) ==> Tagged(c) && !IsPrimitive(c) && Marshal(c).Some?
  {
    hide Emit, Marshal, MarshalLength, ContextTag;
    NodeConstructed(bpp, 54);
    HeaderAndChildren(bpp);
    EmitIsFlat(bpp.children);
    var cs := bpp.children;
    NodeConstructed(First(cs, ContextTag(35)), 35);
    NodeConstructed(First(cs, ContextTag(0)), 0);
    NodeConstructed(First(cs, ContextTag(1)), 1);
    NodeConstructed(First(cs, ContextTag(2)), 2);
    NodeConstructed(First(cs, ContextTag(3)), 3);
    hide First, IsPrimitive, Tagged, EmitChildren, ChildrenSize, NonNil, AllBytes;
  }

  lemma NodeConstructed(t: TLV, value: uint64)
    ensures t.TLV? && t.tag == ContextTag(value) ==> Tagged(t) && !IsPrimitive(t)
  {
    hide ContextTag;
    ContextTagConstructed(value);
  }

  /* ---------- order decides ---------- */

  lemma {:induction false} MembersEmit(cs: seq<TLV>)
    requires forall c :: c in cs ==> c.TLV? && Marshal(c).Some?
    ensures EmitChildren(cs).status.Done? && ChildrenSize(cs).Some? && NonNil(cs) == cs
  {
    hide Emit, Marshal, Size;
    if cs != [] {
      MembersEmit(cs[1..]);
      MarshalLen(cs[0]);
      EmitDone(cs[0]);
      assert cs == [cs[0]] + cs[1..];
    }
  }

  lemma {:induction false} MemberTags(cs: seq<TLV>)
    ensures ChildrenTagsValid(cs) <==> forall c :: c in cs && c.TLV? ==> TagsValid(c)
  {
    if cs != [] {
      MemberTags(cs[1..]);
      assert forall c :: c in cs <==> c == cs[0] || c in cs[1..];
    }
  }

  /** Dropping nil children deeper down leaves the tags at this level alone. */
  lemma {:induction false} NormalKeepsTags(cs: seq<TLV>)
    requires ChildrenTagsValid(cs)
    ensures var n := NormalChildren(cs);
            && |n| == |NonNil(cs)|
            && forall i :: 0 <= i < |n| ==> n[i].TLV? && n[i].tag == NonNil(cs)[i].tag
  {
    hide ValidTag;
    if cs != [] {
      NormalKeepsTags(cs[1..]);
      if cs[0].TLV? {
        var n, m := NormalChildren(cs[1..]), NonNil(cs[1..]);
        assert NormalChildren(cs) == [Normal(cs[0])] + n && NonNil(cs) == [cs[0]] + m;
        forall i | 0 <= i < 1 + |n| ensures NormalChildren(cs)[i].TLV? && NormalChildren(cs)[i].tag == NonNil(cs)[i].tag {
          assert i > 0 ==> NormalChildren(cs)[i] == n[i - 1] && NonNil(cs)[i] == m[i - 1];
        }
      }
    }
  }

  /** Child lists with the same bytes carry the same tags in the same order. */
  lemma SameBytesSameTags(a: seq<TLV>, b: seq<TLV>)
    requires EmitChildren(a).status.Done? && EmitChildren(b).status.Done?
    requires ChildrenTagsValid(a) && ChildrenTagsValid(b)
    requires EmitChildren(a).out == EmitChildren(b).out
    ensures Tags(NonNil(a)) == Tags(NonNil(b))
  {
    hide ParseChildren, EmitChildren, NormalChildren;
    ParseEmitChildren(a, []);
    ParseEmitChildren(b, []);
    NormalKeepsTags(a);
    NormalKeepsTags(b);
  }

  lemma NonNilStep(cs: seq<TLV>)
    ensures NonNil(cs) ==
            if cs == [] then [] else if cs[0].Nil? then NonNil(cs[1..]) else [cs[0]] + NonNil(cs[1..])
  {
  }

  lemma FirstStep(cs: seq<TLV>, tag: Tag)
    ensures First(cs, tag) ==
            if cs == [] then Nil else if cs[0].TLV? && cs[0].tag == tag then cs[0] else First(cs[1..], tag)
  {
  }

  /** The first non-nil child with a new tag is the one that `First` finds. */
  lemma {:induction false} FirstAt(cs: seq<TLV>, i: nat)
    requires i < |NonNil(cs)|
    requires forall j :: 0 <= j < i ==> NonNil(cs)[j].tag != NonNil(cs)[i].tag
    ensures First(cs, NonNil(cs)[i].tag) == NonNil(cs)[i]
  {
    hide NonNil, First;
    NonNilStep(cs);
    FirstStep(cs, NonNil(cs)[i].tag);
    if cs[0].Nil? {
      FirstAt(cs[1..], i);
    } else if i > 0 {
      assert NonNil(cs)[0] == cs[0];
      forall j | 0 <= j < i - 1 ensures NonNil(cs[1..])[j].tag != NonNil(cs[1..])[i - 1].tag {
        assert NonNil(cs)[j + 1] == NonNil(cs[1..])[j];
      }
      FirstAt(cs[1..], i - 1);
    }
  }

  /** In order, the visited children are the non-nil children. */
  lemma InOrderVisitsAll(bpp: TLV)
    requires ValidBpp(bpp)
    ensures InOrder(bpp) <==> Tags(NonNil(bpp.children)) == Tags(Visited(bpp))
    ensures InOrder(bpp) ==> NonNil(bpp.children) == Visited(bpp)
  {
    hide NonNil, First;
    TagOctets();
    var cs := bpp.children;
    var v, n := Visited(bpp), NonNil(cs);
    assert Tags(v) == Expected(First(cs, ContextTag(2)).TLV?);
    if InOrder(bpp) {
      assert |n| == |v|;
      forall i | 0 <= i < |n| ensures n[i] == v[i] {
        assert n[i].tag == Tags(n)[i] == Tags(v)[i] == v[i].tag;
        forall j | 0 <= j < i ensures n[j].tag != n[i].tag {
          assert n[j].tag == Tags(n)[j] == Expected(First(cs, ContextTag(2)).TLV?)[j];
        }
        FirstAt(cs, i);
      }
    }
  }

  /**
   * Segmentation. On every valid package that can be marshalled with tags the reader accepts: it panics exactly on a
   * nil element of the '88' or '86' sequence; otherwise the segments have the number that section 2.5.5 calls for, and
   * they concatenate to the whole encoding if and only if the children stand in the order of that section.
   */
  lemma SegmentsReassemble(bpp: TLV)
    requires ValidBpp(bpp) && Marshal(bpp).Some? && TagsValid(bpp)
    ensures Segment(bpp).PackagePanic? <==>
            Nil in First(bpp.children, ContextTag(1)).children || Nil in First(bpp.children, ContextTag(3)).children
    ensures Segment(bpp).Segmented? || Segment(bpp).PackagePanic?
    ensures Segment(bpp).Segmented? ==>
              && |Segment(bpp).segments| == SegmentCount(bpp)
              && (Flatten(Segment(bpp).segments) == Marshal(bpp).value <==> InOrder(bpp))
  {
    hide Marshal, ContextTag, Segment, Header, Emit, InOrder, Visited, SegmentCount;
    SegmentFlattens(bpp);
    if Segment(bpp).Segmented? {
      VisitedMarshal(bpp);
      var cs, v, h := bpp.children, Visited(bpp), Header(bpp).value;
      MembersEmit(v);
      EmitIsFlat(v);
      assert Flatten(Segment(bpp).segments) == h + EmitChildren(v).out;
      SamePrefix(h, EmitChildren(v).out, EmitChildren(cs).out);
      InOrderVisitsAll(bpp);
      if InOrder(bpp) {
        EmitIsFlat(cs);
      } else if EmitChildren(v).out == EmitChildren(cs).out {
        VisitedTags(bpp);
        SameBytesSameTags(v, cs);
        assert false;
      }
    }
  }

  lemma SamePrefix(h: seq<byte>, a: seq<byte>, b: seq<byte>)
    ensures h + a == h + b <==> a == b
  {
    assert (h + a)[|h|..] == a && (h + b)[|h|..] == b;
  }

  lemma VisitedTags(bpp: TLV)
    requires ValidBpp(bpp) && TagsValid(bpp)
    ensures ChildrenTagsValid(bpp.children) && ChildrenTagsValid(Visited(bpp))
  {
    hide ContextTag, ValidTag;
    ContextTagConstructed(54);
    MemberTags(bpp.children);
    MemberTags(Visited(bpp));
  }

  /* ---------- the code ---------- */

  /** `First`. */
  method FindFirst(cs: seq<TLV>, tag: Tag) returns (r: TLV)
    ensures r == First(cs, tag)
  {
    for i := 0 to |cs|
      invariant First(cs, tag) == First(cs[i..], tag)
    {
      if cs[i].TLV? && cs[i].tag == tag {
        return cs[i];
      }
      assert cs[i..][1..] == cs[i + 1..];
    }
    r := Nil;
  }

  /** `marshalHeader`; `None` is a panic. */
  method MarshalHeader(t: TLV) returns (header: Option<seq<byte>>)
    requires t.TLV?
    ensures header == Header(t)
  {
    var n: nat := 0;
    for i := 0 to |t.children|
      invariant ChildrenSize(t.children) == AddSize(n, ChildrenSize(t.children[i..]))
    {
      assert t.children[i..][1..] == t.children[i + 1..];
      if t.children[i].Nil? {
        continue;
      }
      var size := Len(t.children[i]);
      if size.None? {
        return None;
      }
      n := n + size.value;
    }
    if n >= LENGTH_LIMIT {
      return None;
    }
    header := Some(t.tag + MarshalLength(n));
  }

  /** `Bytes`; `None` is a panic. */
  method BytesOf(t: TLV) returns (bytes: Option<seq<byte>>)
    ensures bytes == Marshal(t)
  {
    var b, status := MarshalBinary(t);
    bytes := if status.Done? then Some(b) else None;
  }

  /** `appendSegmentedSequence`; not `ok` is a panic. */
  method AppendSegmentedSequence(segments: seq<seq<byte>>, sequence: TLV)
    returns (ok: bool, extended: seq<seq<byte>>)
    requires sequence.TLV?
    ensures ok <==> GluedPieces(sequence).Some?
    ensures ok ==> extended == segments + GluedPieces(sequence).value
  {
    hide Marshal;
    extended := segments;
    var h := MarshalHeader(sequence);
    if h.None? {
      return false, extended;
    }
    var cs := sequence.children;
    var headerWritten := false;
    ghost var done: seq<seq<byte>> := [];
    PrependAll([], AllBytes(NonNil(cs)));
    for i := 0 to |cs|
      invariant AllBytes(NonNil(cs)) == Before(done, AllBytes(NonNil(cs[i..])))
      invariant headerWritten <==> done != []
      invariant extended == segments + if done == [] then [] else [h.value + done[0]] + done[1..]
    {
      assert cs[i..][1..] == cs[i + 1..];
      if cs[i].Nil? {
        continue;
      }
      assert NonNil(cs[i..])[1..] == NonNil(cs[i + 1..]);
      var b := BytesOf(cs[i]);
      if b.None? {
        return false, extended;
      }
      BeforeTwice(done, b.value, AllBytes(NonNil(cs[i + 1..])));
      if !headerWritten {
        extended, headerWritten := extended + [h.value + b.value], true;
      } else {
        extended := extended + [b.value];
      }
      done := done + [b.value];
    }
    assert AllBytes(NonNil(cs)).value == done + [] == done;
    if !headerWritten {
      extended := extended + [h.value];
    }
    ok := true;
  }

  function Before(done: seq<seq<byte>>, rest: Option<seq<seq<byte>>>): Option<seq<seq<byte>>> {
    match rest
    case None => None
    case Some(bs) => Some(done + bs)
  }

  lemma PrependAll(done: seq<seq<byte>>, rest: Option<seq<seq<byte>>>)
    requires done == []
    ensures Before(done, rest) == rest
  {
    if rest.Some? {
      assert [] + rest.value == rest.value;
    }
  }

  lemma BeforeTwice(done: seq<seq<byte>>, b: seq<byte>, rest: Option<seq<seq<byte>>>)
    ensures Before(done, Before([b], rest)) == Before(done + [b], rest)
  {
    if rest.Some? {
      assert done + ([b] + rest.value) == done + [b] + rest.value;
    }
  }

  /** Header alone, then the bytes of every child; not `ok` is a panic. */
  method AppendHeaded(segments: seq<seq<byte>>, sequence: TLV) returns (ok: bool, extended: seq<seq<byte>>)
    requires sequence.TLV?
    ensures ok <==> HeadedPieces(sequence).Some?
    ensures ok ==> extended == segments + HeadedPieces(sequence).value
  {
    hide Marshal;
    extended := segments;
    var h := MarshalHeader(sequence);
    if h.None? {
      return false, extended;
    }
    extended := extended + [h.value];
    var cs := sequence.children;
    ghost var done: seq<seq<byte>> := [];
    PrependAll([], AllBytes(cs));
    for i := 0 to |cs|
      invariant AllBytes(cs) == Before(done, AllBytes(cs[i..]))
      invariant extended == segments + ([h.value] + done)
    {
      assert cs[i..][1..] == cs[i + 1..];
      var b := BytesOf(cs[i]);
      if b.None? {
        return false, extended;
      }
      BeforeTwice(done, b.value, AllBytes(cs[i + 1..]));
      extended, done := extended + [b.value], done + [b.value];
    }
    assert done + [] == done;
    ok := true;
  }

  /** `ValidBoundProfilePackage`. */
  method ValidBoundProfilePackage(bpp: TLV) returns (valid: bool)
    ensures valid <==> ValidBpp(bpp)
  {
    if bpp.Nil? {
      return false;
    }
    var packageTag := NewTag(CONTEXT_SPECIFIC, Constructed, 54);
    if bpp.tag != packageTag {
      return false;
    }
    var items := [35, 0, 1, 3];
    valid := true;
    for i := 0 to 4
      invariant valid <==> forall j :: 0 <= j < i ==> First(bpp.children, ContextTag(items[j])).TLV?
    {
      var tag := NewTag(CONTEXT_SPECIFIC, Constructed, items[i]);
      var found := FindFirst(bpp.children, tag);
      valid := valid && found.TLV?;
    }
    assert items[0] == 35 && items[1] == 0 && items[2] == 1 && items[3] == 3;
  }

  /** `SegmentedBoundProfilePackage`. */
  method SegmentedBoundProfilePackage(bpp: TLV) returns (outcome: Outcome)
    ensures outcome == Segment(bpp)
  {
    hide Marshal, ContextTag, Header, GluedPieces, HeadedPieces;
    var valid := ValidBoundProfilePackage(bpp);
    if !valid {
      return InvalidPackage;
    }
    var initialise := FindContext(bpp, 35);
    var firstOf87 := FindContext(bpp, 0);
    var of88 := FindContext(bpp, 1);
    var secondOf87 := FindContext(bpp, 2);
    var of86 := FindContext(bpp, 3);
    var h := MarshalHeader(bpp);
    var b := BytesOf(initialise);
    if h.None? || b.None? {
      return PackagePanic;
    }
    var ok, segments := AppendSegmentedSequence([h.value + b.value], firstOf87);
    if !ok {
      return PackagePanic;
    }
    ok, segments := AppendHeaded(segments, of88);
    if !ok {
      return PackagePanic;
    }
    if secondOf87.TLV? {
      ok, segments := AppendSegmentedSequence(segments, secondOf87);
      if !ok {
        return PackagePanic;
      }
    } else {
      assert segments + [] == segments;
    }
    ok, segments := AppendHeaded(segments, of86);
    outcome := if ok then Segmented(segments) else PackagePanic;
  }

  method FindContext(bpp: TLV, value: uint64) returns (r: TLV)
    requires bpp.TLV?
    ensures r == First(bpp.children, ContextTag(value))
  {
    var tag := NewTag(CONTEXT_SPECIFIC, Constructed, value);
    r := FindFirst(bpp.children, tag);
  }
}
