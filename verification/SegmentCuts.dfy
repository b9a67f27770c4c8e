/** Where the cuts of a segmented Bound Profile Package lie (v2/bpp.go; section 2.5.5 of SGP.22), by number. */
module SegmentCuts {
  import opened Bytes
  import opened BerLength
  import opened BerTlv
  import opened BoundProfile

  /** The children's encodings have a length that can be announced. */
  predicate Measured(t: TLV)
    requires t.TLV?
  {
    ChildrenSize(t.children).Some? && ChildrenSize(t.children).value < LENGTH_LIMIT
  }

  /** Tag and length of a node, its length being that of its children's encodings. */
  function TagAndLength(t: TLV): seq<byte>
    requires t.TLV? && Measured(t)
  {
    t.tag + MarshalLength(ChildrenSize(t.children).value)
  }

  /** Segment `at` is tag and length alone, and each element is a segment after it. */
  predicate HeadedAt(segments: seq<seq<byte>>, at: nat, t: TLV)
    requires t.TLV?
  {
    && at + |t.children| < |segments|
    && Measured(t) && segments[at] == TagAndLength(t)
    && forall j :: 0 <= j < |t.children| ==> Marshal(t.children[j]) == Some(segments[at + 1 + j])
  }

  /** Segment `at` is tag and length with the first element that is not nil, if any, and each other one is a segment. */
  predicate GluedAt(segments: seq<seq<byte>>, at: nat, t: TLV)
    requires t.TLV?
  {
    var elements := NonNil(t.children);
    && at + Max(1, |elements|) <= |segments|
    && Measured(t)
    && (if elements == [] then segments[at] == TagAndLength(t)
        else Marshal(elements[0]).Some? && segments[at] == TagAndLength(t) + Marshal(elements[0]).value)
    && forall j :: 1 <= j < |elements| ==> Marshal(elements[j]) == Some(segments[at + j])
  }

  lemma {:induction false} AllBytesAt(cs: seq<TLV>)
    requires AllBytes(cs).Some?
    ensures |AllBytes(cs).value| == |cs|
    ensures forall i :: 0 <= i < |cs| ==> Marshal(cs[i]) == Some(AllBytes(cs).value[i])
  {
    hide Marshal;
    if cs != [] {
      AllBytesAt(cs[1..]);
    }
  }

  lemma HeaderIs(t: TLV)
    requires t.TLV? && Header(t).Some?
    ensures Measured(t) && Header(t).value == TagAndLength(t)
  {
  }

  lemma HeadedAlone(t: TLV)
    requires t.TLV? && HeadedPieces(t).Some?
    ensures HeadedAt(HeadedPieces(t).value, 0, t) && |HeadedPieces(t).value| == 1 + |t.children|
  {
    hide Marshal, Header, Measured, TagAndLength;
    AllBytesAt(t.children);
    HeaderIs(t);
  }

  lemma GluedAlone(t: TLV)
    requires t.TLV? && GluedPieces(t).Some?
    ensures GluedAt(GluedPieces(t).value, 0, t) && |GluedPieces(t).value| == Max(1, |NonNil(t.children)|)
  {
    hide Marshal, Header, Measured, TagAndLength;
    AllBytesAt(NonNil(t.children));
    HeaderIs(t);
  }

  lemma HeadedMoves(before: seq<seq<byte>>, pieces: seq<seq<byte>>, after: seq<seq<byte>>, t: TLV)
    requires t.TLV? && HeadedAt(pieces, 0, t)
    ensures HeadedAt(before + pieces + after, |before|, t)
  {
    hide Marshal, Measured, TagAndLength;
    var all := before + pieces + after;
    assert forall i :: 0 <= i < |pieces| ==> all[|before| + i] == pieces[i];
    assert all[|before| + 0] == pieces[0];
    forall j | 0 <= j < |t.children| ensures Marshal(t.children[j]) == Some(all[|before| + 1 + j]) {
      assert all[|before| + (1 + j)] == pieces[0 + 1 + j];
    }
  }

  lemma GluedMoves(before: seq<seq<byte>>, pieces: seq<seq<byte>>, after: seq<seq<byte>>, t: TLV)
    requires t.TLV? && GluedAt(pieces, 0, t)
    ensures GluedAt(before + pieces + after, |before|, t)
  {
    hide Marshal, Measured, TagAndLength;
    var all := before + pieces + after;
    assert forall i :: 0 <= i < |pieces| ==> all[|before| + i] == pieces[i];
    assert all[|before| + 0] == pieces[0];
    forall j | 1 <= j < |NonNil(t.children)| ensures Marshal(NonNil(t.children)[j]) == Some(all[|before| + j]) {
      assert all[|before| + j] == pieces[0 + j];
    }
  }

  /** The five groups of segments. */
  lemma Groups(bpp: TLV)
    returns (p0: seq<seq<byte>>, p1: seq<seq<byte>>, p2: seq<seq<byte>>, p3: seq<seq<byte>>, p4: seq<seq<byte>>)
    requires Segment(bpp).Segmented?
    ensures bpp.TLV? && bpp.tag == [0xBF, 0x36]
    ensures Segment(bpp).segments == p0 + p1 + p2 + p3 + p4
    ensures var cs := bpp.children;
            var initialise, firstOf87, of88 := First(cs, [0xBF, 0x23]), First(cs, [0xA0]), First(cs, [0xA1]);
            var secondOf87, of86 := First(cs, [0xA2]), First(cs, [0xA3]);
            && initialise.TLV? && firstOf87.TLV? && of88.TLV? && of86.TLV?
            && Measured(bpp) && Marshal(initialise).Some? && p0 == [TagAndLength(bpp) + Marshal(initialise).value]
            && GluedAt(p1, 0, firstOf87) && |p1| == Max(1, |NonNil(firstOf87.children)|)
            && HeadedAt(p2, 0, of88) && |p2| == 1 + |of88.children|
            && (if secondOf87.TLV? then GluedAt(p3, 0, secondOf87) && |p3| == Max(1, |NonNil(secondOf87.children)|)
                else p3 == [])
            && HeadedAt(p4, 0, of86) && |p4| == 1 + |of86.children|
  {
    hide Marshal, ContextTag, Header, GluedPieces, HeadedPieces, GluedAt, HeadedAt, Measured, TagAndLength;
    TagOctets();
    var cs := bpp.children;
    var firstOf87, of88, secondOf87, of86 := First(cs, [0xA0]), First(cs, [0xA1]), First(cs, [0xA2]), First(cs, [0xA3]);
    p0, p1, p2, p3, p4 := FirstPiece(bpp).value, GluedPieces(firstOf87).value, HeadedPieces(of88).value,
      SecondSequence(bpp).value, HeadedPieces(of86).value;
    HeaderIs(bpp);
    GluedAlone(firstOf87);
    HeadedAlone(of88);
    HeadedAlone(of86);
    if secondOf87.TLV? {
      GluedAlone(secondOf87);
    }
  }

  /**
   * Where the cuts lie, for every package that is segmented. Segment 0 is the package's tag and length and the whole
   * BF23 node. The A0 group starts at segment 1 and the A2 group, if there is one, right after the A1 group: their tag
   * and length stand at the head of their first element that is not nil. The A1 and A3 groups follow the A0 group and the
   * A2 group: their tag and length are segments of their own. Every other element is a segment by itself.
   */
  lemma CutsLie(bpp: TLV)
    requires Segment(bpp).Segmented?
    ensures bpp.TLV? && bpp.tag == [0xBF, 0x36]
    ensures var s, cs := Segment(bpp).segments, bpp.children;
            var initialise, firstOf87, of88 := First(cs, [0xBF, 0x23]), First(cs, [0xA0]), First(cs, [0xA1]);
            var secondOf87, of86 := First(cs, [0xA2]), First(cs, [0xA3]);
            && initialise.TLV? && firstOf87.TLV? && of88.TLV? && of86.TLV?
            && var o1 := 1 + Max(1, |NonNil(firstOf87.children)|);
            var o2 := o1 + 1 + |of88.children|;
            var o3 := o2 + if secondOf87.TLV? then Max(1, |NonNil(secondOf87.children)|) else 0;
            && |s| == o3 + 1 + |of86.children|
            && Measured(bpp) && Marshal(initialise).Some? && s[0] == TagAndLength(bpp) + Marshal(initialise).value
            && GluedAt(s, 1, firstOf87)
            && HeadedAt(s, o1, of88)
            && (secondOf87.TLV? ==> GluedAt(s, o2, secondOf87))
            && HeadedAt(s, o3, of86)
  {
    hide Marshal, Segment, First, NonNil, GluedAt, HeadedAt, Measured, TagAndLength;
    var p0, p1, p2, p3, p4 := Groups(bpp);
    var cs := bpp.children;
    var s := Segment(bpp).segments;
    assert s == p0 + p1 + (p2 + p3 + p4) == p0 + p1 + p2 + (p3 + p4) == p0 + p1 + p2 + p3 + p4 + [];
    GluedMoves(p0, p1, p2 + p3 + p4, First(cs, [0xA0]));
    HeadedMoves(p0 + p1, p2, p3 + p4, First(cs, [0xA1]));
    if First(cs, [0xA2]).TLV? {
      GluedMoves(p0 + p1 + p2, p3, p4, First(cs, [0xA2]));
    }
    HeadedMoves(p0 + p1 + p2 + p3, p4, [], First(cs, [0xA3]));
  }

  /**
   * A package is refused as invalid exactly when it is nil, does not bear BF36, or lacks BF23, A0, A1 or A3; A2 may be
   * absent. So with nothing to panic on, every other package is segmented.
   */
  lemma RefusedExactly(bpp: TLV)
    ensures Segment(bpp) == InvalidPackage <==>
            || bpp.Nil? || bpp.tag != [0xBF, 0x36]
            || First(bpp.children, [0xBF, 0x23]).Nil? || First(bpp.children, [0xA0]).Nil?
            || First(bpp.children, [0xA1]).Nil? || First(bpp.children, [0xA3]).Nil?
  {
    hide ContextTag, First, Marshal, Header, GluedPieces, HeadedPieces, FirstPiece, SecondSequence;
    TagOctets();
  }
}
