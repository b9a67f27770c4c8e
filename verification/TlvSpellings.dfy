/**
 * Exactly what the TLV reader accepts (bertlv/tlv_reader.go, length.go; ITU-T X.690 sections 8.1.3 and 8.1.4): trees
 * whose lengths may be spelled in any of their forms, minimal or not.
 */
module BerSpelling {
  import opened Bytes
  import opened BerTag
  import opened BerLength
  import opened BerTlv

  /** A tree as it stands in the input: every node with the octets of its length. */
  datatype Spelling =
    | Leaf(tag: Tag, length: seq<byte>, value: seq<byte>)
    | Node(tag: Tag, length: seq<byte>, children: seq<Spelling>)

  function Spelt(w: Spelling): seq<byte>
    decreases w, 0
  {
    match w
    case Leaf(tag, length, value) => tag + length + value
    case Node(tag, length, children) => tag + length + SpeltAll(children)
  }

  function SpeltAll(ws: seq<Spelling>): seq<byte>
    decreases ws, 1
  {
    if ws == [] then [] else Spelt(ws[0]) + SpeltAll(ws[1..])
  }

  function Tree(w: Spelling): TLV
    decreases w, 0
  {
    match w
    case Leaf(tag, _, value) => TLV(tag, value, [])
    case Node(tag, _, children) => TLV(tag, [], Trees(children))
  }

  function Trees(ws: seq<Spelling>): seq<TLV>
    decreases ws, 1
  {
    if ws == [] then [] else [Tree(ws[0])] + Trees(ws[1..])
  }

  /** One octet below 128, or the number of octets and then the octets of `n`. */
  predicate SpellsLength(octets: seq<byte>, n: nat) {
    || (|octets| == 1 && octets[0] < 0x80 && n == octets[0])
    || (2 <= |octets| <= 4 && octets[0] == 0x80 + (|octets| - 1) && n == BigEndian(octets[1..]))
  }

  /** Valid tags of the right form, and lengths that say how much follows. */
  predicate Sound(w: Spelling)
    decreases w, 0
  {
    && ValidTag(w.tag)
    && match w
       case Leaf(tag, length, value) => FormOf(tag).Primitive? && SpellsLength(length, |value|)
       case Node(tag, length, children) =>
         FormOf(tag).Constructed? && SpellsLength(length, |SpeltAll(children)|) && AllSound(children)
  }

  predicate AllSound(ws: seq<Spelling>)
    decreases ws, 1
  {
    ws == [] || (Sound(ws[0]) && AllSound(ws[1..]))
  }

  /** The reader takes a length exactly when the input begins with one of its spellings. */
  lemma LengthSpelled(s: seq<byte>, n: nat, k: nat)
    ensures DecodeLength(s) == Some(Field(n, k)) <==> k <= |s| && SpellsLength(s[..k], n)
  {
    hide DecodeLength, BigEndian;
    OtherForms(s);
    if s != [] {
      assert [s[0]] + s[1..] == s;
      ShortForm(s[0], s[1..]);
      var m: nat := if s[0] > 0x80 then s[0] - 0x80 else 0;
      if 1 <= m <= 3 && |s| > m {
        LongForm(s, m);
        if k == 1 + m { assert s[..k][1..] == s[1..1 + m]; }
      }
    }
  }

  lemma HeadSpelled(tag: Tag, length: seq<byte>, n: nat, content: seq<byte>)
    requires ValidTag(tag) && SpellsLength(length, n)
    ensures ReadHead(tag + length + content) == Some(Head(tag, n, |tag| + |length|))
    ensures (tag + length + content)[|tag| + |length|..] == content
  {
    hide DecodeLength, DecodeTag, SpellsLength, ValidTag;
    var s := tag + length + content;
    DecodeTagAccepts(s, tag);
    assert s[|tag|..] == length + content;
    assert (length + content)[..|length|] == length;
    LengthSpelled(length + content, n, |length|);
  }

  lemma LeafRead(tag: Tag, length: seq<byte>, value: seq<byte>, rest: seq<byte>)
    requires ValidTag(tag) && FormOf(tag).Primitive? && SpellsLength(length, |value|)
    ensures Parse(tag + length + value + rest) == Some((TLV(tag, value, []), |tag + length + value|))
  {
    hide ReadHead, SpellsLength;
    assert tag + length + value + rest == tag + length + (value + rest);
    HeadSpelled(tag, length, |value|, value + rest);
    var s, h := tag + length + (value + rest), |tag| + |length|;
    assert s[h..h + |value|] == value;
  }

  lemma NodeByHead(s: seq<byte>, tag: Tag, n: nat, h: nat)
    requires ReadHead(s) == Some(Head(tag, n, h)) && FormOf(tag).Constructed? && ParseChildren(s[h..], n).Some?
    ensures Parse(s) == Some((TLV(tag, [], ParseChildren(s[h..], n).value), h + n))
  {
    hide ReadHead, ParseChildren;
  }

  lemma NodeRead(tag: Tag, length: seq<byte>, n: nat, content: seq<byte>)
    requires ValidTag(tag) && FormOf(tag).Constructed? && SpellsLength(length, n) && ParseChildren(content, n).Some?
    ensures Parse(tag + length + content) == Some((TLV(tag, [], ParseChildren(content, n).value), |tag| + |length| + n))
  {
    hide ReadHead, SpellsLength, Parse, ParseChildren, ValidTag;
    HeadSpelled(tag, length, n, content);
    NodeByHead(tag + length + content, tag, n, |tag| + |length|);
  }

  /** Every sound spelling is read, whatever follows it. */
  lemma {:induction false} SpellingRead(w: Spelling, rest: seq<byte>)
    requires Sound(w)
    ensures Parse(Spelt(w) + rest) == Some((Tree(w), |Spelt(w)|))
    decreases w, 0
  {
    hide ReadHead, ValidTag, Parse, ParseChildren, SpellsLength, SpeltAll, Trees;
    match w
    case Leaf(tag, length, value) => LeafRead(tag, length, value, rest);
    case Node(tag, length, children) =>
      var body := SpeltAll(children);
      SpellingsRead(children, rest);
      assert Spelt(w) + rest == tag + length + (body + rest);
      NodeRead(tag, length, |body|, body + rest);
  }

  lemma {:induction false} SpellingsRead(ws: seq<Spelling>, rest: seq<byte>)
    requires AllSound(ws)
    ensures ParseChildren(SpeltAll(ws) + rest, |SpeltAll(ws)|) == Some(Trees(ws))
    decreases ws, 1
  {
    hide ReadHead, Parse, Spelt, Tree, Sound;
    if ws != [] {
      var first, tail := Spelt(ws[0]), SpeltAll(ws[1..]);
      var s, limit := SpeltAll(ws) + rest, |SpeltAll(ws)|;
      SpellingRead(ws[0], tail);
      assert s[..Min(limit, |s|)] == first + tail;
      assert s[|first|..] == tail + rest;
      SpellingsRead(ws[1..], rest);
    }
  }

  /** Whatever is read stands in the input as a sound spelling of the tree. */
  lemma {:induction false} ReadIsSpelt(s: seq<byte>) returns (w: Spelling)
    requires Parse(s).Some?
    ensures Sound(w) && Tree(w) == Parse(s).value.0 && Spelt(w) == s[..Parse(s).value.1]
    decreases |s|, 0
  {
    hide DecodeLength, DecodeTag, SpellsLength, ValidTag, ParseChildren;
    var Head(tag, n, h) := ReadHead(s).value;
    DecodeTagAccepts(s, tag);
    var length := s[|tag|..][..h - |tag|];
    LengthSpelled(s[|tag|..], n, h - |tag|);
    assert s[..h] == tag + length;
    assert s[..h + n] == s[..h] + s[h..][..n] by { ContentFits(s); }
    if FormOf(tag).Constructed? {
      var children := ChildrenAreSpelt(s[h..], n);
      w := Node(tag, length, children);
    } else {
      w := Leaf(tag, length, s[h..h + n]);
    }
  }

  lemma ContentFits(s: seq<byte>)
    requires Parse(s).Some?
    ensures var Head(tag, n, h) := ReadHead(s).value; h + n <= |s|
  {
  }

  lemma {:induction false} ChildrenAreSpelt(s: seq<byte>, limit: nat) returns (ws: seq<Spelling>)
    requires ParseChildren(s, limit).Some?
    ensures AllSound(ws) && Trees(ws) == ParseChildren(s, limit).value && SpeltAll(ws) == s[..limit]
    decreases |s|, 1
  {
    hide Parse, Sound, Tree, Spelt;
    if limit == 0 {
      ws := [];
    } else {
      ChildrenStep(s, limit);
      var (c, k) := Parse(s[..limit]).value;
      var first := ReadIsSpelt(s[..limit]);
      var others := ChildrenAreSpelt(s[k..], limit - k);
      ws := [first] + others;
      assert ws[1..] == others;
      SplitAt(s, k, limit);
    }
  }

  /**
   * What `UnmarshalBinary` accepts: exactly the sound spellings of trees, each read as its tree. A length may be spelled
   * with more octets than it needs, at every level.
   */
  lemma AcceptedExactly(data: seq<byte>, t: TLV)
    ensures Unmarshal(data) == Some(t) <==> exists w :: Sound(w) && Spelt(w) == data && Tree(w) == t
  {
    hide Parse, Sound, Spelt, Tree;
    if Unmarshal(data) == Some(t) {
      var w := ReadIsSpelt(data);
      assert data[..|data|] == data;
      assert Sound(w) && Spelt(w) == data && Tree(w) == t;
    }
    forall w | Sound(w) && Spelt(w) == data && Tree(w) == t ensures Unmarshal(data) == Some(t) {
      SpellingRead(w, []);
      assert Spelt(w) + [] == data;
    }
  }
}
