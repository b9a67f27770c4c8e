/**
 * BER-TLV trees (bertlv/tlv.go, length.go, tlv_writer.go, tlv_reader.go): what the writer emits and what the
 * reader accepts, as functions, and the laws that connect the two.
 */
module BerTlv {
  import opened Bytes
  import opened BerTag
  import opened BerLength

  /** A pointer to a node: nil, or a node with its own children pointers. */
  datatype TLV = Nil | TLV(tag: Tag, value: seq<byte>, children: seq<TLV>)

  /** A node whose tag has a first octet to look at: `tlv.Tag.Form()` does not panic. */
  predicate Tagged(t: TLV) {
    t.TLV? && |t.tag| > 0
  }

  predicate IsPrimitive(t: TLV)
    requires Tagged(t)
  {
    FormOf(t.tag).Primitive?
  }

  /* ---------- sizes ---------- */

  /** `contentLength`; `None` where the source panics (nil, an empty tag, or a descendant too long to be announced). */
  function ContentSize(t: TLV): Option<nat>
    decreases t, 0
  {
    if !Tagged(t) then None
    else if IsPrimitive(t) then Some(|t.value|)
    else ChildrenSize(t.children)
  }

  function ChildrenSize(cs: seq<TLV>): Option<nat>
    decreases cs, 0
  {
    if cs == [] then Some(0)
    else if cs[0].Nil? then ChildrenSize(cs[1..])
    else
      match (Size(cs[0]), ChildrenSize(cs[1..]))
      case (Some(a), Some(b)) => Some(a + b)
      case _ => None
  }

  /** `Len`; `None` where the source panics. */
  function Size(t: TLV): Option<nat>
    decreases t, 1
  {
    match ContentSize(t)
    case None => None
    case Some(n) => if n >= LENGTH_LIMIT then None else Some(|t.tag| + |MarshalLength(n)| + n)
  }

  /* ---------- writing ---------- */

  datatype Status = Done | Rejected | Panicked

  /** The bytes handed to the writer, in order, and how the call ended. */
  datatype Emission = Emission(out: seq<byte>, status: Status)

  /** `WriteTo`. */
  function Emit(t: TLV): Emission
    decreases t, 0
  {
    match ContentSize(t)
    case None => Emission([], Panicked)
    case Some(n) =>
      if (t.value != [] && !IsPrimitive(t)) || (t.children != [] && IsPrimitive(t)) || n >= LENGTH_LIMIT then
        Emission([], Rejected)
      else
        var header := t.tag + MarshalLength(n);
        if IsPrimitive(t) then Emission(header + t.value, Done)
        else
          var body := EmitChildren(t.children);
          Emission(header + body.out, body.status)
  }

  function EmitChildren(cs: seq<TLV>): Emission
    decreases cs, 0
  {
    if cs == [] then Emission([], Done)
    else if cs[0].Nil? then EmitChildren(cs[1..])
    else
      var first := Emit(cs[0]);
      if !first.status.Done? then first
      else
        var rest := EmitChildren(cs[1..]);
        Emission(first.out + rest.out, rest.status)
  }

  /** `Bytes`: `None` where the source panics. `MarshalBinary` sizes the tree before it writes it. */
  function Marshal(t: TLV): Option<seq<byte>> {
    if Size(t).Some? && Emit(t).status.Done? then Some(Emit(t).out) else None
  }

  /** `Clone`: nil children dropped at every level. */
  function Normal(t: TLV): TLV
    requires Tagged(t)
    decreases t, 0
  {
    if IsPrimitive(t) then TLV(t.tag, t.value, []) else TLV(t.tag, [], NormalChildren(t.children))
  }

  function NormalChildren(cs: seq<TLV>): seq<TLV>
    decreases cs, 0
  {
    if cs == [] then []
    else if !Tagged(cs[0]) then NormalChildren(cs[1..])
    else [Normal(cs[0])] + NormalChildren(cs[1..])
  }

  /* ---------- shape ---------- */

  /** Values on primitive nodes only and children on constructed nodes only, at every level. */
  predicate WellShaped(t: TLV)
    decreases t, 0
  {
    && Tagged(t)
    && if IsPrimitive(t) then t.children == [] else t.value == [] && ChildrenShaped(t.children)
  }

  predicate ChildrenShaped(cs: seq<TLV>)
    decreases cs, 0
  {
    cs == [] || ((cs[0].Nil? || WellShaped(cs[0])) && ChildrenShaped(cs[1..]))
  }

  /** Every tag has a first octet: what `Clone` needs not to panic. */
  predicate AllTagged(t: TLV)
    decreases t, 0
  {
    Tagged(t) && (IsPrimitive(t) || ChildrenTagged(t.children))
  }

  predicate ChildrenTagged(cs: seq<TLV>)
    decreases cs, 0
  {
    cs == [] || ((cs[0].Nil? || AllTagged(cs[0])) && ChildrenTagged(cs[1..]))
  }

  /** Every tag that the writer emits is one the reader accepts. */
  predicate TagsValid(t: TLV)
    decreases t, 0
  {
    Tagged(t) && ValidTag(t.tag) && (IsPrimitive(t) || ChildrenTagsValid(t.children))
  }

  predicate ChildrenTagsValid(cs: seq<TLV>)
    decreases cs, 0
  {
    cs == [] || ((cs[0].Nil? || TagsValid(cs[0])) && ChildrenTagsValid(cs[1..]))
  }

  /** No nil child at any level. */
  predicate NoNil(t: TLV)
    decreases t, 0
  {
    t.TLV? && ChildrenNoNil(t.children)
  }

  predicate ChildrenNoNil(cs: seq<TLV>)
    decreases cs, 0
  {
    cs == [] || (NoNil(cs[0]) && ChildrenNoNil(cs[1..]))
  }

  /* ---------- the writer ---------- */

  /** `WriteTo` succeeds exactly on well-shaped trees whose lengths can all be announced, and emits `Len` bytes. */
  lemma {:induction false} EmitDone(t: TLV)
    ensures Emit(t).status.Done? <==> WellShaped(t) && Size(t).Some?
    ensures Emit(t).status.Done? ==> |Emit(t).out| == Size(t).value
    decreases t, 0
  {
    if ContentSize(t).Some? && !IsPrimitive(t) {
      EmitChildrenDone(t.children);
    }
  }

  lemma {:induction false} EmitChildrenDone(cs: seq<TLV>)
    ensures ChildrenSize(cs).Some? ==> (EmitChildren(cs).status.Done? <==> ChildrenShaped(cs))
    ensures EmitChildren(cs).status.Done? ==> ChildrenSize(cs) == Some(|EmitChildren(cs).out|)
    decreases cs, 0
  {
    if cs != [] {
      EmitChildrenDone(cs[1..]);
      if cs[0].TLV? {
        EmitDone(cs[0]);
      }
    }
  }

  /** A tree that `Len` can measure is written without a panic, though it may be rejected. */
  lemma {:induction false} SizedNeverPanics(t: TLV)
    requires ContentSize(t).Some?
    ensures !Emit(t).status.Panicked?
    decreases t, 0
  {
    if !IsPrimitive(t) {
      SizedChildrenNeverPanic(t.children);
    }
  }

  lemma {:induction false} SizedChildrenNeverPanic(cs: seq<TLV>)
    requires ChildrenSize(cs).Some?
    ensures !EmitChildren(cs).status.Panicked?
    decreases cs, 0
  {
    if cs != [] {
      SizedChildrenNeverPanic(cs[1..]);
      if cs[0].TLV? {
        SizedNeverPanics(cs[0]);
      }
    }
  }

  /** Once sized, a tree is marshalled iff it is well shaped, and to exactly `Len` bytes. */
  lemma MarshalLen(t: TLV)
    ensures Marshal(t).Some? <==> WellShaped(t) && Size(t).Some?
    ensures Marshal(t).Some? ==> |Marshal(t).value| == Size(t).value >= 2
  {
    EmitDone(t);
  }

  lemma {:induction false} NormalShape(t: TLV)
    requires WellShaped(t)
    ensures NoNil(Normal(t)) && WellShaped(Normal(t)) && (NoNil(t) ==> Normal(t) == t)
    decreases t, 0
  {
    if !IsPrimitive(t) {
      NormalChildrenShape(t.children);
    }
  }

  lemma {:induction false} NormalChildrenShape(cs: seq<TLV>)
    requires ChildrenShaped(cs)
    ensures var n := NormalChildren(cs); ChildrenNoNil(n) && ChildrenShaped(n) && (ChildrenNoNil(cs) ==> n == cs)
    decreases cs, 0
  {
    if cs != [] {
      NormalChildrenShape(cs[1..]);
      var n := NormalChildren(cs);
      if cs[0].TLV? {
        NormalShape(cs[0]);
        assert n == [Normal(cs[0])] + NormalChildren(cs[1..]);
        assert cs == [cs[0]] + cs[1..];
      } else {
        assert !ChildrenNoNil(cs);
      }
    }
  }

  /** Dropping nil children changes neither the length nor the bytes. */
  lemma {:induction false} NormalEmit(t: TLV)
    requires WellShaped(t)
    ensures Size(Normal(t)) == Size(t) && Emit(Normal(t)) == Emit(t)
    decreases t, 0
  {
    if !IsPrimitive(t) {
      NormalChildrenEmit(t.children);
    }
  }

  lemma {:induction false} NormalChildrenEmit(cs: seq<TLV>)
    requires ChildrenShaped(cs)
    ensures ChildrenSize(NormalChildren(cs)) == ChildrenSize(cs)
    ensures EmitChildren(NormalChildren(cs)) == EmitChildren(cs)
    decreases cs, 0
  {
    if cs != [] {
      NormalChildrenEmit(cs[1..]);
      if cs[0].TLV? {
        NormalEmit(cs[0]);
        var n := NormalChildren(cs);
        assert n[0] == Normal(cs[0]) && n[1..] == NormalChildren(cs[1..]);
      }
    }
  }

  /* ---------- reading ---------- */

  /** Tag and length fields, and the number of bytes they take. */
  datatype Head = Head(tag: Tag, length: nat, size: nat)

  function ReadHead(s: seq<byte>): (r: Option<Head>)
    ensures r.Some? ==> |r.value.tag| > 0 && 2 <= r.value.size <= |s|
  {
    match DecodeTag(s)
    case None => None
    case Some(tag) =>
      DecodeTagAccepts(s, tag);
      match DecodeLength(s[|tag|..])
      case None => None
      case Some(Field(length, octets)) => Some(Head(tag, length, |tag| + octets))
  }

  /**
   * `TLV.ReadFrom` on a reader that can still deliver exactly `s`: the tree and the number of bytes taken.
   * Bytes past a limit, or past the end of the stream, are not part of `s`.
   */
  function Parse(s: seq<byte>): (r: Option<(TLV, nat)>)
    ensures r.Some? ==> 2 <= r.value.1 <= |s| && Tagged(r.value.0)
    decreases |s|, 0
  {
    match ReadHead(s)
    case None => None
    case Some(Head(tag, length, h)) =>
      if FormOf(tag).Constructed? then
        match ParseChildren(s[h..], length)
        case None => None
        case Some(cs) => Some((TLV(tag, [], cs), h + length))
      else if |s| - h < length then None
      else Some((TLV(tag, s[h..h + length], []), h + length))
  }

  /** The child loop, with `limit` bytes of the declared length left and `s` left to deliver. */
  function ParseChildren(s: seq<byte>, limit: nat): (r: Option<seq<TLV>>)
    ensures r.Some? ==> limit <= |s|
    decreases |s|, 1
  {
    if limit == 0 then Some([])
    else match Parse(s[..Min(limit, |s|)])
      case None => None
      case Some((c, k)) =>
        match ParseChildren(s[k..], limit - k)
        case None => None
        case Some(cs) => Some([c] + cs)
  }

  /** `UnmarshalBinary`: one tree and nothing after it. */
  function Unmarshal(data: seq<byte>): Option<TLV> {
    match Parse(data)
    case Some((t, n)) => if n == |data| then Some(t) else None
    case None => None
  }

  /* ---------- reading undoes writing ---------- */

  /** An emitted header is read back whole, and leaves the reader at the content. */
  lemma HeadRoundTrip(tag: Tag, n: nat, content: seq<byte>)
    requires ValidTag(tag) && n < LENGTH_LIMIT
    ensures var header := tag + MarshalLength(n);
            && ReadHead(header + content) == Some(Head(tag, n, |header|))
            && (header + content)[|header|..] == content
  {
    var s := tag + MarshalLength(n) + content;
    DecodeTagAccepts(s, tag);
    assert s[|tag|..] == MarshalLength(n) + content;
    LengthRoundTrip(n, content);
  }

  lemma ParsePrimitive(tag: Tag, value: seq<byte>, rest: seq<byte>)
    requires ValidTag(tag) && FormOf(tag).Primitive? && |value| < LENGTH_LIMIT
    ensures var header := tag + MarshalLength(|value|);
            Parse(header + (value + rest)) == Some((TLV(tag, value, []), |header| + |value|))
  {
    var h := |tag + MarshalLength(|value|)|;
    var s := tag + MarshalLength(|value|) + (value + rest);
    HeadRoundTrip(tag, |value|, value + rest);
    assert s[h..h + |value|] == value;
  }

  lemma ParseConstructed(tag: Tag, n: nat, content: seq<byte>)
    requires ValidTag(tag) && FormOf(tag).Constructed? && n < LENGTH_LIMIT
    requires ParseChildren(content, n).Some?
    ensures var header := tag + MarshalLength(n);
            Parse(header + content) == Some((TLV(tag, [], ParseChildren(content, n).value), |header| + n))
  {
    hide ReadHead;
    HeadRoundTrip(tag, n, content);
  }

  lemma {:induction false} ParseEmit(t: TLV, rest: seq<byte>)
    requires Emit(t).status.Done? && TagsValid(t)
    ensures Parse(Emit(t).out + rest) == Some((Normal(t), |Emit(t).out|))
    decreases t, 0
  {
    hide ReadHead, MarshalLength, ValidTag, Parse, ParseChildren, EmitChildren, NormalChildren, ChildrenSize;
    var n := ContentSize(t).value;
    var header := t.tag + MarshalLength(n);
    var body := if IsPrimitive(t) then t.value else EmitChildren(t.children).out;
    assert Emit(t).out + rest == header + (body + rest);
    if IsPrimitive(t) {
      ParsePrimitive(t.tag, t.value, rest);
      assert Normal(t) == TLV(t.tag, t.value, []);
    } else {
      EmitChildrenDone(t.children);
      ParseEmitChildren(t.children, rest);
      ParseConstructed(t.tag, n, body + rest);
      assert Normal(t) == TLV(t.tag, [], NormalChildren(t.children));
    }
  }

  lemma {:induction false} ParseEmitChildren(cs: seq<TLV>, rest: seq<byte>)
    requires EmitChildren(cs).status.Done? && ChildrenTagsValid(cs)
    ensures ParseChildren(EmitChildren(cs).out + rest, |EmitChildren(cs).out|) == Some(NormalChildren(cs))
    decreases cs, 0
  {
    hide ReadHead, Parse, Emit;
    if cs != [] {
      if cs[0].Nil? {
        ParseEmitChildren(cs[1..], rest);
      } else {
        var first, tail := Emit(cs[0]).out, EmitChildren(cs[1..]).out;
        var s, limit := EmitChildren(cs).out + rest, |EmitChildren(cs).out|;
        EmitDone(cs[0]);
        MarshalLen(cs[0]);
        ParseEmit(cs[0], tail);
        assert s[..Min(limit, |s|)] == first + tail;
        assert s[|first|..] == tail + rest;
        ParseEmitChildren(cs[1..], rest);
      }
    }
  }

  /* ---------- what the reader returns ---------- */

  /** Parsed trees are well shaped, free of nil children, and carry only valid tags. */
  lemma {:induction false} ParsedShape(s: seq<byte>)
    requires Parse(s).Some?
    ensures var t := Parse(s).value.0; WellShaped(t) && NoNil(t) && TagsValid(t)
    decreases |s|, 0
  {
    var Head(tag, length, h) := ReadHead(s).value;
    DecodeTagAccepts(s, tag);
    if FormOf(tag).Constructed? {
      ParsedChildrenShape(s[h..], length);
    }
  }

  lemma {:induction false} ParsedChildrenShape(s: seq<byte>, limit: nat)
    requires ParseChildren(s, limit).Some?
    ensures var cs := ParseChildren(s, limit).value;
            ChildrenShaped(cs) && ChildrenNoNil(cs) && ChildrenTagsValid(cs)
    decreases |s|, 1
  {
    hide Parse, ParseChildren, WellShaped, TagsValid, NoNil, ChildrenShaped, ChildrenTagsValid, ChildrenNoNil,
      ChildrenMinimal;
    if limit == 0 {
      NoChildrenLeft(s);
    } else {
      ChildrenStep(s, limit);
      var (c, k) := Parse(s[..limit]).value;
      ParsedShape(s[..limit]);
      ParsedChildrenShape(s[k..], limit - k);
      ShapeCons(c, ParseChildren(s[k..], limit - k).value);
    }
  }

  lemma NoChildrenLeft(s: seq<byte>)
    ensures ParseChildren(s, 0) == Some([])
    ensures ChildrenShaped([]) && ChildrenNoNil([]) && ChildrenTagsValid([])
  {
  }

  lemma ShapeCons(c: TLV, tail: seq<TLV>)
    requires c.TLV?
    ensures ChildrenShaped([c] + tail) == (WellShaped(c) && ChildrenShaped(tail))
    ensures ChildrenNoNil([c] + tail) == (NoNil(c) && ChildrenNoNil(tail))
    ensures ChildrenTagsValid([c] + tail) == (TagsValid(c) && ChildrenTagsValid(tail))
  {
    hide WellShaped, TagsValid, NoNil;
    assert ([c] + tail)[1..] == tail;
  }

  /** Every length field met while reading the tree at the head of `s` is the shortest for its length. */
  predicate MinimalLengths(s: seq<byte>)
    requires Parse(s).Some?
    decreases |s|, 0
  {
    var Head(tag, length, h) := ReadHead(s).value;
    && MinimalField(length, h - |tag|)
    && (FormOf(tag).Constructed? ==> ChildrenMinimal(s[h..], length))
  }

  predicate ChildrenMinimal(s: seq<byte>, limit: nat)
    requires ParseChildren(s, limit).Some?
    decreases |s|, 1
  {
    limit == 0 ||
    var window := s[..Min(limit, |s|)];
    MinimalLengths(window) && ChildrenMinimal(s[Parse(window).value.1..], limit - Parse(window).value.1)
  }

  /** `e` repeats the bytes `taken` when the lengths in them are minimal, and is shorter when they are not. */
  predicate Reencodes(e: Emission, minimal: bool, taken: seq<byte>) {
    && e.status.Done?
    && (minimal ==> e.out == taken)
    && (!minimal ==> |e.out| < |taken|)
  }

  lemma ReencodesConcat(e1: Emission, m1: bool, taken1: seq<byte>, e2: Emission, m2: bool, taken2: seq<byte>)
    requires Reencodes(e1, m1, taken1) && Reencodes(e2, m2, taken2)
    ensures Reencodes(Emission(e1.out + e2.out, Done), m1 && m2, taken1 + taken2)
  {
  }

  lemma {:induction false} ReencodeTree(s: seq<byte>)
    requires Parse(s).Some?
    ensures Reencodes(Emit(Parse(s).value.0), MinimalLengths(s), s[..Parse(s).value.1])
    decreases |s|, 0
  {
    var (t, n) := Parse(s).value;
    var Head(tag, length, h) := ReadHead(s).value;
    assert s[..n] == s[..h] + s[h..][..length];
    var body := if IsPrimitive(t) then Emission(t.value, Done) else EmitChildren(t.children);
    var bodyMinimal := IsPrimitive(t) || ChildrenMinimal(s[h..], length);
    if !IsPrimitive(t) {
      ReencodeChildren(s[h..], length);
      EmitChildrenDone(t.children);
    }
    assert Reencodes(body, bodyMinimal, s[h..][..length]);
    ReencodeHead(s, |body.out|);
    if |body.out| < length {
      assert !bodyMinimal;
    } else {
      var header := tag + MarshalLength(length);
      ReencodesConcat(Emission(header, Done), MinimalField(length, h - |tag|), s[..h],
                      body, bodyMinimal, s[h..][..length]);
    }
  }

  /** A header for no more content than announced takes no more bytes than the header that was read. */
  lemma ReencodeHead(s: seq<byte>, content: nat)
    requires ReadHead(s).Some? && content <= ReadHead(s).value.length
    ensures var Head(tag, length, h) := ReadHead(s).value;
            && length < LENGTH_LIMIT
            && |tag + MarshalLength(content)| <= h
            && Reencodes(Emission(tag + MarshalLength(length), Done), MinimalField(length, h - |tag|), s[..h])
  {
    var Head(tag, length, h) := ReadHead(s).value;
    DecodeTagAccepts(s, tag);
    LengthCanonical(s[|tag|..]);
    MarshalLengthMonotone(content, length);
    assert s[..h] == tag + s[|tag|..][..h - |tag|];
  }

  lemma {:induction false} ReencodeChildren(s: seq<byte>, limit: nat)
    requires ParseChildren(s, limit).Some?
    ensures Reencodes(EmitChildren(ParseChildren(s, limit).value), ChildrenMinimal(s, limit), s[..limit])
    decreases |s|, 1
  {
    hide ReadHead;
    if limit > 0 {
      var (c, k) := Parse(s[..limit]).value;
      var tail := ParseChildren(s[k..], limit - k).value;
      ChildrenStep(s, limit);
      ReencodeTree(s[..limit]);
      ReencodeChildren(s[k..], limit - k);
      ReencodesConcat(Emit(c), MinimalLengths(s[..limit]), s[..limit][..k],
                      EmitChildren(tail), ChildrenMinimal(s[k..], limit - k), s[k..][..limit - k]);
      EmitCons(c, tail);
      SplitAt(s, k, limit);
    }
  }

  /** One turn of the child loop. */
  lemma ChildrenStep(s: seq<byte>, limit: nat)
    requires ParseChildren(s, limit).Some? && limit > 0
    ensures Parse(s[..limit]).Some?
    ensures var (c, k) := Parse(s[..limit]).value;
            && ParseChildren(s[k..], limit - k).Some?
            && ParseChildren(s, limit).value == [c] + ParseChildren(s[k..], limit - k).value
            && (ChildrenMinimal(s, limit) <==> MinimalLengths(s[..limit]) && ChildrenMinimal(s[k..], limit - k))
  {
    hide ReadHead;
    assert Min(limit, |s|) == limit;
  }

  lemma EmitCons(c: TLV, tail: seq<TLV>)
    requires c.TLV? && Emit(c).status.Done? && EmitChildren(tail).status.Done?
    ensures EmitChildren([c] + tail) == Emission(Emit(c).out + EmitChildren(tail).out, Done)
  {
    assert ([c] + tail)[1..] == tail;
  }

  lemma SplitAt(s: seq<byte>, k: nat, limit: nat)
    requires k <= limit <= |s|
    ensures s[..limit] == s[..limit][..k] + s[k..][..limit - k]
  {
  }

  /* ---------- the two main laws ---------- */

  /**
   * Round trip. For every tree that can be marshalled, the encoding is `Len` bytes, and reading it back (whatever
   * follows it) returns the tree with nil children dropped, if and only if its tags are ones the reader accepts.
   */
  lemma RoundTrip(t: TLV, rest: seq<byte>)
    requires Marshal(t).Some?
    ensures |Marshal(t).value| == Size(t).value
    ensures Parse(Marshal(t).value + rest) == Some((Normal(t), Size(t).value)) <==> TagsValid(t)
    ensures Unmarshal(Marshal(t).value) == Some(Normal(t)) <==> TagsValid(t)
  {
    MarshalLen(t);
    if TagsValid(t) {
      ParseEmit(t, rest);
      ParseEmit(t, []);
      assert Marshal(t).value + [] == Marshal(t).value;
    } else {
      NormalTags(t);
      if Parse(Marshal(t).value + rest).Some? { ParsedShape(Marshal(t).value + rest); }
      if Parse(Marshal(t).value).Some? { ParsedShape(Marshal(t).value); }
    }
  }

  lemma {:induction false} NormalTags(t: TLV)
    requires WellShaped(t)
    ensures TagsValid(Normal(t)) == TagsValid(t)
    decreases t, 0
  {
    if !IsPrimitive(t) {
      NormalChildrenTags(t.children);
    }
  }

  lemma {:induction false} NormalChildrenTags(cs: seq<TLV>)
    requires ChildrenShaped(cs)
    ensures ChildrenTagsValid(NormalChildren(cs)) == ChildrenTagsValid(cs)
    decreases cs, 0
  {
    if cs != [] {
      NormalChildrenTags(cs[1..]);
      if cs[0].TLV? {
        NormalTags(cs[0]);
        var n := NormalChildren(cs);
        assert n[0] == Normal(cs[0]) && n[1..] == NormalChildren(cs[1..]);
      }
    }
  }

  /**
   * Canonicalisation. Whatever `UnmarshalBinary` accepts can be re-encoded without a panic, to no more bytes than
   * were read; to those very bytes iff every length was minimal; and the result reads back as the same tree.
   */
  lemma Canonicalisation(data: seq<byte>)
    requires Unmarshal(data).Some?
    ensures var t := Unmarshal(data).value;
            && Marshal(t).Some?
            && |Marshal(t).value| <= |data|
            && (Marshal(t).value == data <==> MinimalLengths(data))
            && Unmarshal(Marshal(t).value) == Some(t)
  {
    var (t, n) := Parse(data).value;
    assert data[..n] == data;
    ReencodeTree(data);
    ParsedShape(data);
    EmitDone(t);
    NormalShape(t);
    RoundTrip(t, []);
  }

  /** Two marshalled trees with accepted tags have the same bytes only when they are the same tree up to nil children. */
  lemma EmitInjective(a: TLV, b: TLV)
    requires Marshal(a).Some? && Marshal(b).Some? && TagsValid(a) && TagsValid(b)
    ensures Marshal(a) == Marshal(b) <==> Normal(a) == Normal(b)
  {
    RoundTrip(a, []);
    RoundTrip(b, []);
    MarshalLen(a);
    MarshalLen(b);
    NormalEmit(a);
    NormalEmit(b);
  }
}
