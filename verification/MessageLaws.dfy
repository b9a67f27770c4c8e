/**
 * What the messages of a session say, told from tags and octets: booleans, bit strings and integers
 * (bertlv/primitive), the profile metadata, the header of a reply, the request for the bound package, and the answer of
 * the card.
 */
module MessageLaws {
  import opened Bytes
  import opened BerTag
  import opened BerTlv
  import opened BoundProfile
  import opened Messages

  /* ---------- tags ---------- */

  lemma PrimitiveOctets()
    ensures UniversalTag(1) == [0x01] && UniversalTag(4) == [0x04] && UniversalTag(12) == [0x0C]
    ensures PrimitiveTag(0) == [0x80] && PrimitiveTag(1) == [0x81] && PrimitiveTag(19) == [0x93]
    ensures PrimitiveTag(21) == [0x95] && PrimitiveTag(25) == [0x99] && PrimitiveTag(112) == [0x9F, 0x70]
  {
    assert Continued(Septets(112)) == [112];
  }

  lemma ConstructedOctets()
    ensures ContextTag(1) == [0xA1] && ContextTag(2) == [0xA2] && ContextTag(22) == [0xB6] && ContextTag(23) == [0xB7]
    ensures ContextTag(33) == [0xBF, 0x21] && ContextTag(39) == [0xBF, 0x27] && ContextTag(47) == [0xBF, 0x2F]
  {
    assert Continued(Septets(33)) == [33] && Continued(Septets(39)) == [39] && Continued(Septets(47)) == [47];
  }

  /* ---------- looking up a child ---------- */

  predicate Bears(t: TLV, tag: Tag) {
    t.TLV? && t.tag == tag
  }

  /** Child `i` is the first with the tag. */
  predicate IsFirst(cs: seq<TLV>, tag: Tag, i: nat) {
    i < |cs| && Bears(cs[i], tag) && forall j :: 0 <= j < i ==> !Bears(cs[j], tag)
  }

  predicate Lacks(t: TLV, tag: Tag) {
    t.Nil? || forall c :: c in t.children ==> !Bears(c, tag)
  }

  lemma {:induction false} FirstFound(cs: seq<TLV>, tag: Tag, i: nat)
    requires IsFirst(cs, tag, i)
    ensures First(cs, tag) == cs[i]
  {
    if i > 0 {
      assert !Bears(cs[0], tag);
      forall j | 0 <= j < i - 1 ensures !Bears(cs[1..][j], tag) { assert cs[1..][j] == cs[j + 1]; }
      FirstFound(cs[1..], tag, i - 1);
    }
  }

  lemma {:induction false} FirstMissing(cs: seq<TLV>, tag: Tag)
    requires forall c :: c in cs ==> !Bears(c, tag)
    ensures First(cs, tag) == Nil
  {
    if cs != [] {
      assert cs[0] in cs;
      FirstMissing(cs[1..], tag);
    }
  }

  /** A child is looked up or it is lacking. */
  lemma LackingOrThere(t: TLV, tag: Tag)
    requires t.TLV?
    ensures Has(t, tag) <==> !Lacks(t, tag)
  {
    if Lacks(t, tag) {
      FirstMissing(t.children, tag);
    } else {
      SomeFirst(t.children, tag);
    }
  }

  lemma {:induction false} SomeFirst(cs: seq<TLV>, tag: Tag)
    requires exists c :: c in cs && Bears(c, tag)
    ensures First(cs, tag).TLV?
  {
    if !Bears(cs[0], tag) {
      SomeFirst(cs[1..], tag);
    }
  }

  /* ---------- whether a confirmation code is required ---------- */

  /**
   * The first child with tag 01 decides: a code is required exactly when it holds one octet that is not zero. Without such
   * a child the code panics.
   */
  lemma CodeRequiredExactly(signed2: TLV, i: nat)
    requires signed2.TLV? && IsFirst(signed2.children, [0x01], i)
    ensures var v := signed2.children[i].value; CodeRequired(signed2) == Some(|v| == 1 && v[0] != 0)
  {
    PrimitiveOctets();
    FirstFound(signed2.children, [0x01], i);
  }

  lemma CodeUnknown(signed2: TLV)
    ensures CodeRequired(signed2) == None <==> Lacks(signed2, [0x01])
  {
    PrimitiveOctets();
    if signed2.TLV? { LackingOrThere(signed2, [0x01]); }
  }

  /** `MarshalBool`. */
  function MarshalBool(value: bool): seq<byte> {
    [if value then 0xFF else 0x00]
  }

  /** What the SM-DP+ says in a boolean is what the session understands. */
  lemma RequirementUnderstood(required: bool, before: seq<TLV>, after: seq<TLV>, tag: Tag)
    requires forall c :: c in before ==> !Bears(c, [0x01])
    ensures CodeRequired(TLV(tag, [], before + [TLV([0x01], MarshalBool(required), [])] + after)) == Some(required)
  {
    var flag := TLV([0x01], MarshalBool(required), []);
    var signed2 := TLV(tag, [], before + [flag] + after);
    assert signed2.children[|before|] == flag;
    CodeRequiredExactly(signed2, |before|);
  }

  /* ---------- the header of a reply, and the request ---------- */

  /** A reply counts as a success exactly when its header has a status and the status is Executed-Success. */
  lemma HeaderJudged(header: Option<Header>)
    ensures JudgeHeader(header) == Succeeds <==> exists d :: header == Some(Some(Status(true, d)))
    ensures JudgeHeader(header) == Fails <==> header == Some(Some(Status(false, true)))
    ensures JudgeHeader(header) == Panics <==> header in {None, Some(None), Some(Some(Status(false, false)))}
  {
    if header.Some? && header.value.Some? {
      assert header == Some(Some(Status(header.value.value.success, header.value.value.detailed)));
    }
  }

  /** The request holds the signed data and its signature, then the digest if there is one, then the certificate. */
  lemma RequestInOrder(signed2: TLV, signature2: TLV, digest: Option<seq<byte>>, certificate: TLV)
    ensures var request := PrepareRequest(signed2, signature2, digest, certificate);
            && request.TLV? && request.tag == [0xBF, 0x21]
            && |request.children| == (if digest.Some? then 4 else 3)
            && request.children[0] == signed2 && request.children[1] == signature2
            && (digest.Some? ==> request.children[2] == TLV([0x04], digest.value, []))
            && request.children[|request.children| - 1] == certificate
  {
    PrimitiveOctets();
    ConstructedOctets();
  }

  /* ---------- the metadata of a profile ---------- */

  /** One octet, or more octets that say the same. */
  predicate SmallInt(t: TLV, tag: Tag)
    requires t.TLV?
  {
    Has(t, tag) ==> IsInt(Field(t, tag), 1)
  }

  /** A notification configuration: a sequence with readable events under 80 and an address under 81. */
  predicate Configuration(c: TLV) {
    && Tagged(c) && Is(c.tag, 0, Constructed, 16)
    && Has(c, [0x80]) && Has(c, [0x81]) && SomeEvents(Field(c, [0x80]))
  }

  lemma {:induction false} ConfigurationsRead(cs: seq<TLV>)
    ensures ReadConfigurations(cs) == Succeeds <==> forall c :: c in cs ==> Configuration(c)
    ensures ReadConfigurations(cs) == Panics <==>
            exists i :: 0 <= i < |cs| && cs[i].TLV? && !Tagged(cs[i]) && forall j :: 0 <= j < i ==> Configuration(cs[j])
  {
    hide SomeEvents, Is;
    PrimitiveOctets();
    if cs != [] {
      ConfigurationsRead(cs[1..]);
      if Configuration(cs[0]) {
        assert forall i :: 1 <= i < |cs| ==> cs[1..][i - 1] == cs[i];
      } else {
        assert cs[0] in cs;
      }
    }
  }

  /** Private 3, as in a list of profiles, or context-specific 37, as in the metadata that is downloaded. */
  predicate MetadataTag(tag: Tag)
    requires |tag| > 0
  {
    Is(tag, 3, Constructed, 3) || Is(tag, 2, Constructed, 37)
  }

  lemma MetadataTags()
    ensures MetadataTag([0xE3]) && MetadataTag([0xBF, 0x25])
    ensures !MetadataTag([0xE2]) && !MetadataTag([0xBF, 0x26]) && !MetadataTag([0xA3]) && !MetadataTag([0x9F, 0x25])
  {
  }

  predicate NumbersRead(t: TLV)
    requires t.TLV?
  {
    SmallInt(t, [0x9F, 0x70]) && SmallInt(t, [0x93]) && SmallInt(t, [0x95])
  }

  function Notifications(t: TLV): seq<TLV>
    requires t.TLV?
  {
    if Has(t, [0xB6]) then First(t.children, [0xB6]).children else []
  }

  predicate OwnerRead(t: TLV)
    requires t.TLV?
  {
    Has(t, [0xB7]) ==> Has(First(t.children, [0xB7]), [0x80])
  }

  /** The step that a list of notification configurations panics at. */
  predicate Untagged(cs: seq<TLV>) {
    exists i :: 0 <= i < |cs| && cs[i].TLV? && !Tagged(cs[i]) && forall j :: 0 <= j < i ==> Configuration(cs[j])
  }

  /**
   * The metadata is read exactly when it has one of its two tags, its numbers fit one byte, its notification
   * configurations and policy rules can be read, and an owner has a PLMN. It panics without a tag; and behind readable
   * numbers, at a configuration without a tag, or behind readable configurations at an owner without a PLMN.
   */
  lemma MetadataRead(t: TLV)
    ensures ReadMetadata(t) == Succeeds <==>
            && Tagged(t) && MetadataTag(t.tag) && NumbersRead(t)
            && (forall c :: c in Notifications(t) ==> Configuration(c))
            && OwnerRead(t)
            && (Has(t, [0x99]) ==> Bits(Field(t, [0x99])).Some?)
    ensures ReadMetadata(t) == Panics <==>
            Tagged(t) ==>
              && MetadataTag(t.tag) && NumbersRead(t)
              && (Untagged(Notifications(t)) || ((forall c :: c in Notifications(t) ==> Configuration(c)) && !OwnerRead(t)))
  {
    hide Is, IsInt, Bits, First, Configuration, ReadConfigurations;
    PrimitiveOctets();
    ConstructedOctets();
    if t.TLV? { ConfigurationsRead(Notifications(t)); }
    NoConfigurations();
  }

  lemma NoConfigurations()
    ensures ReadConfigurations([]) == Succeeds
  {
  }

  /* ---------- the answer of the card ---------- */

  lemma AnswerTags()
    ensures Is([0xBF, 0x37], 2, Constructed, 55) && !Is([0xBF, 0x38], 2, Constructed, 55)
    ensures !Is([0x9F, 0x37], 2, Constructed, 55) && !Is([0xB7], 2, Constructed, 55)
  {
  }

  /** A notification that is missing, or lacks its address, its number, or, behind a readable number, its event. */
  predicate NotificationIncomplete(n: TLV) {
    n.TLV? ==>
      || !Has(n, [0x0C]) || !Has(n, [0x80])
      || (IsInt(Field(n, [0x80]), 8) && !Has(n, [0x81]))
  }

  predicate NotificationRead(n: TLV) {
    && n.TLV? && Has(n, [0x0C]) && Has(n, [0x80]) && IsInt(Field(n, [0x80]), 8)
    && Has(n, [0x81]) && OneEvent(Field(n, [0x81]))
  }

  /** A final result that is missing, or an error in it that lacks its command or, behind a readable command, its reason. */
  predicate ResultIncomplete(result: TLV) {
    result.TLV? ==>
      && Has(result, [0xA1])
      && var error := First(result.children, [0xA1]);
      !Has(error, [0x80]) || (IsInt(Field(error, [0x80]), 1) && !Has(error, [0x81]))
  }

  /** The parts of an answer, by their tags. */
  function AnswerData(t: TLV): TLV
    requires t.TLV?
  {
    First(t.children, [0xBF, 0x27])
  }

  /**
   * The answer of the card is a success exactly when it is a profile installation result whose data has a transaction, a
   * notification that can be read, and a final result without an error. It panics exactly when it has no tag, or has the
   * right one and lacks a field where that is reached.
   */
  lemma AnswerRead(t: TLV)
    ensures ReadAnswer(t) == Succeeds <==>
            && Tagged(t) && Is(t.tag, 2, Constructed, 55)
            && AnswerData(t).TLV? && Has(AnswerData(t), [0x80])
            && NotificationRead(First(AnswerData(t).children, [0xBF, 0x2F]))
            && Has(AnswerData(t), [0xA2]) && !Has(First(AnswerData(t).children, [0xA2]), [0xA1])
    ensures ReadAnswer(t) == Panics <==>
            Tagged(t) ==>
              && Is(t.tag, 2, Constructed, 55)
              && (AnswerData(t).TLV? && Has(AnswerData(t), [0x80]) ==>
                    var n := First(AnswerData(t).children, [0xBF, 0x2F]);
                    || NotificationIncomplete(n)
                    || (NotificationRead(n) && ResultIncomplete(First(AnswerData(t).children, [0xA2]))))
  {
    hide Is, IsInt, OneEvent, First;
    PrimitiveOctets();
    ConstructedOctets();
  }
}
