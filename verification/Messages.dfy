/**
 * What a download session reads out of the messages of the SM-DP+ and of the card (v2/profile.go, v2/es10b.go,
 * v2/es9p.go, v2/notification.go, bertlv/primitive), as far as it decides how the session goes on: a field that the code
 * looks up and dereferences without a check is a panic when it is missing.
 */
module Messages {
  import opened Bytes
  import opened BerTag
  import opened BerLength
  import opened BerTlv
  import opened BoundProfile

  /** How a step ends: well, with an error, or with a panic. */
  datatype Verdict = Succeeds | Fails | Panics

  function AndThen(first: Verdict, second: Verdict): Verdict {
    if first == Succeeds then second else first
  }

  const UNIVERSAL: Class := 0
  const PRIVATE: Class := 3

  /** `Tag.If`. */
  predicate Is(t: Tag, class_: Class, form: Form, value: uint64)
    requires |t| > 0
  {
    ClassOf(t) == class_ && FormOf(t) == form && ValueOf(t) == value
  }

  function PrimitiveTag(value: nat): Tag {
    EncodeTag(CONTEXT_SPECIFIC, Primitive, value)
  }

  function UniversalTag(value: nat): Tag {
    EncodeTag(UNIVERSAL, Primitive, value)
  }

  predicate Has(t: TLV, tag: Tag)
    requires t.TLV?
  {
    First(t.children, tag).TLV?
  }

  /** The value of a child that is known to be there. */
  function Field(t: TLV, tag: Tag): seq<byte>
    requires t.TLV? && Has(t, tag)
  {
    First(t.children, tag).value
  }

  /* ---------- primitive values ---------- */

  /** An integer without its redundant sign octets. */
  function Significant(data: seq<byte>): (r: seq<byte>)
    ensures data != [] ==> r != []
  {
    if |data| > 1 && ((data[0] == 0 && data[1] < 128) || (data[0] == 0xFF && data[1] >= 128)) then Significant(data[1..])
    else data
  }

  /** Whether `UnmarshalInt` reads the octets into an integer of `size` bytes. */
  predicate IsInt(data: seq<byte>, size: nat) {
    data != [] && |Significant(data)| <= size
  }

  function Weight(bit: nat): (r: nat)
    ensures r > 0
  {
    if bit == 0 then 1 else 2 * Weight(bit - 1)
  }

  predicate IsSet(octet: nat, bit: nat) {
    octet / Weight(bit) % 2 == 1
  }

  /** The lowest `n` bits are zero. */
  predicate EndsInZeros(octet: nat, n: nat) {
    octet % Weight(n) == 0
  }

  /** `UnmarshalBitString`. */
  function Bits(data: seq<byte>): Option<seq<bool>> {
    if data == [] || data[0] > 7 || (|data| == 1 && data[0] > 0) || !EndsInZeros(data[|data| - 1], data[0]) then None
    else
      var length: nat := (|data| - 1) * 8 - data[0];
      Some(seq(length, i requires 0 <= i < length => IsSet(data[1 + i / 8], 7 - i % 8)))
  }

  /** A bit number is cut to eight bits before it is compared with the last event, 3. */
  predicate IsEvent(bit: nat) {
    bit % 0x100 <= 3
  }

  predicate SomeEvents(data: seq<byte>) {
    Bits(data).Some?
    && var bits := Bits(data).value;
    && (exists i | 0 <= i < |bits| :: bits[i])
    && forall i | 0 <= i < |bits| :: bits[i] ==> IsEvent(i)
  }

  /** `NotificationEvent.UnmarshalBinary`. */
  predicate OneEvent(data: seq<byte>) {
    SomeEvents(data)
    && var bits := Bits(data).value;
    forall i, k | 0 <= i < |bits| && 0 <= k < |bits| :: bits[i] && bits[k] ==> i == k
  }

  /* ---------- the reply to AuthenticateClient ---------- */

  /** `optional` for the one-byte integers. */
  function OptionalInt(t: TLV, tag: Tag): Verdict
    requires t.TLV?
  {
    if Has(t, tag) && !IsInt(Field(t, tag), 1) then Fails else Succeeds
  }

  /** `NotificationConfigurationInfo.UnmarshalBERTLV`, after its own tag. */
  function ReadConfigurations(cs: seq<TLV>): Verdict {
    if cs == [] then Succeeds
    else if cs[0].Nil? then Fails
    else if !Tagged(cs[0]) then Panics
    else if !Is(cs[0].tag, UNIVERSAL, Constructed, 16) || !Has(cs[0], PrimitiveTag(0)) || !Has(cs[0], PrimitiveTag(1)) then
      Fails
    else if !SomeEvents(Field(cs[0], PrimitiveTag(0))) then Fails
    else ReadConfigurations(cs[1..])
  }

  /** `OperatorId.UnmarshalBERTLV` takes the PLMN without asking whether it is there. */
  function ReadOwner(t: TLV): Verdict
    requires t.TLV?
  {
    var owner := First(t.children, ContextTag(23));
    if owner.TLV? && !Has(owner, PrimitiveTag(0)) then Panics else Succeeds
  }

  function ReadRules(t: TLV): Verdict
    requires t.TLV?
  {
    if Has(t, PrimitiveTag(25)) && Bits(Field(t, PrimitiveTag(25))).None? then Fails else Succeeds
  }

  /** `ProfileInfo.UnmarshalBERTLV`; nil, or a tag without octets, panics at once. */
  function ReadMetadata(t: TLV): Verdict {
    if !Tagged(t) then Panics
    else if !Is(t.tag, PRIVATE, Constructed, 3) && !Is(t.tag, CONTEXT_SPECIFIC, Constructed, 37) then Fails
    else
      var notifications := First(t.children, ContextTag(22));
      AndThen(OptionalInt(t, PrimitiveTag(112)),
      AndThen(OptionalInt(t, PrimitiveTag(19)),
      AndThen(OptionalInt(t, PrimitiveTag(21)),
      AndThen(if notifications.TLV? then ReadConfigurations(notifications.children) else Succeeds,
      AndThen(ReadOwner(t), ReadRules(t))))))
  }

  /** `confirmationCodeRequired`: an unreadable boolean counts as no, a missing one panics. */
  function CodeRequired(signed2: TLV): Option<bool> {
    if signed2.Nil? || !Has(signed2, UniversalTag(1)) then None
    else
      var octets := Field(signed2, UniversalTag(1));
      Some(|octets| == 1 && octets[0] != 0)
  }

  /* ---------- the header of a reply ---------- */

  /** `detailed`: the status comes with the data that an error message is made of. */
  datatype Status = Status(success: bool, detailed: bool)

  /** A header may lack its execution status. */
  type Header = Option<Status>

  /** How `InvokeHTTP` takes a reply whose type reads its header without a check. */
  function JudgeHeader(header: Option<Header>): Verdict {
    match header
    case None => Panics
    case Some(None) => Panics
    case Some(Some(s)) => if s.success then Succeeds else if s.detailed then Fails else Panics
  }

  /** `ES9AuthenticateClientResponse.FunctionExecutionStatus` supplies a status that is missing. */
  function StatusOf(header: Option<Header>): Status {
    if header.Some? && header.value.Some? then header.value.value else Status(false, true)
  }

  /* ---------- the PrepareDownload request ---------- */

  /** `PrepareDownloadRequest.MarshalBERTLV`; `digest` is the hash of a confirmation code that is required. */
  function PrepareRequest(signed2: TLV, signature2: TLV, digest: Option<seq<byte>>, certificate: TLV): TLV {
    TLV(ContextTag(33), [],
        [signed2, signature2] + (if digest.Some? then [TLV(UniversalTag(4), digest.value, [])] else []) + [certificate])
  }

  /** The size of a part that may be absent. */
  function PartSize(t: TLV): nat {
    if t.Nil? || Size(t).None? then 0 else Size(t).value
  }

  predicate IsPart(t: TLV) {
    t.Nil? || (WellShaped(t) && Size(t).Some?)
  }

  lemma SizeOfPart(t: TLV, cs: seq<TLV>)
    requires IsPart(t)
    ensures ChildrenSize(cs).Some? ==> ChildrenSize([t] + cs) == Some(PartSize(t) + ChildrenSize(cs).value)
    ensures ChildrenSize(cs).None? ==> ChildrenSize([t] + cs).None?
    ensures ChildrenShaped([t] + cs) == ChildrenShaped(cs)
  {
    assert ([t] + cs)[0] == t && ([t] + cs)[1..] == cs;
  }

  /** The request can be written exactly when its parts together stay below 2^24 bytes; otherwise it panics. */
  lemma RequestFits(signed2: TLV, signature2: TLV, digest: Option<seq<byte>>, certificate: TLV)
    requires IsPart(signed2) && IsPart(signature2) && IsPart(certificate)
    requires digest.Some? ==> |digest.value| == 32
    ensures Marshal(PrepareRequest(signed2, signature2, digest, certificate)).Some? <==>
            PartSize(signed2) + PartSize(signature2) + (if digest.Some? then 34 else 0) + PartSize(certificate) < LENGTH_LIMIT
  {
    hide Marshal, ContextTag, UniversalTag, Size;
    var request := PrepareRequest(signed2, signature2, digest, certificate);
    ContextTagConstructed(33);
    MarshalLen(request);
    var hash := if digest.Some? then TLV(UniversalTag(4), digest.value, []) else Nil;
    DigestPart(hash);
    assert ChildrenSize([]) == Some(0) && ChildrenShaped([]);
    assert [certificate] + [] == [certificate];
    SizeOfPart(certificate, []);
    SizeOfPart(hash, [certificate]);
    var tail := if digest.Some? then [hash] + [certificate] else [certificate];
    SizeOfPart(signature2, tail);
    SizeOfPart(signed2, [signature2] + tail);
    assert request.children == [signed2] + ([signature2] + tail);
    SizeByContent(request);
  }

  lemma SizeByContent(t: TLV)
    requires Tagged(t) && !IsPrimitive(t) && t.value == []
    ensures Size(t).Some? <==> ChildrenSize(t.children).Some? && ChildrenSize(t.children).value < LENGTH_LIMIT
    ensures WellShaped(t) <==> ChildrenShaped(t.children)
  {
  }

  lemma DigestPart(hash: TLV)
    requires hash.TLV? ==> hash.tag == UniversalTag(4) && |hash.value| == 32 && hash.children == []
    ensures IsPart(hash) && PartSize(hash) == if hash.TLV? then 34 else 0
  {
    if hash.TLV? {
      assert UniversalTag(4) == [4];
    }
  }

  /* ---------- the answer of the card to `install` ---------- */

  /** `NotificationMetadata.UnmarshalBERTLV`, of a node with the right tag if any. */
  function ReadNotification(n: TLV): Verdict {
    if n.Nil? || !Has(n, UniversalTag(12)) || !Has(n, PrimitiveTag(0)) then Panics
    else if !IsInt(Field(n, PrimitiveTag(0)), 8) then Fails
    else if !Has(n, PrimitiveTag(1)) then Panics
    else if !OneEvent(Field(n, PrimitiveTag(1))) then Fails
    else Succeeds
  }

  /** `LoadBoundProfilePackageResponse.Valid`, of a final result that may be missing. */
  function ReadFinalResult(result: TLV): Verdict {
    if result.Nil? then Panics
    else
      var error := First(result.children, ContextTag(1));
      if error.Nil? then Succeeds
      else if !Has(error, PrimitiveTag(0)) then Panics
      else if !IsInt(Field(error, PrimitiveTag(0)), 1) then Fails
      else if !Has(error, PrimitiveTag(1)) then Panics
      else Fails
  }

  /** `LoadBoundProfilePackageResponse.UnmarshalBERTLV`, and then `Valid`. */
  function ReadAnswer(t: TLV): Verdict {
    if !Tagged(t) then Panics
    else if !Is(t.tag, CONTEXT_SPECIFIC, Constructed, 55) then Fails
    else
      var data := First(t.children, ContextTag(39));
      if data.Nil? || !Has(data, PrimitiveTag(0)) then Panics
      else
        AndThen(ReadNotification(First(data.children, ContextTag(47))), ReadFinalResult(First(data.children, ContextTag(2))))
  }

  /** All the fields that are looked up in an answer with the right tag. */
  predicate CompleteAnswer(t: TLV) {
    var data := if t.TLV? then First(t.children, ContextTag(39)) else Nil;
    && data.TLV? && Has(data, PrimitiveTag(0)) && Has(data, ContextTag(47)) && Has(data, ContextTag(2))
    && var n, result := First(data.children, ContextTag(47)), First(data.children, ContextTag(2));
    && Has(n, UniversalTag(12)) && Has(n, PrimitiveTag(0)) && Has(n, PrimitiveTag(1))
    && (Has(result, ContextTag(1)) ==>
          var error := First(result.children, ContextTag(1));
          Has(error, PrimitiveTag(0)) && Has(error, PrimitiveTag(1)))
  }

  /**
   * A complete answer is never a panic; and an answer means success exactly when it has the tag of a profile
   * installation result, is complete, has a readable notification, and reports no error.
   */
  lemma AnswerJudged(t: TLV)
    requires Tagged(t)
    ensures CompleteAnswer(t) ==> ReadAnswer(t) != Panics
    ensures ReadAnswer(t) == Succeeds <==>
            && Is(t.tag, CONTEXT_SPECIFIC, Constructed, 55) && CompleteAnswer(t)
            && var data := First(t.children, ContextTag(39));
               var n := First(data.children, ContextTag(47));
               && IsInt(Field(n, PrimitiveTag(0)), 8) && OneEvent(Field(n, PrimitiveTag(1)))
               && !Has(First(data.children, ContextTag(2)), ContextTag(1))
  {
    hide ContextTag, PrimitiveTag, UniversalTag, OneEvent, IsInt, Is;
  }

  /* ---------- packages that were read ---------- */

  /** Segmentation cannot panic on a package that was read from bytes. */
  lemma ReadPackagesNeverPanic(data: seq<byte>)
    requires Parse(data).Some?
    ensures Segment(Parse(data).value.0) != PackagePanic
  {
    hide Parse, Marshal, Segment, ContextTag;
    var bpp := Parse(data).value.0;
    ParsedShape(data);
    ReencodeTree(data);
    MarshalLen(bpp);
    EmitDone(bpp);
    if ValidBpp(bpp) {
      SegmentsReassemble(bpp);
      NoNilInside(bpp.children, First(bpp.children, ContextTag(1)));
      NoNilInside(bpp.children, First(bpp.children, ContextTag(3)));
    } else {
      InvalidNeverPanics(bpp);
    }
  }

  lemma InvalidNeverPanics(bpp: TLV)
    requires !ValidBpp(bpp)
    ensures Segment(bpp) == InvalidPackage
  {
  }

  lemma {:induction false} NoNilInside(cs: seq<TLV>, c: TLV)
    requires ChildrenNoNil(cs) && c in cs
    ensures c.TLV? && Nil !in c.children
  {
    if c == cs[0] {
      NilFree(c.children);
    } else {
      NoNilInside(cs[1..], c);
    }
  }

  lemma {:induction false} NilFree(cs: seq<TLV>)
    requires ChildrenNoNil(cs)
    ensures Nil !in cs
  {
    if cs != [] {
      NilFree(cs[1..]);
    }
  }
}
