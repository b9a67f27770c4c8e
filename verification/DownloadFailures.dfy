/**
 * The messages that end a download session in a panic (lpa/download.go, v2/profile.go, v2/es9p.go, v2/es10b.go), one
 * input for each kind, all of them after AuthenticateClient has reported Executed-Success; and the kinds that messages
 * read from bytes cannot be.
 */
module DownloadFailures {
  import opened Bytes
  import opened BerTag
  import opened BerTlv
  import opened BoundProfile
  import opened Messages
  import opened CardProtocol
  import opened Installation
  import opened CardRuns
  import opened Download
  import Transport

  const SUCCESS := Status(true, true)

  function Options0(): Options {
    Options(false, false, false)
  }

  function Code0(): Code {
    Code("host", "imei", "")
  }

  /** Metadata without fields, and signed data that asks for no confirmation code. */
  function Reply0(): Reply {
    Reply(true, Some(Some(SUCCESS)), [1], TLV([0xE3], [], []), TLV([0x30], [], [TLV([0x01], [0], [])]), Nil, Nil)
  }

  /** Nobody cancels or is asked. */
  function World(r: Reply, preparation: Preparation, link: Link): Environment {
    Environment(Replied(r), false, false, false, true, "", seq(32, _ => 0), preparation, link, Succeeds)
  }

  const NO_LINK := Link(0, 1, [])

  /** After Executed-Success the session panics, with neither an install nor a cancellation. */
  predicate EndsInPanic(env: Environment) {
    var s := Download.Run(Code0(), Options0(), env);
    && ExecutedSuccess(env)
    && s.ending == Crashed && Cancels(s.trace) == [] && InstallRun(Succeeds) !in s.trace && !EndsProperly(s.trace)
  }

  lemma UnreadableEndsInPanic(env: Environment)
    requires ExecutedSuccess(env)
    ensures EndsInPanic(env) <==> !MessagesHold(Code0(), Options0(), env)
  {
    hide Download.Run, MessagesHold, EndsProperly;
    EndsOnce(Code0(), Options0(), env);
  }

  /* ---------- the reply to AuthenticateClient ---------- */

  lemma MissingMetadata()
    ensures EndsInPanic(World(Reply0().(metadata := Nil), Refused, NO_LINK))
  {
    UnreadableEndsInPanic(World(Reply0().(metadata := Nil), Refused, NO_LINK));
  }

  /** The metadata names a profile owner, but not its network. */
  lemma OwnerWithoutNetwork()
    ensures EndsInPanic(World(Reply0().(metadata := TLV([0xE3], [], [TLV([0xB7], [], [])])), Refused, NO_LINK))
  {
    var owner := TLV([0xB7], [], []);
    var metadata := TLV([0xE3], [], [owner]);
    UnreadableEndsInPanic(World(Reply0().(metadata := metadata), Refused, NO_LINK));
    MetadataTags();
    assert First(metadata.children, ContextTag(23)) == owner;
    assert ReadOwner(metadata) == Panics;
  }

  lemma MetadataTags()
    ensures ContextTag(23) == [0xB7] && ContextTag(22) == [0xB6]
    ensures PrimitiveTag(19) == [0x93] && PrimitiveTag(21) == [0x95] && PrimitiveTag(25) == [0x99] && PrimitiveTag(0) == [0x80]
    ensures PrimitiveTag(112) == [0x9F, 0x70]
    ensures Is([0xE3], PRIVATE, Constructed, 3)
  {
    assert Septets(112) == [112];
    assert Continued([112]) == [112];
  }

  lemma MissingSignedData()
    ensures EndsInPanic(World(Reply0().(signed2 := Nil), Refused, NO_LINK))
  {
    UnreadableEndsInPanic(World(Reply0().(signed2 := Nil), Refused, NO_LINK));
    PlainMetadata();
  }

  lemma PlainMetadata()
    ensures ReadMetadata(Reply0().metadata) == Succeeds
  {
    MetadataTags();
  }

  lemma MissingRequirement()
    ensures EndsInPanic(World(Reply0().(signed2 := TLV([0x30], [], [])), Refused, NO_LINK))
  {
    UnreadableEndsInPanic(World(Reply0().(signed2 := TLV([0x30], [], [])), Refused, NO_LINK));
    PlainMetadata();
  }

  /* ---------- the PrepareDownload request ---------- */

  lemma PlainRequirement()
    ensures CodeRequired(Reply0().signed2) == Some(false)
  {
    assert UniversalTag(1) == [0x01];
  }

  /** Everything but the preparation and the install is in order. */
  lemma OnlyPreparation(r: Reply, preparation: Preparation, link: Link)
    requires r.delivered && r.header == Some(Some(SUCCESS))
    requires ReadMetadata(r.metadata) == Succeeds && CodeRequired(r.signed2) == Some(false)
    ensures var env := World(r, preparation, link);
            EndsInPanic(env) <==> !PreparationHolds(env, r, false)
  {
    hide PreparationHolds, ReadMetadata, CodeRequired, Download.Run;
    UnreadableEndsInPanic(World(r, preparation, link));
  }

  /** Two parts of nearly 2^24 bytes, each of which could be written. */
  lemma OversizedRequest()
    ensures var part := TLV([0x04], seq(0xFF_0000, _ => 0), []);
            var r := Reply0().(signature2 := part, certificate := part);
            IsPart(part) && EndsInPanic(World(r, Refused, NO_LINK))
  {
    hide ReadMetadata, CodeRequired, Marshal;
    var part := TLV([0x04], seq(0xFF_0000, _ => 0), []);
    var r := Reply0().(signature2 := part, certificate := part);
    PlainMetadata();
    PlainRequirement();
    OnlyPreparation(r, Refused, NO_LINK);
    assert Size(part) == Some(0xFF_0000 + 5);
    SignedPart();
    RequestFits(r.signed2, part, None, part);
  }

  lemma SignedPart()
    ensures IsPart(Reply0().signed2) && PartSize(Reply0().signed2) == 5
  {
    var flag := TLV([0x01], [0], []);
    assert Size(flag) == Some(3);
    assert [flag][1..] == [];
    assert ChildrenSize([flag]) == Some(3);
  }

  /* ---------- the reply to GetBoundProfilePackage ---------- */

  /** No header, a header without a status, and a failure without data to report. */
  lemma BadHeaders(header: Option<Header>, transaction: seq<byte>, bpp: TLV)
    requires JudgeHeader(header) == Panics
    ensures EndsInPanic(World(Reply0(), Answered(header, transaction, bpp), NO_LINK))
  {
    PlainMetadata();
    PlainRequirement();
    OnlyPreparation(Reply0(), Answered(header, transaction, bpp), NO_LINK);
  }

  lemma HeadersThatPanic()
    ensures JudgeHeader(None) == Panics && JudgeHeader(Some(None)) == Panics
    ensures JudgeHeader(Some(Some(Status(false, false)))) == Panics
    ensures EndsInPanic(World(Reply0(), Answered(None, [1], Nil), NO_LINK))
    ensures EndsInPanic(World(Reply0(), Answered(Some(None), [1], Nil), NO_LINK))
    ensures EndsInPanic(World(Reply0(), Answered(Some(Some(Status(false, false))), [1], Nil), NO_LINK))
  {
    hide EndsInPanic;
    BadHeaders(None, [1], Nil);
    BadHeaders(Some(None), [1], Nil);
    BadHeaders(Some(Some(Status(false, false))), [1], Nil);
  }

  /* ---------- the answer of the card ---------- */

  /** The smallest package that can be installed: all the sequences are empty. */
  function Package0(): TLV {
    TLV([0xBF, 0x36], [], [TLV([0xBF, 0x23], [], []), TLV([0xA0], [], []), TLV([0xA1], [], []), TLV([0xA3], [], [])])
  }

  predicate Small(t: TLV) {
    && t.TLV? && t.value == [] && t.children == []
    && t.tag in {[0xBF, 0x23], [0xA0], [0xA1], [0xA3]}
  }

  lemma SmallNode(t: TLV)
    requires Small(t)
    ensures Size(t) == Some(|t.tag| + 1) && WellShaped(t) && TagsValid(t)
  {
    assert ValidTag(t.tag) by {
      if t.tag == [0xBF, 0x23] { ShortTag(0x23); }
    }
    hide ValidTag;
    assert FormOf(t.tag) == Constructed;
    assert ChildrenSize(t.children) == Some(0) && ChildrenShaped(t.children) && ChildrenTagsValid(t.children);
  }

  lemma ShortTag(number: byte)
    requires 31 <= number < 128
    ensures ValidTag([0xBF, number])
  {
    EncodedTagDecodes(CONTEXT_SPECIFIC, Constructed, number);
    assert Septets(number) == [number] && Continued([number]) == [number];
    assert EncodeTag(CONTEXT_SPECIFIC, Constructed, number) == [0xBF, number];
  }

  lemma {:induction false} SmallNodes(cs: seq<TLV>)
    requires forall c :: c in cs ==> Small(c)
    ensures ChildrenSize(cs).Some? && ChildrenSize(cs).value <= 3 * |cs|
    ensures ChildrenShaped(cs) && ChildrenTagsValid(cs) && NonNil(cs) == cs
  {
    hide Size, WellShaped, TagsValid;
    if cs != [] {
      SmallNode(cs[0]);
      SmallNodes(cs[1..]);
    }
  }

  lemma PackageShape(bpp: TLV)
    requires bpp == Package0()
    ensures Marshal(bpp).Some? && TagsValid(bpp)
  {
    hide Marshal, ChildrenSize, ChildrenShaped, ChildrenTagsValid, Size, WellShaped, ValidTag, Small;
    AllSmall(bpp);
    SmallNodes(bpp.children);
    SizeByContent(bpp);
    ShortTag(0x36);
    MarshalLen(bpp);
  }

  lemma AllSmall(bpp: TLV)
    requires bpp == Package0()
    ensures forall c :: c in bpp.children ==> Small(c)
  {
  }

  lemma {:induction false} NotFound(cs: seq<TLV>, tag: Tag)
    requires forall c :: c in cs ==> c.TLV? && c.tag != tag
    ensures First(cs, tag) == Nil
  {
    if cs != [] {
      NotFound(cs[1..], tag);
    }
  }

  lemma Found(cs: seq<TLV>, i: nat)
    requires (forall c :: c in cs ==> Small(c)) && i < |cs|
    requires forall j :: 0 <= j < i ==> cs[j].TLV? && cs[i].TLV? && cs[j].tag != cs[i].tag
    ensures cs[i].TLV? && First(cs, cs[i].tag) == cs[i]
  {
    SmallNodes(cs);
    FirstAt(cs, i);
  }

  lemma PackageFinds(cs: seq<TLV>)
    requires cs == Package0().children
    ensures First(cs, ContextTag(35)) == cs[0] && First(cs, ContextTag(0)) == cs[1]
    ensures First(cs, ContextTag(1)) == cs[2] && First(cs, ContextTag(3)) == cs[3]
    ensures First(cs, ContextTag(2)) == Nil
  {
    hide ContextTag, First, NonNil;
    TagOctets();
    Found(cs, 0);
    Found(cs, 1);
    Found(cs, 2);
    Found(cs, 3);
    NotFound(cs, ContextTag(2));
  }

  lemma PackageInOrder(bpp: TLV, cs: seq<TLV>)
    requires bpp == Package0() && cs == bpp.children
    ensures InOrder(bpp)
  {
    hide ContextTag, First, NonNil, Small;
    TagOctets();
    AllSmall(bpp);
    SmallNodes(cs);
    PackageFinds(cs);
    assert Tags(cs) == Expected(false);
  }

  lemma PackageIsValid(bpp: TLV)
    requires bpp == Package0()
    ensures ValidBpp(bpp)
  {
    hide ContextTag, First;
    TagOctets();
    PackageFinds(bpp.children);
  }

  /** It can be installed, and its last segment is one block. */
  lemma PackageIsInstallable(bpp: TLV)
    requires bpp == Package0()
    ensures Installable(bpp)
    ensures LastSegment(bpp) == [0xA3, 0x00]
  {
    hide ContextTag, Marshal, First, InOrder, ValidBpp, TagsValid, Segment, HeadedPieces;
    var cs := bpp.children;
    PackageFinds(cs);
    PackageIsValid(bpp);
    PackageInOrder(bpp, cs);
    PackageShape(bpp);
    EmptySequence(cs[3]);
    IsSegmented(bpp);
    LastPiece(bpp);
  }

  lemma EmptySequence(t: TLV)
    requires t == TLV([0xA3], [], [])
    ensures HeadedPieces(t) == Some([[0xA3, 0x00]])
  {
    assert ChildrenSize([]) == Some(0) && AllBytes([]) == Some([]);
    assert [0xA3] + [0x00] == [0xA3, 0x00];
    assert BoundProfile.Header(t) == Some([0xA3, 0x00]);
    assert [[0xA3, 0x00]] + [] == [[0xA3, 0x00]];
  }

  lemma LastPiece(bpp: TLV)
    requires ValidBpp(bpp) && Segment(bpp).Segmented?
    ensures var last := HeadedPieces(First(bpp.children, ContextTag(3)));
            && last.Some? && last.value != [] && Segment(bpp).segments != []
            && Segment(bpp).segments[|Segment(bpp).segments| - 1] == last.value[|last.value| - 1]
  {
    hide GluedPieces, ContextTag, First, FirstPiece, SecondSequence;
  }

  /** An installation result without data in it: the card's answer is read as one TLV, and `install` panics. */
  lemma EmptyAnswer()
    ensures Unmarshal([0xBF, 0x37, 0x00]) == Some(TLV([0xBF, 0x37], [], []))
    ensures ReadAnswer(TLV([0xBF, 0x37], [], [])) == Panics
  {
    var t := TLV([0xBF, 0x37], [], []);
    ShortTag(0x37);
    EncodedTagDecodes(CONTEXT_SPECIFIC, Constructed, 0x37);
    assert Septets(0x37) == [0x37] && Continued([0x37]) == [0x37];
    assert EncodeTag(CONTEXT_SPECIFIC, Constructed, 0x37) == [0xBF, 0x37];
    SizeByContent(t);
    MarshalLen(t);
    assert Marshal(t).value == [0xBF, 0x37, 0x00] by {
      assert [0xBF, 0x37] + [0x00] == [0xBF, 0x37, 0x00];
    }
    assert Normal(t) == t;
    RoundTrip(t, []);
  }

  /** The link to a card that is silent up to the last segment of the package, and then gives `final`. */
  function QuietLink(bpp: TLV, channel: byte, mss: Positive, final: seq<seq<byte>>): Link
    requires Installable(bpp)
  {
    Link(channel, mss, WriteScript(QuietAnswers(Segments(bpp), mss, final)))
  }

  /** That card obeys the protocol all through the install. */
  predicate QuietCard(bpp: TLV, c: Card, link: Link, final: seq<seq<byte>>)
    requires Installable(bpp) && c.pending == []
  {
    Obeys(WriteStates(c, QuietAnswers(Segments(bpp), link.mss, final)), InstallLog(bpp, link.channel, link.mss, link.script))
  }

  /**
   * For every installable package and every answer that lacks a field: a card that obeys the protocol, receives the whole
   * package and gives that answer ends the session in a panic.
   */
  lemma IncompleteAnswer(bpp: TLV, channel: byte, mss: nat, c: Card, final: seq<seq<byte>>, answer: TLV)
    requires Installable(bpp) && 0 < mss <= 255 && c.pending == []
    requires |final| == |Transport.Chunks(LastSegment(bpp), mss)|
    requires Unmarshal(Flatten(final)) == Some(answer) && ReadAnswer(answer) == Panics
    ensures var link := QuietLink(bpp, channel, mss, final);
            && QuietCard(bpp, c, link, final)
            && EndsInPanic(World(Reply0(), Answered(Some(Some(SUCCESS)), [1], bpp), link))
  {
    hide Obeys, InstallLog, WriteStates, WriteScript, QuietAnswers, Segments, LastSegment, ReadMetadata, CodeRequired, ReadAnswer,
      Unmarshal, InstallResult, EndsInPanic, Installable;
    var link := QuietLink(bpp, channel, mss, final);
    AnyAnswerInstalls(bpp, channel, mss, c, final);
    PlainMetadata();
    PlainRequirement();
    OnlyPreparation(Reply0(), Answered(Some(Some(SUCCESS)), [1], bpp), link);
  }

  /** There are such packages and answers: the smallest package has one last block, and `EmptyAnswer` is an answer to it. */
  lemma SmallestFailure(bpp: TLV, answer: seq<byte>, t: TLV)
    requires bpp == Package0() && answer == [0xBF, 0x37, 0x00] && t == TLV([0xBF, 0x37], [], [])
    ensures Installable(bpp) && |Transport.Chunks(LastSegment(bpp), 255)| == |[answer]|
    ensures Unmarshal(Flatten([answer])) == Some(t) && ReadAnswer(t) == Panics
  {
    hide LastSegment, Installable, ReadAnswer, Unmarshal, Transport.Chunks;
    PackageIsInstallable(bpp);
    OneBlock();
    FlattenSingle(answer);
    EmptyAnswer();
  }

  lemma OneBlock()
    ensures |Transport.Chunks([0xA3, 0x00], 255)| == 1
  {
    var block: seq<byte> := [0xA3, 0x00];
    assert block[2..] == [] && Transport.Chunks([], 255) == [];
  }

  /* ---------- what messages read from bytes cannot do ---------- */

  /** With a package that was read from bytes the only panic of `install` is in reading the answer of the card. */
  lemma OnlyAnswersPanic(data: seq<byte>, channel: byte, mss: nat, script: seq<Transport.Reply>)
    requires Parse(data).Some? && mss > 0
    ensures var bpp := Parse(data).value.0;
            InstallResult(bpp, channel, mss, script).InstallPanic? <==>
            && Segment(bpp).Segmented?
            && var t := SendSegments(channel, mss, Segment(bpp).segments, script);
            t.ok && Unmarshal(t.answer).Some? && ReadAnswer(Unmarshal(t.answer).value) == Panics
  {
    hide Segment, SendSegments, Unmarshal, ReadAnswer;
    ReadPackagesNeverPanic(data);
  }
}
