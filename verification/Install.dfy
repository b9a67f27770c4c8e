/**
 * `install` (lpa/download.go): a Bound Profile Package is segmented, each segment is sent as a chain of STORE DATA
 * blocks, and the first answer that carries data ends the transfer. Composes the codec, the segmentation and the
 * transport end to end.
 */
module Installation {
  import opened Bytes
  import opened BerTag
  import opened BerTlv
  import opened BerIO
  import opened BoundProfile
  import opened Apdu
  import opened Transport
  import opened CardProtocol
  import opened Messages

  /** The segment loop: what was exchanged, the last answer, how many segments went through, and success. */
  datatype Transfer = Transfer(log: seq<Exchange>, script: seq<Reply>, answer: seq<byte>, sent: nat, ok: bool)

  function SendSegments(channel: byte, mss: nat, segments: seq<seq<byte>>, script: seq<Reply>): (t: Transfer)
    requires mss > 0
    ensures t.sent <= |segments|
    decreases |segments|
  {
    if segments == [] then Transfer([], script, [], 0, true)
    else
      var run := WriteRun(channel, mss, segments[0], script);
      if !run.ok then Transfer(run.log, run.script, [], 0, false)
      else if run.buffer != [] then Transfer(run.log, run.script, run.buffer, 1, true)
      else
        var rest := SendSegments(channel, mss, segments[1..], run.script);
        Transfer(run.log + rest.log, rest.script, rest.answer, 1 + rest.sent, rest.ok)
  }

  /** The bytes that the card has received in STORE DATA blocks. */
  function Received(log: seq<Exchange>): seq<byte> {
    DataFields(Stored(log))
  }

  lemma ReceivedConcat(a: seq<Exchange>, b: seq<Exchange>)
    ensures Received(a + b) == Received(a) + Received(b)
  {
    StoredConcat(a, b);
    DataFieldsConcat(Stored(a), Stored(b));
  }

  /** Whatever the card replies, it receives a prefix of the segments, and all of them once all have gone through. */
  lemma {:induction false} SegmentsReceived(channel: byte, mss: nat, segments: seq<seq<byte>>, script: seq<Reply>)
    requires mss > 0
    ensures var t := SendSegments(channel, mss, segments, script);
            && Received(t.log) <= Flatten(segments)
            && (t.ok && t.sent == |segments| ==> Received(t.log) == Flatten(segments))
            && (t.ok && t.sent < |segments| ==> t.answer != [])
    decreases |segments|
  {
    hide WriteRun;
    if segments != [] {
      var run := WriteRun(channel, mss, segments[0], script);
      BlockChaining(channel, mss, segments[0], script);
      assert segments[0] <= Flatten(segments);
      if run.ok && run.buffer == [] {
        var rest := SendSegments(channel, mss, segments[1..], run.script);
        SegmentsReceived(channel, mss, segments[1..], run.script);
        ReceivedConcat(run.log, rest.log);
      } else if run.ok && |segments| == 1 {
        assert Flatten(segments) == segments[0] by { FlattenSingle(segments[0]); assert segments == [segments[0]]; }
      }
    }
  }

  /** A package as section 2.5.5 of SGP.22 wants it, free of the nil elements that make segmentation panic. */
  predicate Installable(bpp: TLV): (r: bool)
    ensures r ==> Segment(bpp).Segmented? && Segment(bpp).segments != []
  {
    var r := && ValidBpp(bpp) && Marshal(bpp).Some? && TagsValid(bpp) && InOrder(bpp)
             && Nil !in First(bpp.children, ContextTag(1)).children
             && Nil !in First(bpp.children, ContextTag(3)).children;
    assert r ==> Segment(bpp).Segmented? && Segment(bpp).segments != [] by {
      if r { IsSegmented(bpp); }
    }
    r
  }

  function Segments(bpp: TLV): (r: seq<seq<byte>>)
    requires Installable(bpp)
    ensures r != []
  {
    Segment(bpp).segments
  }

  function LastSegment(bpp: TLV): seq<byte>
    requires Installable(bpp)
  {
    Segments(bpp)[|Segments(bpp)| - 1]
  }

  lemma IsSegmented(bpp: TLV)
    requires ValidBpp(bpp) && Marshal(bpp).Some? && TagsValid(bpp)
    requires Nil !in First(bpp.children, ContextTag(1)).children && Nil !in First(bpp.children, ContextTag(3)).children
    ensures Segment(bpp).Segmented? && Segment(bpp).segments != []
  {
    hide Segment, Marshal, ContextTag, InOrder;
    SegmentsReassemble(bpp);
  }

  /**
   * End to end, against any replies: the STORE DATA data fields, over all segments and blocks, are always a prefix of
   * the package's encoding, and are the whole of it as soon as every segment has gone through.
   */
  lemma EndToEnd(bpp: TLV, channel: byte, mss: nat, script: seq<Reply>)
    requires Installable(bpp) && mss > 0
    ensures Segment(bpp).Segmented?
    ensures var t := SendSegments(channel, mss, Segment(bpp).segments, script);
            && Received(t.log) <= Marshal(bpp).value
            && (t.ok && t.sent == |Segment(bpp).segments| ==> Received(t.log) == Marshal(bpp).value)
  {
    hide Segment, Marshal, InOrder, ContextTag, SendSegments;
    SegmentsReassemble(bpp);
    SegmentsReceived(channel, mss, Segment(bpp).segments, script);
  }

  /* ---------- with a card ---------- */

  /** The number of blocks of all segments but the last. */
  function BlocksBeforeLast(segments: seq<seq<byte>>, mss: nat): nat
    requires mss > 0
  {
    if |segments| <= 1 then 0 else |Chunks(segments[0], mss)| + BlocksBeforeLast(segments[1..], mss)
  }

  /** From `first` to `last` the card answered its first `n` blocks with no data. */
  predicate Quiet(first: Card, last: Card, n: nat) {
    forall i :: |first.answers| <= i < |first.answers| + n && i < |last.answers| ==> last.answers[i] == []
  }

  lemma {:induction false} FlattenEmpty(pieces: seq<seq<byte>>)
    requires forall i :: 0 <= i < |pieces| ==> pieces[i] == []
    ensures Flatten(pieces) == []
  {
    if pieces != [] {
      FlattenEmpty(pieces[1..]);
    }
  }

  /** A card that answers every segment before the last with no data sees the transfer through. */
  lemma {:induction false} QuietCardCompletes(channel: byte, mss: nat, segments: seq<seq<byte>>, script: seq<Reply>,
                                              states: seq<Card>)
    requires 0 < mss <= 255
    requires Obeys(states, SendSegments(channel, mss, segments, script).log)
    requires Quiet(states[0], states[|states| - 1], BlocksBeforeLast(segments, mss))
    ensures var t := SendSegments(channel, mss, segments, script);
            t.ok && t.sent == |segments| && states[0].answers <= states[|states| - 1].answers
    decreases |segments|
  {
    hide Blocks, CardStep, Obeys, Chunks;
    if segments == [] {
      ObeysLength(states, []);
    } else {
      var run := WriteRun(channel, mss, segments[0], script);
      var rest := SendSegments(channel, mss, segments[1..], run.script);
      var log2 := if run.ok && run.buffer == [] then rest.log else [];
      assert run.log + [] == run.log;
      ObeysSplit(states, run.log, log2);
      var k := |run.log|;
      assert |states| == k + |log2| + 1 by { ObeysLength(states, run.log + log2); }
      BlocksDeliver(0x80, channel, mss, 0, |segments[0]| / mss % 256, segments[0], script, states[..k + 1]);
      var first, mid, last := states[0], states[k], states[|states| - 1];
      if |segments| > 1 {
        if run.buffer != [] {
          assert mid == last;
          FlattenEmpty(mid.answers[|first.answers|..]);
          assert false;
        }
        QuietTail(segments, mss, states, k);
        QuietCardCompletes(channel, mss, segments[1..], run.script, states[k..]);
      } else if run.buffer == [] {
        assert segments[1..] == [];
        assert states[k..][0] == states[|states| - 1] by { ObeysLength(states[k..], []); }
      }
    }
  }

  lemma QuietTail(segments: seq<seq<byte>>, mss: nat, states: seq<Card>, k: nat)
    requires mss > 0 && |segments| > 1 && k < |states|
    requires Quiet(states[0], states[|states| - 1], BlocksBeforeLast(segments, mss))
    requires |states[k].answers| == |states[0].answers| + |Chunks(segments[0], mss)|
    ensures Quiet(states[k..][0], states[k..][|states[k..]| - 1], BlocksBeforeLast(segments[1..], mss))
  {
  }

  /** The number of blocks of all segments. */
  function AllBlocks(segments: seq<seq<byte>>, mss: nat): nat
    requires mss > 0
  {
    if segments == [] then 0 else |Chunks(segments[0], mss)| + AllBlocks(segments[1..], mss)
  }

  /** The segment loop ends, with as many replies as there are blocks and bytes that the card has to say. */
  lemma {:induction false} SegmentsAnswered(channel: byte, mss: nat, segments: seq<seq<byte>>, script: seq<Reply>,
                                            states: seq<Card>)
    requires 0 < mss <= 255
    requires Obeys(states, Cut(SendSegments(channel, mss, segments, script).log, script))
    requires |script| >= AllBlocks(segments, mss) + Said(states[0], states[|states| - 1])
    ensures |SendSegments(channel, mss, segments, script).log| <= |script|
    decreases |segments|
  {
    hide Blocks, Obeys, Chunks, Said, Cut;
    if segments != [] {
      var run := WriteRun(channel, mss, segments[0], script);
      var rest := SendSegments(channel, mss, segments[1..], run.script);
      var log2 := if run.ok && run.buffer == [] then rest.log else [];
      assert run.log + [] == run.log;
      CutThen(run.log, log2, script);
      var n := Min(|run.log|, |script|);
      ObeysParts(states, Cut(run.log + log2, script), n);
      var chunks := |segments[0]| / mss % 256;
      BlocksAnswered(0x80, channel, mss, 0, chunks, segments[0], script, states[..n + 1]);
      CutWhole(run.log, script);
      BlocksDeliver(0x80, channel, mss, 0, chunks, segments[0], script, states[..n + 1]);
      SaidIsAnswered(states[0], states[n]);
      BlocksUse(0x80, channel, mss, 0, chunks, segments[0], script);
      if run.buffer == [] {
        SegmentsAnswered(channel, mss, segments[1..], run.script, states[n..]);
      }
    }
  }

  /**
   * End to end, with a card that answers as long as there are replies, for every installable package. The transfer ends
   * within as many replies as there are blocks and bytes that the card says. And if it answers every segment before the
   * last with no data, then once the transfer has ended every segment has gone through and the card has received exactly
   * the package's encoding.
   */
  lemma EndToEndWithCard(bpp: TLV, channel: byte, mss: nat, script: seq<Reply>, states: seq<Card>)
    requires Installable(bpp) && 0 < mss <= 255
    requires Obeys(states, Cut(SendSegments(channel, mss, Segments(bpp), script).log, script))
    ensures var t := SendSegments(channel, mss, Segments(bpp), script);
            var first, last := states[0], states[|states| - 1];
            && (|script| >= AllBlocks(Segments(bpp), mss) + Said(first, last) ==> |t.log| <= |script|)
            && (|t.log| <= |script| && Quiet(first, last, BlocksBeforeLast(Segments(bpp), mss)) ==>
                  t.ok && t.sent == |Segments(bpp)| && Received(t.log) == Marshal(bpp).value)
  {
    hide Segment, SendSegments, Obeys, BlocksBeforeLast, Installable, Cut, Quiet, Said, AllBlocks;
    var t := SendSegments(channel, mss, Segments(bpp), script);
    ObeysLength(states, Cut(t.log, script));
    if |script| >= AllBlocks(Segments(bpp), mss) + Said(states[0], states[|states| - 1]) {
      SegmentsAnswered(channel, mss, Segments(bpp), script, states);
    }
    if |t.log| <= |script| && Quiet(states[0], states[|states| - 1], BlocksBeforeLast(Segments(bpp), mss)) {
      CutWhole(t.log, script);
      QuietCardCompletes(channel, mss, Segments(bpp), script, states);
      EndToEnd(bpp, channel, mss, script);
    }
  }

  /* ---------- the code ---------- */

  datatype InstallOutcome = InstallPanic | InstallFailed | Installed(response: TLV)

  /** What `install` makes of an answer that is one TLV. */
  function Judged(answer: TLV): InstallOutcome {
    match ReadAnswer(answer)
    case Succeeds => Installed(answer)
    case Fails => InstallFailed
    case Panics => InstallPanic
  }

  /** `install`. */
  function InstallResult(bpp: TLV, channel: byte, mss: nat, script: seq<Reply>): InstallOutcome
    requires mss > 0
  {
    match Segment(bpp)
    case InvalidPackage => InstallFailed
    case PackagePanic => InstallPanic
    case Segmented(segments) =>
      var t := SendSegments(channel, mss, segments, script);
      if t.ok && Unmarshal(t.answer).Some? then Judged(Unmarshal(t.answer).value) else InstallFailed
  }

  /** The log of `install`: nothing when segmentation does not deliver segments. */
  function InstallLog(bpp: TLV, channel: byte, mss: nat, script: seq<Reply>): seq<Exchange>
    requires mss > 0
  {
    if Segment(bpp).Segmented? then SendSegments(channel, mss, Segment(bpp).segments, script).log else []
  }

  method Install(t: CardTransmitter, bpp: TLV) returns (outcome: InstallOutcome)
    requires t.mss > 0 && t as object != t.channel
    modifies t, t.channel
    ensures outcome == InstallResult(bpp, t.logicalChannel, t.mss, old(t.channel.script))
    ensures t.channel.log == old(t.channel.log) + InstallLog(bpp, t.logicalChannel, t.mss, old(t.channel.script))
  {
    hide Segment, WriteRun, Unmarshal, ReadAnswer;
    var segmented := SegmentedBoundProfilePackage(bpp);
    if !segmented.Segmented? {
      return if segmented.PackagePanic? then InstallPanic else InstallFailed;
    }
    var ok, answer := SendAll(t, segmented.segments);
    if !ok {
      return InstallFailed;
    }
    var cell := new Cell();
    ok := UnmarshalBinary(answer, cell);
    if !ok {
      return InstallFailed;
    }
    match ReadAnswer(cell.tlv)
    case Panics => outcome := InstallPanic;
    case Fails => outcome := InstallFailed;
    case Succeeds => outcome := Installed(cell.tlv);
  }

  /** The segment loop of `install`. */
  method SendAll(t: CardTransmitter, segments: seq<seq<byte>>) returns (ok: bool, answer: seq<byte>)
    requires t.mss > 0 && t as object != t.channel
    modifies t, t.channel
    ensures var all := SendSegments(t.logicalChannel, t.mss, segments, old(t.channel.script));
            t.channel.log == old(t.channel.log) + all.log && t.channel.script == all.script
            && ok == all.ok && (ok ==> answer == all.answer)
  {
    hide WriteRun;
    ghost var all := SendSegments(t.logicalChannel, t.mss, segments, t.channel.script);
    ghost var done: seq<Exchange> := [];
    ok, answer := true, [];
    for i := 0 to |segments|
      invariant t.channel.log == old(t.channel.log) + done
      invariant ok && answer == []
      invariant var rest := SendSegments(t.logicalChannel, t.mss, segments[i..], t.channel.script);
                all == Transfer(done + rest.log, rest.script, rest.answer, i + rest.sent, rest.ok)
    {
      assert segments[i..][1..] == segments[i + 1..];
      ghost var run := WriteRun(t.logicalChannel, t.mss, segments[i], t.channel.script);
      ghost var rest := SendSegments(t.logicalChannel, t.mss, segments[i + 1..], run.script);
      assert done + (run.log + rest.log) == done + run.log + rest.log;
      var n;
      n, ok := t.Write(segments[i]);
      if !ok {
        return;
      }
      answer, t.response := t.response, [];
      if answer != [] {
        return;
      }
      done := done + run.log;
    }
    assert segments[|segments|..] == [];
  }
}
