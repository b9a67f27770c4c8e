/**
 * The first answer ends the transfer of a package (lpa/download.go): told over what a card says, and over the writes
 * that the replies bring about.
 */
module FirstAnswer {
  import opened Bytes
  import opened BerTlv
  import opened BoundProfile
  import opened Transport
  import opened CardProtocol
  import opened Messages
  import opened Installation

  /* ---------- over a card ---------- */

  lemma {:induction false} LostGrows(states: seq<Card>, log: seq<Exchange>)
    requires Obeys(states, log)
    ensures states[0].lost <= states[|states| - 1].lost
    decreases |log|
  {
    hide CardStep;
    if log != [] {
      assert CardStep(states[0], log[0], states[1]);
      LostInStep(states[0], log[0], states[1]);
      assert log == [log[0]] + log[1..];
      ObeysSplit(states, [log[0]], log[1..]);
      LostGrows(states[1..], log[1..]);
    }
  }

  lemma LostInStep(c: Card, e: Exchange, c': Card)
    requires CardStep(c, e, c')
    ensures c.lost <= c'.lost
  {
  }

  lemma {:induction false} SomethingSaid(pieces: seq<seq<byte>>, i: nat)
    requires i < |pieces| && pieces[i] != []
    ensures Flatten(pieces) != []
  {
    if i > 0 {
      SomethingSaid(pieces[1..], i - 1);
    }
  }

  /** The blocks of the first `k` segments. */
  function BlocksBefore(segments: seq<seq<byte>>, mss: nat, k: nat): nat
    requires mss > 0 && k <= |segments|
  {
    AllBlocks(segments[..k], mss)
  }

  lemma BlocksBeforeStep(segments: seq<seq<byte>>, mss: nat, k: nat)
    requires mss > 0 && 0 < k <= |segments|
    ensures BlocksBefore(segments, mss, k) == |Chunks(segments[0], mss)| + BlocksBefore(segments[1..], mss, k - 1)
    ensures Flatten(segments[..k]) == segments[0] + Flatten(segments[1..][..k - 1])
  {
    hide Chunks;
    assert segments[..k][1..] == segments[1..][..k - 1];
  }

  /**
   * The card is silent on all segments before segment `k`, and then says something to one of its blocks without any of
   * it getting lost.
   */
  predicate FirstSaysTo(first: Card, last: Card, segments: seq<seq<byte>>, mss: nat, k: nat)
    requires mss > 0 && k < |segments|
  {
    var a := |first.answers|;
    && last.lost == first.lost
    && (forall i :: a <= i < a + BlocksBefore(segments, mss, k) && i < |last.answers| ==> last.answers[i] == [])
    && (exists i :: a + BlocksBefore(segments, mss, k) <= i < a + BlocksBefore(segments, mss, k + 1)
                    && i < |last.answers| && last.answers[i] != [])
  }

  /** The transfer ends with segment `k`, whose blocks are the last, and what the card said to them is its answer. */
  predicate EndsWith(first: Card, last: Card, segments: seq<seq<byte>>, mss: nat, k: nat, t: Transfer)
    requires mss > 0 && k < |segments|
  {
    var a := |first.answers|;
    && t.ok && t.sent == k + 1
    && |last.answers| == a + BlocksBefore(segments, mss, k + 1)
    && a + BlocksBefore(segments, mss, k) <= |last.answers|
    && t.answer == Flatten(last.answers[a + BlocksBefore(segments, mss, k)..]) && t.answer != []
    && Received(t.log) == Flatten(segments[..k + 1])
    && |Stored(t.log)| == BlocksBefore(segments, mss, k + 1)
  }

  /** The write of the first segment, and the rest of the transfer. */
  lemma FirstWrite(channel: byte, mss: nat, segments: seq<seq<byte>>, script: seq<Reply>, states: seq<Card>)
    returns (k: nat)
    requires 0 < mss <= 255 && segments != []
    requires Obeys(states, SendSegments(channel, mss, segments, script).log)
    ensures var run := WriteRun(channel, mss, segments[0], script);
            var rest := SendSegments(channel, mss, segments[1..], run.script);
            && k == |run.log| < |states|
            && run.ok
            && Delivers(states[0], states[k], run.buffer, |Chunks(segments[0], mss)|)
            && states[k].answers <= states[|states| - 1].answers && states[k].lost <= states[|states| - 1].lost
            && (run.buffer == [] ==> Obeys(states[k..], rest.log))
            && (run.buffer != [] ==> k == |states| - 1)
            && Received(run.log) == segments[0] && |Stored(run.log)| == |Chunks(segments[0], mss)|
  {
    hide Blocks, CardStep, Obeys, Chunks, Delivers;
    var run := WriteRun(channel, mss, segments[0], script);
    var rest := SendSegments(channel, mss, segments[1..], run.script);
    var log2 := if run.ok && run.buffer == [] then rest.log else [];
    assert run.log + [] == run.log;
    ObeysSplit(states, run.log, log2);
    k := |run.log|;
    ObeysLength(states, run.log + log2);
    BlocksDeliver(0x80, channel, mss, 0, |segments[0]| / mss % 256, segments[0], script, states[..k + 1]);
    AnswersKept(states[k..], log2);
    LostGrows(states[k..], log2);
    BlockChaining(channel, mss, segments[0], script);
  }

  lemma FirstIsEnough(first: Card, mid: Card, last: Card, segments: seq<seq<byte>>, mss: nat, buffer: seq<byte>)
    requires mss > 0 && segments != [] && FirstSaysTo(first, last, segments, mss, 0)
    requires Delivers(first, mid, buffer, |Chunks(segments[0], mss)|)
    requires mid.answers <= last.answers && mid.lost <= last.lost
    ensures buffer != [] && buffer == Answered(first, mid)
    ensures BlocksBefore(segments, mss, 0) == 0 && BlocksBefore(segments, mss, 1) == |Chunks(segments[0], mss)|
  {
    hide Chunks;
    BlocksBeforeStep(segments, mss, 1);
    var a := |first.answers|;
    var i :| a <= i < a + BlocksBefore(segments, mss, 1) && i < |last.answers| && last.answers[i] != [];
    assert mid.answers[a..][i - a] == last.answers[i];
    SomethingSaid(mid.answers[a..], i - a);
  }

  lemma SilentSoFar(first: Card, mid: Card, last: Card, segments: seq<seq<byte>>, mss: nat, k: nat, buffer: seq<byte>)
    requires mss > 0 && 0 < k < |segments| && FirstSaysTo(first, last, segments, mss, k)
    requires Delivers(first, mid, buffer, |Chunks(segments[0], mss)|)
    requires mid.answers <= last.answers && mid.lost <= last.lost
    ensures buffer == [] && FirstSaysTo(mid, last, segments[1..], mss, k - 1)
  {
    hide Chunks, AllBlocks;
    BlocksBeforeStep(segments, mss, k);
    BlocksBeforeStep(segments, mss, k + 1);
    assert forall i :: 0 <= i < |mid.answers| ==> mid.answers[i] == last.answers[i];
    FlattenEmpty(mid.answers[|first.answers|..]);
  }

  /** One turn of the segment loop, as `SendSegments` has it. */
  lemma SegmentsTurn(channel: byte, mss: nat, segments: seq<seq<byte>>, script: seq<Reply>)
    requires mss > 0 && segments != []
    ensures var run := WriteRun(channel, mss, segments[0], script);
            var rest := SendSegments(channel, mss, segments[1..], run.script);
            SendSegments(channel, mss, segments, script) ==
            if !run.ok then Transfer(run.log, run.script, [], 0, false)
            else if run.buffer != [] then Transfer(run.log, run.script, run.buffer, 1, true)
            else Transfer(run.log + rest.log, rest.script, rest.answer, 1 + rest.sent, rest.ok)
  {
    hide WriteRun;
  }

  lemma EndsNow(first: Card, last: Card, segments: seq<seq<byte>>, mss: nat, t: Transfer)
    requires mss > 0 && segments != [] && t.ok && t.sent == 1
    requires Delivers(first, last, t.answer, |Chunks(segments[0], mss)|) && t.answer == Answered(first, last) && t.answer != []
    requires Received(t.log) == segments[0] && |Stored(t.log)| == |Chunks(segments[0], mss)|
    requires BlocksBefore(segments, mss, 0) == 0 && BlocksBefore(segments, mss, 1) == |Chunks(segments[0], mss)|
    ensures EndsWith(first, last, segments, mss, 0, t)
  {
    hide Chunks, AllBlocks, BlocksBefore, Received, Stored;
    assert segments[..1] == [segments[0]];
    FlattenSingle(segments[0]);
  }

  lemma EndsLater(first: Card, mid: Card, last: Card, segments: seq<seq<byte>>, mss: nat, k: nat, log: seq<Exchange>,
                  rest: Transfer, t: Transfer)
    requires mss > 0 && 0 < k < |segments| && EndsWith(mid, last, segments[1..], mss, k - 1, rest)
    requires t == Transfer(log + rest.log, rest.script, rest.answer, 1 + rest.sent, rest.ok)
    requires |mid.answers| == |first.answers| + |Chunks(segments[0], mss)|
    requires Received(log) == segments[0] && |Stored(log)| == |Chunks(segments[0], mss)|
    ensures EndsWith(first, last, segments, mss, k, t)
  {
    hide Chunks, AllBlocks, Received, Stored, BlocksBefore;
    BlocksBeforeStep(segments, mss, k);
    BlocksBeforeStep(segments, mss, k + 1);
    ReceivedConcat(log, rest.log);
    StoredConcat(log, rest.log);
  }

  lemma {:induction false} StopsAtFirstAnswer(channel: byte, mss: nat, segments: seq<seq<byte>>, script: seq<Reply>,
                                              states: seq<Card>, k: nat)
    requires 0 < mss <= 255 && k < |segments|
    requires Obeys(states, SendSegments(channel, mss, segments, script).log)
    requires FirstSaysTo(states[0], states[|states| - 1], segments, mss, k)
    ensures EndsWith(states[0], states[|states| - 1], segments, mss, k, SendSegments(channel, mss, segments, script))
    decreases k
  {
    hide WriteRun, SendSegments, Obeys, Chunks, BlocksBefore, FirstSaysTo, EndsWith, Received, Stored;
    var n := FirstWrite(channel, mss, segments, script, states);
    SegmentsTurn(channel, mss, segments, script);
    var run := WriteRun(channel, mss, segments[0], script);
    var first, mid, last := states[0], states[n], states[|states| - 1];
    if k == 0 {
      FirstIsEnough(first, mid, last, segments, mss, run.buffer);
      EndsNow(first, last, segments, mss, SendSegments(channel, mss, segments, script));
    } else {
      SilentSoFar(first, mid, last, segments, mss, k, run.buffer);
      StopsAtFirstAnswer(channel, mss, segments[1..], run.script, states[n..], k - 1);
      var rest := SendSegments(channel, mss, segments[1..], run.script);
      EndsLater(first, mid, last, segments, mss, k, run.log, rest, SendSegments(channel, mss, segments, script));
    }
  }

  /**
   * The first answer ends the transfer, for every list of segments and every card that answers as long as there are
   * replies: if the card is silent on all segments before segment `k` and then says something to it, none of it lost,
   * then the blocks of segment `k` are the last to go out, the card has received exactly the segments up to it, and what
   * it said is the answer.
   */
  lemma FirstAnswerEnds(channel: byte, mss: nat, segments: seq<seq<byte>>, script: seq<Reply>, states: seq<Card>, k: nat)
    requires 0 < mss <= 255 && k < |segments|
    requires Obeys(states, Cut(SendSegments(channel, mss, segments, script).log, script))
    requires |SendSegments(channel, mss, segments, script).log| <= |script|
    requires FirstSaysTo(states[0], states[|states| - 1], segments, mss, k)
    ensures EndsWith(states[0], states[|states| - 1], segments, mss, k, SendSegments(channel, mss, segments, script))
  {
    hide SendSegments, Obeys, FirstSaysTo, EndsWith;
    CutWhole(SendSegments(channel, mss, segments, script).log, script);
    ObeysLength(states, SendSegments(channel, mss, segments, script).log);
    StopsAtFirstAnswer(channel, mss, segments, script, states, k);
  }

  /**
   * What the card said decides the outcome of `install`, as early as it says it: nothing that could have followed is
   * waited for. In particular a response that the card marshals is the one that is judged.
   */
  lemma CardDecides(bpp: TLV, channel: byte, mss: nat, script: seq<Reply>, states: seq<Card>, k: nat)
    requires Installable(bpp) && 0 < mss <= 255 && k < |Segments(bpp)|
    requires Obeys(states, Cut(SendSegments(channel, mss, Segments(bpp), script).log, script))
    requires |SendSegments(channel, mss, Segments(bpp), script).log| <= |script|
    requires FirstSaysTo(states[0], states[|states| - 1], Segments(bpp), mss, k)
    ensures |states[0].answers| + BlocksBefore(Segments(bpp), mss, k) <= |states[|states| - 1].answers|
    ensures var said := Flatten(states[|states| - 1].answers[|states[0].answers| + BlocksBefore(Segments(bpp), mss, k)..]);
            var outcome := InstallResult(bpp, channel, mss, script);
            && (Unmarshal(said).None? ==> outcome == InstallFailed)
            && (Unmarshal(said).Some? ==> JudgedBy(outcome, Unmarshal(said).value))
            && forall response ::
                 Marshal(response) == Some(said) && TagsValid(response) && NoNil(response) ==> JudgedBy(outcome, response)
  {
    hide SendSegments, Obeys, FirstSaysTo, Segment, Unmarshal, BlocksBefore, Installable, Marshal, ReadAnswer;
    var t := SendSegments(channel, mss, Segments(bpp), script);
    ObeysLength(states, Cut(t.log, script));
    FirstAnswerEnds(channel, mss, Segments(bpp), script, states, k);
    forall response | Marshal(response) == Some(t.answer) && TagsValid(response) && NoNil(response)
      ensures Unmarshal(t.answer) == Some(response)
    {
      RoundTrip(response, []);
      MarshalLen(response);
      NormalShape(response);
    }
  }

  /** The outcome is the response if it means success, and an error or a panic if reading it is one. */
  predicate JudgedBy(outcome: InstallOutcome, response: TLV) {
    && (outcome == Installed(response) <==> ReadAnswer(response) == Succeeds)
    && (outcome == InstallFailed <==> ReadAnswer(response) == Fails)
    && (outcome == InstallPanic <==> ReadAnswer(response) == Panics)
  }

  /**
   * What else makes `install` fail: a package that is refused, of which nothing is sent; a write that fails; and an
   * answer that is not one TLV, such as none at all.
   */
  lemma InstallFails(bpp: TLV, channel: byte, mss: nat, script: seq<Reply>)
    requires mss > 0
    ensures Segment(bpp) == InvalidPackage ==>
              InstallResult(bpp, channel, mss, script) == InstallFailed && InstallLog(bpp, channel, mss, script) == []
    ensures Segment(bpp).Segmented? ==>
              var t := SendSegments(channel, mss, Segment(bpp).segments, script);
              && InstallLog(bpp, channel, mss, script) == t.log
              && (!t.ok ==> InstallResult(bpp, channel, mss, script) == InstallFailed)
              && (t.ok && t.answer == [] ==> InstallResult(bpp, channel, mss, script) == InstallFailed)
              && (t.ok && Unmarshal(t.answer).None? ==> InstallResult(bpp, channel, mss, script) == InstallFailed)
  {
    hide Segment, SendSegments, Unmarshal, ReadAnswer;
    NothingIsNoAnswer();
  }

  lemma NothingIsNoAnswer()
    ensures Unmarshal([]).None?
  {
  }

  /* ---------- over the writes ---------- */

  /** The write of segment `i`, if all writes before it are made. */
  function WriteAt(channel: byte, mss: nat, segments: seq<seq<byte>>, script: seq<Reply>, i: nat): Run
    requires mss > 0 && i < |segments|
    decreases i
  {
    var run := WriteRun(channel, mss, segments[0], script);
    if i == 0 then run else WriteAt(channel, mss, segments[1..], run.script, i - 1)
  }

  /** What the first `k` writes exchange. */
  function LogOf(channel: byte, mss: nat, segments: seq<seq<byte>>, script: seq<Reply>, k: nat): seq<Exchange>
    requires mss > 0 && k <= |segments|
    decreases k
  {
    if k == 0 then []
    else
      var run := WriteRun(channel, mss, segments[0], script);
      run.log + LogOf(channel, mss, segments[1..], run.script, k - 1)
  }

  /**
   * The transfer, for any replies at all. It goes past a segment only if its write succeeded and left an empty buffer;
   * if it ends before the last segment, either the last write failed, or it left the answer, which is not empty. Nothing is
   * exchanged but by the writes up to that one.
   */
  lemma {:induction false} GoesOnExactly(channel: byte, mss: nat, segments: seq<seq<byte>>, script: seq<Reply>)
    requires mss > 0
    ensures var t := SendSegments(channel, mss, segments, script);
            && (forall i :: 0 <= i < t.sent ==> WriteAt(channel, mss, segments, script, i).ok)
            && (forall i :: 0 <= i < |segments| && i < (if t.ok then t.sent - 1 else t.sent) ==>
                  WriteAt(channel, mss, segments, script, i).buffer == [])
            && (t.ok && t.sent > 0 ==> t.answer == WriteAt(channel, mss, segments, script, t.sent - 1).buffer)
            && (t.ok && t.sent < |segments| ==> t.sent > 0 && t.answer != [])
            && (!t.ok ==> t.sent < |segments| && !WriteAt(channel, mss, segments, script, t.sent).ok)
            && t.log == LogOf(channel, mss, segments, script, if t.ok then t.sent else t.sent + 1)
    decreases |segments|
  {
    hide WriteRun, SendSegments;
    if segments == [] {
      NoSegments(channel, mss, script);
    } else {
      SegmentsTurn(channel, mss, segments, script);
      var run := WriteRun(channel, mss, segments[0], script);
      if run.ok && run.buffer == [] {
        GoesOnExactly(channel, mss, segments[1..], run.script);
        NoSegments(channel, mss, run.script);
      } else {
        assert run.log + [] == run.log;
      }
    }
  }

  lemma NoSegments(channel: byte, mss: nat, script: seq<Reply>)
    requires mss > 0
    ensures SendSegments(channel, mss, [], script) == Transfer([], script, [], 0, true)
  {
  }
}
