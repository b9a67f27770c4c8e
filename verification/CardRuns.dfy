/**
 * Conversations that take place: for every command and every list of answers there is a card that obeys the protocol and
 * gives exactly those answers, in pieces of 256 bytes when they are fetched, and `Write` and `install` deliver them.
 */
module CardRuns {
  import opened Bytes
  import opened BerTlv
  import opened BoundProfile
  import opened Apdu
  import opened Transport
  import opened CardProtocol
  import opened Installation

  lemma ObeysCons(c: Card, e: Exchange, states: seq<Card>, log: seq<Exchange>)
    requires states != [] && CardStep(c, e, states[0]) && Obeys(states, log)
    ensures Obeys([c] + states, [e] + log)
  {
    hide CardStep;
    var all, exchanges := [c] + states, [e] + log;
    forall i | 0 <= i < |exchanges| ensures CardStep(all[i], exchanges[i], all[i + 1]) {
      if i > 0 { assert CardStep(states[i - 1], log[i - 1], states[i]); }
    }
  }

  lemma ObeysJoin(s1: seq<Card>, a: seq<Exchange>, s2: seq<Card>, b: seq<Exchange>)
    requires Obeys(s1, a) && Obeys(s2, b) && s1[|s1| - 1] == s2[0]
    ensures Obeys(s1 + s2[1..], a + b)
  {
    hide CardStep;
    var all, log := s1 + s2[1..], a + b;
    forall i | 0 <= i < |log| ensures CardStep(all[i], log[i], all[i + 1]) {
      if i < |a| {
        assert CardStep(s1[i], a[i], s1[i + 1]);
      } else {
        assert CardStep(s2[i - |a|], b[i - |a|], s2[i - |a| + 1]);
      }
    }
  }

  /* ---------- fetching ---------- */

  /** The replies that hand out `p`, 256 bytes at a time. */
  function FetchScript(p: seq<byte>): seq<Reply>
    decreases |p|
  {
    if |p| <= 256 then [Answer(p + [0x90, 0x00])]
    else [Answer(p[..256] + [0x61, 0x00])] + FetchScript(p[256..])
  }

  function FetchStates(c: Card): (r: seq<Card>)
    ensures |r| > 1 && r[0] == c && r[|r| - 1] == c.(pending := [])
    decreases |c.pending|
  {
    if |c.pending| <= 256 then [c, c.(pending := [])]
    else [c] + FetchStates(c.(pending := c.pending[256..]))
  }

  /** One fetch of up to 256 bytes is a step of the card. */
  lemma FetchStep(c: Card, cla: byte)
    requires c.pending != []
    ensures var k := Min(256, |c.pending|);
            var c' := c.(pending := c.pending[k..]);
            var response := c.pending[..k] + if c'.pending == [] then [0x90, 0x00] else [0x61, 0x00];
            && MarshalRequest(ResponseRequest(cla, 0)).Some?
            && CardStep(c, Exchange(MarshalRequest(ResponseRequest(cla, 0)).value, Answer(response)), c')
  {
    RequestRoundTrip(ResponseRequest(cla, 0));
    hide MarshalRequest, UnmarshalRequest;
    var k := Min(256, |c.pending|);
    assert c.pending == c.pending[..k] + c.pending[k..];
  }

  lemma PieceParts(p: seq<byte>, more: bool)
    ensures var r := p + if more then [0x61, 0x00] else [0x90, 0x00];
            Data(r) == p && SW2(r) == 0 && HasMore(r) == more && OK(r) == !more
  {
  }

  lemma {:induction false} FetchRuns(cla: byte, channel: byte, c: Card, tail: seq<Reply>)
    requires c.pending != []
    ensures var run := GetResponse(cla, channel, 0, FetchScript(c.pending) + tail);
            run.ok && run.script == tail && run.buffer == c.pending && Obeys(FetchStates(c), run.log)
    decreases |c.pending|
  {
    hide GetResponse, SetChannel, MarshalRequest, CardStep, Obeys, Data, HasMore, SW2, OK;
    var p := c.pending;
    var script := FetchScript(p) + tail;
    var class_ := SetChannel(cla, channel);
    var k := Min(256, |p|);
    var c' := c.(pending := p[k..]);
    FetchStep(c, class_);
    PieceParts(p[..k], |p| > 256);
    GetResponseTurn(cla, channel, 0, script);
    var e := Exchange(MarshalRequest(ResponseRequest(class_, 0)).value, script[0]);
    if |p| <= 256 {
      assert p[..k] == p && script[1..] == tail;
      ObeysOne(c, e, c');
    } else {
      assert script[1..] == FetchScript(p[256..]) + tail;
      FetchRuns(class_, channel, c', tail);
      var rest := GetResponse(class_, channel, 0, script[1..]);
      assert p == p[..256] + p[256..];
      ObeysCons(c, e, FetchStates(c'), rest.log);
    }
  }

  lemma ObeysOne(c: Card, e: Exchange, c': Card)
    requires CardStep(c, e, c')
    ensures Obeys([c, c'], [e])
  {
    hide CardStep;
  }

  /* ---------- blocks ---------- */

  /** The replies that answer a block with `want`: at once if there is no data, and on request otherwise. */
  function BlockScript(want: seq<byte>): seq<Reply> {
    if want == [] then [Answer([0x90, 0x00])] else [Answer([0x61, 0x00])] + FetchScript(want)
  }

  function BlockStates(c: Card, want: seq<byte>): (r: seq<Card>)
    requires c.pending == []
    ensures |r| > 1 && r[0] == c && r[|r| - 1] == c.(answers := c.answers + [want])
  {
    var answered := c.(answers := c.answers + [want]);
    if want == [] then [c, answered] else [c] + FetchStates(answered.(pending := want))
  }

  lemma BlockStep(c: Card, r: Request, want: seq<byte>)
    requires c.pending == [] && r.ins == STORE_DATA && |r.data| <= 255
    ensures MarshalRequest(r).Some?
    ensures var response := if want == [] then [0x90, 0x00] else [0x61, 0x00];
            CardStep(c, Exchange(MarshalRequest(r).value, Answer(response)),
                     c.(answers := c.answers + [want], pending := want))
  {
    ShortRequest(r);
    RequestRoundTrip(r);
    hide MarshalRequest, UnmarshalRequest;
    assert (c.answers + [want])[..|c.answers|] == c.answers;
    PieceParts([], want != []);
    assert [] + [0x90, 0x00] == [0x90, 0x00] && [] + [0x61, 0x00] == [0x61, 0x00];
  }

  lemma BlockRuns(channel: byte, r: Request, c: Card, want: seq<byte>, tail: seq<Reply>)
    requires c.pending == [] && r.ins == STORE_DATA && |r.data| <= 255
    ensures var run := SendBlock(channel, r, BlockScript(want) + tail);
            && run.ok && run.script == tail && run.buffer == want
            && Obeys(BlockStates(c, want), run.log)
  {
    hide GetResponse, MarshalRequest, CardStep, Obeys, Data, HasMore, SW2, OK;
    var script := BlockScript(want) + tail;
    var c' := c.(answers := c.answers + [want], pending := want);
    BlockStep(c, r, want);
    PieceParts([], want != []);
    assert [] + [0x90, 0x00] == [0x90, 0x00] && [] + [0x61, 0x00] == [0x61, 0x00];
    var e := Exchange(MarshalRequest(r).value, script[0]);
    if want == [] {
      assert script[1..] == tail;
      ObeysOne(c, e, c');
    } else {
      assert script[1..] == FetchScript(want) + tail;
      FetchRuns(0x80, channel, c', tail);
      ObeysCons(c, e, FetchStates(c'), GetResponse(0x80, channel, 0, script[1..]).log);
    }
  }

  function WriteScript(wants: seq<seq<byte>>): seq<Reply> {
    if wants == [] then [] else BlockScript(wants[0]) + WriteScript(wants[1..])
  }

  function WriteStates(c: Card, wants: seq<seq<byte>>): (r: seq<Card>)
    requires c.pending == []
    ensures r != [] && r[0] == c && r[|r| - 1] == c.(answers := c.answers + wants)
    decreases |wants|
  {
    if wants == [] then assert c.answers + [] == c.answers; [c]
    else
      var c' := c.(answers := c.answers + [wants[0]]);
      assert c.answers + [wants[0]] + wants[1..] == c.answers + wants;
      BlockStates(c, wants[0]) + WriteStates(c', wants[1..])[1..]
  }

  lemma {:induction false} BlocksRun(cla: byte, channel: byte, mss: nat, p2: byte, chunks: byte, command: seq<byte>,
                                     c: Card, wants: seq<seq<byte>>, tail: seq<Reply>)
    requires 0 < mss <= 255 && c.pending == [] && |wants| == |Chunks(command, mss)|
    ensures var run := Blocks(cla, channel, mss, p2, chunks, command, WriteScript(wants) + tail);
            && run.ok && run.script == tail && run.buffer == Flatten(wants)
            && Obeys(WriteStates(c, wants), run.log)
    decreases |command|
  {
    hide Blocks, SetChannel, SendBlock, CardStep, Obeys, BlockScript, BlockStates;
    var script := WriteScript(wants) + tail;
    if command == [] {
      BlocksEnd(cla, channel, mss, p2, chunks, tail);
      assert wants == [] && script == tail;
      ObeysNothing(c);
    } else {
      var k := Min(mss, |command|);
      var class_ := SetChannel(cla, channel);
      var r := BlockRequest(class_, p2, chunks, command[..k]);
      var c' := c.(answers := c.answers + [wants[0]]);
      assert script == BlockScript(wants[0]) + (WriteScript(wants[1..]) + tail);
      BlocksTurn(cla, channel, mss, p2, chunks, command, script);
      BlockRuns(channel, r, c, wants[0], WriteScript(wants[1..]) + tail);
      BlocksRun(class_, channel, mss, (p2 + 1) % 256, chunks, command[k..], c', wants[1..], tail);
      var one := SendBlock(channel, r, script);
      var rest := Blocks(class_, channel, mss, (p2 + 1) % 256, chunks, command[k..], one.script);
      ObeysJoin(BlockStates(c, wants[0]), one.log, WriteStates(c', wants[1..]), rest.log);
    }
  }

  lemma ObeysNothing(c: Card)
    ensures Obeys([c], [])
  {
  }

  /**
   * Whatever a card has to say to the blocks of a command, there is a conversation in which it obeys the protocol and
   * says exactly that, and `Write` leaves all of it in the buffer.
   */
  lemma AnyAnswersDelivered(channel: byte, mss: nat, command: seq<byte>, c: Card, wants: seq<seq<byte>>)
    requires 0 < mss <= 255 && c.pending == [] && |wants| == |Chunks(command, mss)|
    ensures var run := WriteRun(channel, mss, command, WriteScript(wants));
            && Obeys(WriteStates(c, wants), run.log)
            && run.ok && run.script == [] && run.buffer == Flatten(wants)
  {
    hide Blocks, WriteScript, WriteStates, Obeys, Chunks;
    assert WriteScript(wants) + [] == WriteScript(wants);
    BlocksRun(0x80, channel, mss, 0, |command| / mss % 256, command, c, wants, []);
  }

  /* ---------- segments ---------- */

  /** Nothing to say to any block of the command. */
  function Silence(command: seq<byte>, mss: nat): (r: seq<seq<byte>>)
    requires mss > 0
    ensures |r| == |Chunks(command, mss)| && Flatten(r) == []
  {
    var r := seq(|Chunks(command, mss)|, _ => []);
    FlattenEmpty(r);
    r
  }

  /** What a quiet card answers, block by block: nothing until the last segment, and `final` to that. */
  function QuietAnswers(segments: seq<seq<byte>>, mss: nat, final: seq<seq<byte>>): seq<seq<byte>>
    requires mss > 0
  {
    if |segments| <= 1 then final else Silence(segments[0], mss) + QuietAnswers(segments[1..], mss, final)
  }

  lemma {:induction false} ScriptConcat(a: seq<seq<byte>>, b: seq<seq<byte>>)
    ensures WriteScript(a + b) == WriteScript(a) + WriteScript(b)
  {
    hide BlockScript;
    if a == [] {
      assert a + b == b;
    } else {
      assert (a + b)[0] == a[0] && (a + b)[1..] == a[1..] + b;
      ScriptConcat(a[1..], b);
    }
  }

  lemma {:induction false} StatesConcat(c: Card, a: seq<seq<byte>>, b: seq<seq<byte>>)
    requires c.pending == []
    ensures WriteStates(c, a + b) == WriteStates(c, a) + WriteStates(c.(answers := c.answers + a), b)[1..]
    decreases |a|
  {
    hide BlockStates, WriteStates;
    var end := c.(answers := c.answers + a);
    var s := WriteStates(end, b)[1..];
    if a == [] {
      assert a + b == b && c.answers + a == c.answers;
      WriteStatesNothing(c);
    } else {
      var c' := c.(answers := c.answers + [a[0]]);
      var x := WriteStates(c', a[1..]);
      WriteStatesStep(c, a, b);
      WriteStatesStep(c, a, []);
      assert a + [] == a && a[1..] + [] == a[1..];
      assert c'.(answers := c'.answers + a[1..]) == end by {
        assert c.answers + [a[0]] + a[1..] == c.answers + a;
      }
      StatesConcat(c', a[1..], b);
      DropFirst(BlockStates(c, a[0]), x, s);
    }
  }

  lemma WriteStatesNothing(c: Card)
    requires c.pending == []
    ensures WriteStates(c, []) == [c]
  {
  }

  lemma WriteStatesStep(c: Card, a: seq<seq<byte>>, b: seq<seq<byte>>)
    requires c.pending == [] && a != []
    ensures WriteStates(c, a + b) ==
            BlockStates(c, a[0]) + WriteStates(c.(answers := c.answers + [a[0]]), a[1..] + b)[1..]
  {
    hide BlockStates;
    assert (a + b)[0] == a[0] && (a + b)[1..] == a[1..] + b;
  }

  lemma DropFirst<T>(a: seq<T>, x: seq<T>, s: seq<T>)
    requires x != []
    ensures a + (x + s)[1..] == a + x[1..] + s
  {
    assert (x + s)[1..] == x[1..] + s;
  }

  lemma {:induction false} SegmentsRun(channel: byte, mss: nat, segments: seq<seq<byte>>, c: Card, final: seq<seq<byte>>)
    requires 0 < mss <= 255 && c.pending == [] && segments != []
    requires |final| == |Chunks(segments[|segments| - 1], mss)|
    ensures var all := QuietAnswers(segments, mss, final);
            var t := SendSegments(channel, mss, segments, WriteScript(all));
            && t.ok && t.sent == |segments| && t.answer == Flatten(final)
            && Obeys(WriteStates(c, all), t.log)
    decreases |segments|
  {
    hide Chunks, WriteScript, WriteStates, Obeys, Blocks;
    var all := QuietAnswers(segments, mss, final);
    var chunks := |segments[0]| / mss % 256;
    if |segments| == 1 {
      AnyAnswersDelivered(channel, mss, segments[0], c, final);
      NothingMore(channel, mss, segments, WriteScript(final));
    } else {
      var silence := Silence(segments[0], mss);
      var after := QuietAnswers(segments[1..], mss, final);
      var c' := c.(answers := c.answers + silence);
      ScriptConcat(silence, after);
      StatesConcat(c, silence, after);
      BlocksRun(0x80, channel, mss, 0, chunks, segments[0], c, silence, WriteScript(after));
      SegmentsRun(channel, mss, segments[1..], c', final);
      var run := WriteRun(channel, mss, segments[0], WriteScript(all));
      ObeysJoin(WriteStates(c, silence), run.log, WriteStates(c', after),
                SendSegments(channel, mss, segments[1..], WriteScript(after)).log);
    }
  }

  /** The transfer of a last segment is its `Write`. */
  lemma NothingMore(channel: byte, mss: nat, segments: seq<seq<byte>>, script: seq<Reply>)
    requires mss > 0 && |segments| == 1 && WriteRun(channel, mss, segments[0], script).ok
    ensures var run := WriteRun(channel, mss, segments[0], script);
            var t := SendSegments(channel, mss, segments, script);
            t.ok && t.sent == 1 && t.answer == run.buffer && t.log == run.log
  {
    hide WriteRun;
    var run := WriteRun(channel, mss, segments[0], script);
    assert segments[1..] == [];
    assert SendSegments(channel, mss, [], run.script).log == [];
    assert run.log + [] == run.log;
  }

  /**
   * Every installable package can be installed with every answer: there is a card that obeys the protocol, is silent up
   * to the last segment and then gives `final`; it receives the whole encoding, and `install` ends as its answer deserves.
   */
  lemma AnyAnswerInstalls(bpp: TLV, channel: byte, mss: nat, c: Card, final: seq<seq<byte>>)
    requires Installable(bpp) && 0 < mss <= 255 && c.pending == []
    requires |final| == |Chunks(LastSegment(bpp), mss)|
    ensures var all := QuietAnswers(Segments(bpp), mss, final);
            && Obeys(WriteStates(c, all), InstallLog(bpp, channel, mss, WriteScript(all)))
            && Received(InstallLog(bpp, channel, mss, WriteScript(all))) == Marshal(bpp).value
            && InstallResult(bpp, channel, mss, WriteScript(all)) ==
               match Unmarshal(Flatten(final)) case None => InstallFailed case Some(t) => Judged(t)
  {
    hide Segment, Marshal, Unmarshal, SendSegments, Installable, Chunks, Obeys, WriteStates, WriteScript, QuietAnswers;
    EndToEnd(bpp, channel, mss, WriteScript(QuietAnswers(Segment(bpp).segments, mss, final)));
    SegmentsRun(channel, mss, Segment(bpp).segments, c, final);
  }
}
