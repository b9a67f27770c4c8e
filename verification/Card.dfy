/**
 * The other party of the transport: a card that answers every STORE DATA block, at once or on request, and hands out a
 * pending answer in pieces. Runs of the transport against it deliver the answers, and end.
 */
module CardProtocol {
  import opened Bytes
  import opened Apdu
  import opened Transport

  /**
   * `pending`: the part of the current answer still to be fetched. `answers`: the full answers given so far.
   * `lost`: how many answer bytes were sent along with a 61xx status to STORE DATA, which the terminal ignores.
   */
  datatype Card = Card(pending: seq<byte>, answers: seq<seq<byte>>, lost: nat)

  /** A GET RESPONSE with Le 0 asks for up to 256 bytes. */
  function Asked(le: byte): nat {
    if le == 0 then 256 else le
  }

  /** The block is answered in full with 9000, or in part with 61xx; what 61xx promises about the rest is not relied on. */
  predicate AnswersBlock(c: Card, response: seq<byte>, c': Card) {
    && |c'.answers| == |c.answers| + 1
    && c'.answers[..|c.answers|] == c.answers
    && var answer := c'.answers[|c.answers|];
    if c'.pending == [] then
      response == answer + [0x90, 0x00] && c'.lost == c.lost
    else
      && |response| >= 2 && HasMore(response)
      && answer == Data(response) + c'.pending
      && c'.lost == c.lost + |Data(response)|
  }

  /** At least one byte and at most what was asked for; 61xx while bytes remain. */
  predicate AnswersFetch(c: Card, le: byte, response: seq<byte>, c': Card) {
    && 1 <= |c.pending| - |c'.pending| <= Asked(le)
    && |response| >= 2
    && c.pending == Data(response) + c'.pending
    && (if c'.pending == [] then OK(response) else HasMore(response))
    && c'.answers == c.answers && c'.lost == c.lost
  }

  predicate CardStep(c: Card, e: Exchange, c': Card) {
    && e.reply.Answer?
    && var r := UnmarshalRequest(e.command);
    && r.Some?
    && if r.value.ins == STORE_DATA then AnswersBlock(c, e.reply.response, c')
       else r.value.ins == GET_RESPONSE && r.value.le.Some? && AnswersFetch(c, r.value.le.value, e.reply.response, c')
  }

  /** The card passes through `states` while the exchanges of `log` take place. */
  predicate Obeys(states: seq<Card>, log: seq<Exchange>) {
    && |states| == |log| + 1
    && forall i :: 0 <= i < |log| ==> CardStep(states[i], log[i], states[i + 1])
  }

  lemma ObeysLength(states: seq<Card>, log: seq<Exchange>)
    requires Obeys(states, log)
    ensures |states| == |log| + 1
  {
  }

  lemma ObeysSplit(states: seq<Card>, a: seq<Exchange>, b: seq<Exchange>)
    requires Obeys(states, a + b)
    ensures Obeys(states[..|a| + 1], a) && Obeys(states[|a|..], b)
  {
    forall i | 0 <= i < |a| ensures CardStep(states[..|a| + 1][i], a[i], states[..|a| + 1][i + 1]) {
      assert (a + b)[i] == a[i];
    }
    forall i | 0 <= i < |b| ensures CardStep(states[|a|..][i], b[i], states[|a|..][i + 1]) {
      assert (a + b)[|a| + i] == b[i];
    }
  }

  lemma FirstStep(states: seq<Card>, r: Request, reply: Reply, rest: seq<Exchange>)
    requires MarshalRequest(r).Some? && Obeys(states, [Exchange(MarshalRequest(r).value, reply)] + rest)
    ensures reply.Answer? && Obeys(states[1..], rest)
    ensures r.ins == STORE_DATA ==> AnswersBlock(states[0], reply.response, states[1])
    ensures r.ins == GET_RESPONSE && r.le.Some? ==> AnswersFetch(states[0], r.le.value, reply.response, states[1])
  {
    hide MarshalRequest, UnmarshalRequest;
    RequestRoundTrip(r);
    var e := Exchange(MarshalRequest(r).value, reply);
    ObeysSplit(states, [e], rest);
    assert CardStep(states[0], ([e] + rest)[0], states[1]);
  }

  /** A loop that was answered throughout fetches the whole pending answer, in at most as many turns as it has bytes. */
  lemma {:induction false} FetchAnswered(cla: byte, channel: byte, le: byte, script: seq<Reply>, states: seq<Card>)
    requires Obeys(states, GetResponse(cla, channel, le, script).log) && states[0].pending != []
    ensures var run := GetResponse(cla, channel, le, script);
            var last := states[|states| - 1];
            && run.ok
            && run.buffer == states[0].pending
            && last == states[0].(pending := [])
            && |run.log| <= |states[0].pending|
    decreases |script|
  {
    hide MarshalRequest, SetChannel;
    var class_ := SetChannel(cla, channel);
    var run := GetResponse(cla, channel, le, script);
    var r := ResponseRequest(class_, le);
    var reply := Next(script);
    var rest := if Accepted(reply) && HasMore(reply.response)
                then GetResponse(class_, channel, SW2(reply.response), Rest(script)).log else [];
    ShortRequest(r);
    var e := Exchange(MarshalRequest(r).value, reply);
    assert [e] + [] == [e];
    assert run.log == [e] + rest;
    FirstStep(states, r, reply, rest);
    if HasMore(reply.response) {
      FetchAnswered(class_, channel, SW2(reply.response), Rest(script), states[1..]);
    }
  }

  lemma ShortRequest(r: Request)
    ensures MarshalRequest(r).Some? <==> |r.data| <= 255
  {
  }

  /** The answers that a run of the card added, in a row. */
  function Answered(first: Card, last: Card): seq<byte>
    requires |first.answers| <= |last.answers|
  {
    Flatten(last.answers[|first.answers|..])
  }

  /** `last` follows `first`, the terminal holding `buffer` in exchange for it. */
  predicate Delivers(first: Card, last: Card, buffer: seq<byte>, blocks: nat) {
    && first.answers <= last.answers
    && |last.answers| == |first.answers| + blocks
    && first.lost <= last.lost
    && |buffer| + (last.lost - first.lost) == |Answered(first, last)|
    && (last.lost == first.lost ==> buffer == Answered(first, last))
  }

  lemma DeliversThen(a: Card, b: Card, c: Card, x: seq<byte>, y: seq<byte>, m: nat, n: nat)
    requires Delivers(a, b, x, m) && Delivers(b, c, y, n)
    ensures Delivers(a, c, x + y, m + n)
    ensures Answered(a, c) == Answered(a, b) + Answered(b, c)
  {
    var i, j := |a.answers|, |b.answers|;
    assert c.answers[i..] == c.answers[i..j] + c.answers[j..];
    assert c.answers[i..j] == b.answers[i..];
    FlattenConcat(b.answers[i..], c.answers[j..]);
  }

  lemma BlockDelivers(a: Card, b: Card, response: seq<byte>)
    requires AnswersBlock(a, response, b)
    ensures |response| >= 2
    ensures b.pending == [] ==> OK(response) && !HasMore(response) && Delivers(a, b, Data(response), 1)
    ensures b.pending != [] ==> HasMore(response) && Delivers(a, b.(pending := []), b.pending, 1)
    ensures |b.pending| <= |Answered(a, b)|
  {
    var answer := b.answers[|a.answers|];
    assert b.answers[|a.answers|..] == [answer];
    FlattenSingle(answer);
    assert a.answers <= b.answers;
    if b.pending == [] {
      assert Data(response) == answer;
    } else if b.lost == a.lost {
      assert answer == b.pending;
    }
  }

  /** One block against a card: it is answered, in at most one exchange more than its answer has bytes. */
  lemma SendBlockDelivers(channel: byte, r: Request, script: seq<Reply>, states: seq<Card>)
    requires r.ins == STORE_DATA && |r.data| <= 255
    requires Obeys(states, SendBlock(channel, r, script).log)
    ensures var run := SendBlock(channel, r, script);
            var first, last := states[0], states[|states| - 1];
            && run.ok
            && Delivers(first, last, run.buffer, 1)
            && |run.log| <= 1 + |Answered(first, last)|
  {
    hide MarshalRequest, GetResponse, CardStep;
    ShortRequest(r);
    var reply := Next(script);
    var e := Exchange(MarshalRequest(r).value, reply);
    var run := SendBlock(channel, r, script);
    var tail := if Accepted(reply) && HasMore(reply.response)
                then GetResponse(0x80, channel, SW2(reply.response), Rest(script)).log else [];
    assert run.log == [e] + tail;
    FirstStep(states, r, reply, tail);
    BlockDelivers(states[0], states[1], reply.response);
    if HasMore(reply.response) {
      FetchAnswered(0x80, channel, SW2(reply.response), Rest(script), states[1..]);
    }
  }

  /**
   * The block loop against a card: it succeeds, holds one answer per block, in order, less what came along with 61xx
   * replies, and takes no more exchanges than there are blocks and answer bytes.
   */
  lemma {:induction false} BlocksDeliver(cla: byte, channel: byte, mss: nat, p2: byte, chunks: byte, command: seq<byte>,
                                         script: seq<Reply>, states: seq<Card>)
    requires 0 < mss <= 255
    requires Obeys(states, Blocks(cla, channel, mss, p2, chunks, command, script).log)
    ensures var run := Blocks(cla, channel, mss, p2, chunks, command, script);
            var first, last := states[0], states[|states| - 1];
            var blocks := |Chunks(command, mss)|;
            && run.ok
            && Delivers(first, last, run.buffer, blocks)
            && |run.log| <= blocks + |Answered(first, last)|
    decreases |command|
  {
    hide SendBlock, SetChannel, CardStep, Delivers, Blocks;
    if command == [] {
      BlocksEnd(cla, channel, mss, p2, chunks, script);
      DeliversNothing(states[0]);
    } else {
      var k := Min(mss, |command|);
      var class_ := SetChannel(cla, channel);
      var r := BlockRequest(class_, p2, chunks, command[..k]);
      var one := SendBlock(channel, r, script);
      var rest := Blocks(class_, channel, mss, (p2 + 1) % 256, chunks, command[k..], one.script);
      var log2 := if one.ok then rest.log else [];
      BlocksTurn(cla, channel, mss, p2, chunks, command, script);
      assert one.log + [] == one.log;
      ObeysSplit(states, one.log, log2);
      SendBlockDelivers(channel, r, script, states[..|one.log| + 1]);
      BlocksDeliver(class_, channel, mss, (p2 + 1) % 256, chunks, command[k..], one.script, states[|one.log|..]);
      DeliversThen(states[0], states[|one.log|], states[|states| - 1], one.buffer, rest.buffer,
                   1, |Chunks(command[k..], mss)|);
    }
  }

  lemma DeliversNothing(c: Card)
    ensures Delivers(c, c, [], 0)
  {
    assert c.answers[|c.answers|..] == [];
  }

  /* ---------- as long as the card answers ---------- */

  /** The part of a log that the replies of the script answered; an exchange beyond them found the channel broken. */
  function Cut(log: seq<Exchange>, script: seq<Reply>): seq<Exchange> {
    log[..Min(|log|, |script|)]
  }

  lemma CutCons(e: Exchange, rest: seq<Exchange>, script: seq<Reply>)
    requires script != []
    ensures Cut([e] + rest, script) == [e] + Cut(rest, script[1..])
  {
    var k := Min(|rest|, |script| - 1);
    assert ([e] + rest)[..k + 1] == [e] + rest[..k];
  }

  /**
   * The loop ends: with a card that answers as long as there are replies, and at least as many replies as the card has
   * bytes to hand out, the loop does not outrun them.
   */
  lemma {:induction false} FetchEnds(cla: byte, channel: byte, le: byte, script: seq<Reply>, states: seq<Card>)
    requires Obeys(states, Cut(GetResponse(cla, channel, le, script).log, script))
    requires 0 < |states[0].pending| <= |script|
    ensures |GetResponse(cla, channel, le, script).log| <= |script|
    decreases |script|
  {
    hide MarshalRequest, SetChannel, GetResponse, Obeys;
    var class_ := SetChannel(cla, channel);
    var r := ResponseRequest(class_, le);
    ShortRequest(r);
    GetResponseTurn(cla, channel, le, script);
    var e := Exchange(MarshalRequest(r).value, script[0]);
    var rest := if Accepted(script[0]) && HasMore(script[0].response)
                then GetResponse(class_, channel, SW2(script[0].response), script[1..]).log else [];
    assert [e] + [] == [e];
    CutCons(e, rest, script);
    ObeysLength(states, Cut([e] + rest, script));
    FirstStep(states, r, script[0], Cut(rest, script[1..]));
    if HasMore(script[0].response) {
      FetchEnds(class_, channel, SW2(script[0].response), script[1..], states[1..]);
    }
  }

  /** A run that the replies sufficed for used up as many of them as it has exchanges. */
  lemma {:induction false} FetchUses(cla: byte, channel: byte, le: byte, script: seq<Reply>)
    requires |GetResponse(cla, channel, le, script).log| <= |script|
    ensures var run := GetResponse(cla, channel, le, script); run.script == script[|run.log|..]
    decreases |script|
  {
    hide MarshalRequest, SetChannel, HasMore, OK;
    var class_ := SetChannel(cla, channel);
    if Accepted(Next(script)) && HasMore(Next(script).response) {
      FetchUses(class_, channel, SW2(Next(script).response), Rest(script));
    }
  }

  lemma SendBlockUses(channel: byte, r: Request, script: seq<Reply>)
    requires |r.data| <= 255 && |SendBlock(channel, r, script).log| <= |script|
    ensures var run := SendBlock(channel, r, script); run.script == script[|run.log|..]
  {
    hide MarshalRequest, GetResponse, HasMore, OK;
    ShortRequest(r);
    if Accepted(Next(script)) && HasMore(Next(script).response) {
      FetchUses(0x80, channel, SW2(Next(script).response), Rest(script));
    }
  }

  /** How much the card has said from `first` to `last`, counting answers in full as soon as they are announced. */
  function Said(first: Card, last: Card): nat {
    if |first.answers| <= |last.answers| then |Answered(first, last)| else 0
  }

  lemma {:induction false} AnswersKept(states: seq<Card>, log: seq<Exchange>)
    requires Obeys(states, log)
    ensures states[0].answers <= states[|states| - 1].answers
    decreases |log|
  {
    hide UnmarshalRequest;
    if log != [] {
      assert CardStep(states[0], log[0], states[1]);
      assert log == [log[0]] + log[1..];
      ObeysSplit(states, [log[0]], log[1..]);
      AnswersKept(states[1..], log[1..]);
    }
  }

  lemma SaidSplits(a: Card, b: Card, c: Card)
    requires a.answers <= b.answers <= c.answers
    ensures Said(a, c) == Said(a, b) + Said(b, c)
  {
    var i, j := |a.answers|, |b.answers|;
    assert c.answers[i..] == c.answers[i..j] + c.answers[j..];
    assert c.answers[i..j] == b.answers[i..];
    FlattenConcat(b.answers[i..], c.answers[j..]);
  }

  lemma ObeysParts(states: seq<Card>, log: seq<Exchange>, k: nat)
    requires Obeys(states, log) && k <= |log|
    ensures |states| == |log| + 1
    ensures Obeys(states[..k + 1], log[..k]) && Obeys(states[k..], log[k..])
    ensures states[0].answers <= states[k].answers <= states[|states| - 1].answers
    ensures Said(states[0], states[|states| - 1]) == Said(states[0], states[k]) + Said(states[k], states[|states| - 1])
  {
    hide CardStep, Said;
    assert log == log[..k] + log[k..];
    ObeysSplit(states, log[..k], log[k..]);
    AnswersKept(states[..k + 1], log[..k]);
    AnswersKept(states[k..], log[k..]);
    SaidSplits(states[0], states[k], states[|states| - 1]);
  }

  /** One block ends, however much the card has to say to it. */
  lemma SendBlockEnds(channel: byte, r: Request, script: seq<Reply>, states: seq<Card>)
    requires r.ins == STORE_DATA && |r.data| <= 255
    requires Obeys(states, Cut(SendBlock(channel, r, script).log, script))
    requires |script| >= 1 + Said(states[0], states[|states| - 1])
    ensures |SendBlock(channel, r, script).log| <= |script|
  {
    hide MarshalRequest, GetResponse, CardStep, Obeys, Said;
    ShortRequest(r);
    var reply := script[0];
    var e := Exchange(MarshalRequest(r).value, reply);
    var run := SendBlock(channel, r, script);
    var tail := if Accepted(reply) && HasMore(reply.response)
                then GetResponse(0x80, channel, SW2(reply.response), Rest(script)).log else [];
    assert run.log == [e] + tail;
    CutCons(e, tail, script);
    ObeysLength(states, Cut([e] + tail, script));
    FirstStep(states, r, reply, Cut(tail, script[1..]));
    BlockDelivers(states[0], states[1], reply.response);
    if HasMore(reply.response) {
      var all := Cut(run.log, script);
      ObeysParts(states, all, 1);
      SaidAtOnce(states[0], states[1], reply.response);
      FetchEnds(0x80, channel, SW2(reply.response), script[1..], states[1..]);
    }
  }

  lemma SaidAtOnce(a: Card, b: Card, response: seq<byte>)
    requires AnswersBlock(a, response, b)
    ensures |b.pending| <= Said(a, b)
  {
    BlockDelivers(a, b, response);
  }

  lemma CutThen(a: seq<Exchange>, b: seq<Exchange>, script: seq<Reply>)
    ensures var k := Min(|a|, |script|);
            && k <= |Cut(a + b, script)|
            && Cut(a + b, script)[..k] == Cut(a, script)
            && (|a| <= |script| ==> Cut(a + b, script)[k..] == Cut(b, script[|a|..]))
  {
  }

  /** The block loop ends, with as many replies as there are blocks and bytes that the card has to say. */
  lemma {:induction false} BlocksAnswered(cla: byte, channel: byte, mss: nat, p2: byte, chunks: byte, command: seq<byte>,
                                          script: seq<Reply>, states: seq<Card>)
    requires 0 < mss <= 255
    requires Obeys(states, Cut(Blocks(cla, channel, mss, p2, chunks, command, script).log, script))
    requires |script| >= |Chunks(command, mss)| + Said(states[0], states[|states| - 1])
    ensures |Blocks(cla, channel, mss, p2, chunks, command, script).log| <= |script|
    decreases |command|
  {
    hide SendBlock, SetChannel, Blocks, Obeys, Said, Delivers, Cut;
    if command == [] {
      BlocksEnd(cla, channel, mss, p2, chunks, script);
    } else {
      var k := Min(mss, |command|);
      var class_ := SetChannel(cla, channel);
      var r := BlockRequest(class_, p2, chunks, command[..k]);
      var one := SendBlock(channel, r, script);
      var rest := Blocks(class_, channel, mss, (p2 + 1) % 256, chunks, command[k..], one.script);
      var log2 := if one.ok then rest.log else [];
      BlocksTurn(cla, channel, mss, p2, chunks, command, script);
      assert one.log + [] == one.log;
      CutThen(one.log, log2, script);
      var n := Min(|one.log|, |script|);
      ObeysParts(states, Cut(one.log + log2, script), n);
      SendBlockEnds(channel, r, script, states[..n + 1]);
      if one.ok {
        CutWhole(one.log, script);
        SendBlockDelivers(channel, r, script, states[..n + 1]);
        SaidIsAnswered(states[0], states[n]);
        SendBlockUses(channel, r, script);
        BlocksAnswered(class_, channel, mss, (p2 + 1) % 256, chunks, command[k..], one.script, states[n..]);
      }
    }
  }

  lemma {:induction false} BlocksUse(cla: byte, channel: byte, mss: nat, p2: byte, chunks: byte, command: seq<byte>,
                                     script: seq<Reply>)
    requires 0 < mss <= 255
    requires |Blocks(cla, channel, mss, p2, chunks, command, script).log| <= |script|
    ensures var run := Blocks(cla, channel, mss, p2, chunks, command, script); run.script == script[|run.log|..]
    decreases |command|
  {
    hide SendBlock, SetChannel, Blocks;
    if command == [] {
      BlocksEnd(cla, channel, mss, p2, chunks, script);
    } else {
      var k := Min(mss, |command|);
      var class_ := SetChannel(cla, channel);
      var r := BlockRequest(class_, p2, chunks, command[..k]);
      var one := SendBlock(channel, r, script);
      BlocksTurn(cla, channel, mss, p2, chunks, command, script);
      SendBlockUses(channel, r, script);
      if one.ok {
        BlocksUse(class_, channel, mss, (p2 + 1) % 256, chunks, command[k..], one.script);
      }
    }
  }

  lemma CutWhole(log: seq<Exchange>, script: seq<Reply>)
    requires |log| <= |script|
    ensures Cut(log, script) == log
  {
  }

  lemma SaidIsAnswered(a: Card, b: Card)
    requires a.answers <= b.answers
    ensures Said(a, b) == |Answered(a, b)|
  {
  }

  /* ---------- the two loops against a card ---------- */

  /**
   * The GET RESPONSE loop against a card that answers as long as there are replies. It ends within as many replies as the
   * pending answer has bytes; and when it ends it has delivered the whole answer.
   */
  lemma FetchDelivers(cla: byte, channel: byte, le: byte, script: seq<Reply>, states: seq<Card>)
    requires Obeys(states, Cut(GetResponse(cla, channel, le, script).log, script)) && states[0].pending != []
    ensures var run := GetResponse(cla, channel, le, script);
            && (|script| >= |states[0].pending| ==> |run.log| <= |script|)
            && (|run.log| <= |script| ==>
                  && run.ok && run.buffer == states[0].pending
                  && states[|states| - 1] == states[0].(pending := [])
                  && |run.log| <= |states[0].pending|)
  {
    hide GetResponse, Obeys, Cut;
    var run := GetResponse(cla, channel, le, script);
    ObeysLength(states, Cut(run.log, script));
    if |script| >= |states[0].pending| {
      FetchEnds(cla, channel, le, script, states);
    }
    if |run.log| <= |script| {
      CutWhole(run.log, script);
      FetchAnswered(cla, channel, le, script, states);
    }
  }

  /**
   * `Write` against a card that answers as long as there are replies. It ends within as many replies as there are blocks
   * and bytes that the card says; when it ends it has succeeded, and the buffer it leaves is the concatenation of the
   * full answers to all blocks, in order, if and only if no 61xx reply to a block carried data.
   */
  lemma WriteDelivers(channel: byte, mss: nat, command: seq<byte>, script: seq<Reply>, states: seq<Card>)
    requires 0 < mss <= 255
    requires Obeys(states, Cut(WriteRun(channel, mss, command, script).log, script))
    ensures var run := WriteRun(channel, mss, command, script);
            var first, last := states[0], states[|states| - 1];
            var blocks := |Chunks(command, mss)|;
            && (|script| >= blocks + Said(first, last) ==> |run.log| <= |script|)
            && (|run.log| <= |script| ==>
                  && run.ok
                  && |last.answers| == |first.answers| + blocks && first.answers <= last.answers
                  && |run.log| <= blocks + |Answered(first, last)|
                  && (run.buffer == Answered(first, last) <==> last.lost == first.lost))
  {
    hide Blocks, Obeys, Cut, Said;
    var run := WriteRun(channel, mss, command, script);
    ObeysLength(states, Cut(run.log, script));
    if |script| >= |Chunks(command, mss)| + Said(states[0], states[|states| - 1]) {
      BlocksAnswered(0x80, channel, mss, 0, |command| / mss % 256, command, script, states);
    }
    if |run.log| <= |script| {
      CutWhole(run.log, script);
      BlocksDeliver(0x80, channel, mss, 0, |command| / mss % 256, command, script, states);
    }
  }
}
