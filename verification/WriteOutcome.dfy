/**
 * When `Write` succeeds (driver/transmitter.go), told from the bytes of the replies alone: what each exchange calls for
 * next, where a run may stop, and what it leaves behind.
 */
module WriteOutcome {
  import opened Bytes
  import opened Apdu
  import opened Transport

  /** At least two bytes that end in 90 00, or with 61 second to last. */
  predicate Good(reply: Reply) {
    && reply.Answer?
    && var r := reply.response;
    && |r| >= 2
    && ((r[|r| - 2] == 0x90 && r[|r| - 1] == 0x00) || r[|r| - 2] == 0x61)
  }

  predicate AllGood(log: seq<Exchange>) {
    forall i :: 0 <= i < |log| ==> Good(log[i].reply)
  }

  /** The status byte that announces bytes to fetch, if the reply does. */
  function Due(reply: Reply): Option<byte> {
    if reply.Answer? && |reply.response| >= 2 && reply.response[|reply.response| - 2] == 0x61 then
      Some(reply.response[|reply.response| - 1])
    else None
  }

  /** GET RESPONSE for the bytes that are due, or else STORE DATA. */
  predicate Follows(channel: byte, due: Option<byte>, command: seq<byte>) {
    match due
    case Some(le) => command == [ClassByte(channel), 0xC0, 0, 0, le]
    case None => |command| > 5 && command[1] == 0xE2
  }

  /** What is due after a log that began with `due`. */
  function After(due: Option<byte>, log: seq<Exchange>): Option<byte> {
    if log == [] then due else Due(log[|log| - 1].reply)
  }

  /** The exchange follows from the reply before it, which was good. */
  predicate Link(channel: byte, due: Option<byte>, log: seq<Exchange>, i: nat)
    requires i < |log|
  {
    if i == 0 then Follows(channel, due, log[i].command)
    else Good(log[i - 1].reply) && Follows(channel, Due(log[i - 1].reply), log[i].command)
  }

  predicate Chain(channel: byte, due: Option<byte>, log: seq<Exchange>) {
    forall i :: 0 <= i < |log| ==> Link(channel, due, log, i)
  }

  /** How many bytes of data a STORE DATA carries that was answered well. */
  function Acknowledged(log: seq<Exchange>): nat {
    if log == [] then 0
    else
      var c := log[0].command;
      (if |c| > 5 && c[1] == 0xE2 && Good(log[0].reply) then |c| - 5 else 0) + Acknowledged(log[1..])
  }

  /** The data of the good replies, but for what comes with 61xx to STORE DATA. */
  function Collected(log: seq<Exchange>): seq<byte> {
    if log == [] then []
    else
      var c, reply := log[0].command, log[0].reply;
      (if Good(reply) && !(|c| > 5 && Due(reply).Some?) then reply.response[..|reply.response| - 2] else [])
      + Collected(log[1..])
  }

  lemma {:induction false} TotalsConcat(a: seq<Exchange>, b: seq<Exchange>)
    ensures Acknowledged(a + b) == Acknowledged(a) + Acknowledged(b)
    ensures Collected(a + b) == Collected(a) + Collected(b)
  {
    hide Good, Due;
    if a == [] {
      assert a + b == b;
    } else {
      assert (a + b)[0] == a[0] && (a + b)[1..] == a[1..] + b;
      TotalsConcat(a[1..], b);
    }
  }

  lemma ChainConcat(channel: byte, due: Option<byte>, a: seq<Exchange>, b: seq<Exchange>)
    requires Chain(channel, due, a) && AllGood(a) && Chain(channel, After(due, a), b)
    ensures Chain(channel, due, a + b)
    ensures After(due, a + b) == After(After(due, a), b)
    ensures AllGood(a + b) <==> AllGood(b)
  {
    hide Good, Due, Follows;
    var c := a + b;
    var mid := After(due, a);
    forall i | 0 <= i < |c| ensures Link(channel, due, c, i) {
      if i < |a| {
        assert Link(channel, due, a, i);
      } else {
        assert Link(channel, mid, b, i - |a|);
        assert c[i] == b[i - |a|] && (i > |a| ==> c[i - 1] == b[i - 1 - |a|]);
      }
    }
    if AllGood(c) {
      forall i | 0 <= i < |b| ensures Good(b[i].reply) { assert c[|a| + i] == b[i]; }
    }
  }

  /** The replies of the log are those of the script, in order, and then nothing comes any more. */
  predicate Replays(log: seq<Exchange>, script: seq<Reply>, rest: seq<Reply>) {
    && (forall i :: 0 <= i < |log| ==> log[i].reply == if i < |script| then script[i] else Broken)
    && rest == script[Min(|log|, |script|)..]
  }

  lemma ReplaysConcat(a: seq<Exchange>, b: seq<Exchange>, script: seq<Reply>, mid: seq<Reply>, rest: seq<Reply>)
    requires Replays(a, script, mid) && Replays(b, mid, rest)
    ensures Replays(a + b, script, rest)
  {
    forall i | 0 <= i < |a + b| ensures (a + b)[i].reply == if i < |script| then script[i] else Broken {
      if i >= |a| { assert (a + b)[i] == b[i - |a|]; }
    }
  }

  /** A run obeys the chain, ends with nothing due, and leaves what its log says. */
  predicate Lawful(channel: byte, due: Option<byte>, script: seq<Reply>, run: Run) {
    && Chain(channel, due, run.log)
    && After(due, run.log) == None
    && Replays(run.log, script, run.script)
    && run.buffer == Collected(run.log)
    && run.n == Acknowledged(run.log)
    && (run.ok ==> AllGood(run.log))
  }

  /** It failed at its last exchange. */
  predicate EndsBadly(run: Run) {
    run.log != [] && !Good(run.log[|run.log| - 1].reply)
  }

  lemma LawfulThen(channel: byte, due: Option<byte>, script: seq<Reply>, log: seq<Exchange>, buffer: seq<byte>, n: nat,
                   b: Run)
    requires Chain(channel, due, log) && AllGood(log)
    requires buffer == Collected(log) && n == Acknowledged(log)
    requires Replays(log, script, script[Min(|log|, |script|)..])
    requires Lawful(channel, After(due, log), script[Min(|log|, |script|)..], b)
    ensures Lawful(channel, due, script, Run(log + b.log, b.script, buffer + b.buffer, n + b.n, b.ok))
    ensures EndsBadly(b) ==> EndsBadly(Run(log + b.log, b.script, buffer + b.buffer, n + b.n, b.ok))
  {
    hide Chain, Good, Due, After, Acknowledged, Collected, Replays;
    ChainConcat(channel, due, log, b.log);
    TotalsConcat(log, b.log);
    ReplaysConcat(log, b.log, script, script[Min(|log|, |script|)..], b.script);
  }

  /** One exchange that follows from what is due. */
  lemma OneExchange(channel: byte, due: Option<byte>, script: seq<Reply>, command: seq<byte>)
    requires Follows(channel, due, command)
    ensures var reply := Next(script);
            var log := [Exchange(command, reply)];
            && Chain(channel, due, log) && (AllGood(log) <==> Good(reply))
            && Replays(log, script, Rest(script)) && Rest(script) == script[Min(|log|, |script|)..]
            && After(due, log) == Due(reply)
            && Acknowledged(log) == (if |command| > 5 && command[1] == 0xE2 && Good(reply) then |command| - 5 else 0)
            && Collected(log) == (if Good(reply) && !(|command| > 5 && Due(reply).Some?) then
                                    reply.response[..|reply.response| - 2] else [])
  {
    hide Due, Follows;
    var log := [Exchange(command, Next(script))];
    assert log[1..] == [];
    assert log[0].reply == Next(script) && Link(channel, due, log, 0);
    assert Acknowledged([]) == 0 && Collected([]) == [];
  }

  /** The transport's own reading of a reply is that of its bytes. */
  lemma RepliesRead(reply: Reply)
    ensures (Accepted(reply) <==> Good(reply)) && (Good(reply) ==> reply.Answer?)
    ensures Good(reply) ==> Data(reply.response) == reply.response[..|reply.response| - 2]
    ensures Good(reply) ==> (HasMore(reply.response) <==> Due(reply).Some?)
    ensures Good(reply) && HasMore(reply.response) ==> Due(reply) == Some(SW2(reply.response))
    ensures !Good(reply) ==> Due(reply).None?
  {
  }

  /** One turn of the GET RESPONSE loop, as `GetResponse` has it. */
  lemma FetchTurn(cla: byte, channel: byte, le: byte, script: seq<Reply>, command: seq<byte>)
    requires SetChannel(cla, channel) == ClassByte(channel)
    requires MarshalRequest(ResponseRequest(ClassByte(channel), le)) == Some(command)
    ensures var run, reply := GetResponse(cla, channel, le, script), Next(script);
            var log := [Exchange(command, reply)];
            if !Accepted(reply) then run == Run(log, Rest(script), [], 0, false)
            else if !HasMore(reply.response) then run == Run(log, Rest(script), Data(reply.response), 0, true)
            else
              var more := GetResponse(ClassByte(channel), channel, SW2(reply.response), Rest(script));
              run == Run(log + more.log, more.script, Data(reply.response) + more.buffer, 0 + more.n, more.ok)
  {
    hide SetChannel, ClassByte, OK, HasMore, SW2, Data, MarshalRequest;
  }

  lemma {:induction false} FetchLawful(cla: byte, channel: byte, le: byte, script: seq<Reply>)
    requires SetChannel(cla, channel) == ClassByte(channel)
    ensures var run := GetResponse(cla, channel, le, script);
            Lawful(channel, Some(le), script, run) && (!run.ok ==> EndsBadly(run))
    decreases |script|
  {
    hide GetResponse, SetChannel, ClassByte, MarshalRequest, Accepted, HasMore, SW2, Data, Good, Due, Lawful, Follows;
    var command := FetchCommand(channel, le);
    var reply := Next(script);
    FetchTurn(cla, channel, le, script, command);
    OneExchange(channel, Some(le), script, command);
    RepliesRead(reply);
    if Accepted(reply) && HasMore(reply.response) {
      ChannelRoundTrip(channel);
      FetchLawful(ClassByte(channel), channel, SW2(reply.response), Rest(script));
      LawfulThen(channel, Some(le), script, [Exchange(command, reply)], Data(reply.response), 0,
                 GetResponse(ClassByte(channel), channel, SW2(reply.response), Rest(script)));
    } else {
      LastExchange(channel, Some(le), script, GetResponse(cla, channel, le, script));
    }
  }

  lemma FetchCommand(channel: byte, le: byte) returns (command: seq<byte>)
    ensures command == [ClassByte(channel), 0xC0, 0, 0, le]
    ensures MarshalRequest(ResponseRequest(ClassByte(channel), le)) == Some(command)
    ensures Follows(channel, Some(le), command)
  {
    hide ClassByte;
    command := [ClassByte(channel), 0xC0, 0, 0, le];
    assert [ClassByte(channel), 0xC0, 0, 0] + [] + [le] == command;
  }

  lemma LastExchange(channel: byte, due: Option<byte>, script: seq<Reply>, run: Run)
    requires Chain(channel, due, run.log) && After(due, run.log) == None && Replays(run.log, script, run.script)
    requires run.buffer == Collected(run.log) && run.n == Acknowledged(run.log)
    requires run.ok <==> AllGood(run.log)
    ensures Lawful(channel, due, script, run)
  {
  }

  lemma StoreCommand(channel: byte, r: Request) returns (command: seq<byte>)
    requires r.ins == STORE_DATA && r.cla == ClassByte(channel) && r.le == None && 0 < |r.data| <= 255
    ensures MarshalRequest(r) == Some(command)
    ensures Follows(channel, None, command) && |command| == 5 + |r.data| && command[1] == 0xE2
  {
    hide ClassByte;
    command := MarshalRequest(r).value;
  }

  /** One block: its run is lawful, and it fails only by a bad reply, which is its last. */
  lemma SendBlockLawful(channel: byte, r: Request, script: seq<Reply>)
    requires r.ins == STORE_DATA && r.cla == ClassByte(channel) && r.le == None && 0 < |r.data| <= 255
    ensures var run := SendBlock(channel, r, script);
            Lawful(channel, None, script, run) && (!run.ok ==> EndsBadly(run))
  {
    hide ClassByte, SetChannel, MarshalRequest, GetResponse, Accepted, HasMore, SW2, Data, Good, Due, Lawful, Follows;
    var command := StoreCommand(channel, r);
    var reply := Next(script);
    OneExchange(channel, None, script, command);
    RepliesRead(reply);
    var log := [Exchange(command, reply)];
    if Accepted(reply) && HasMore(reply.response) {
      ChannelRoundTrip(channel);
      FetchLawful(0x80, channel, SW2(reply.response), Rest(script));
      var more := GetResponse(0x80, channel, SW2(reply.response), Rest(script));
      FetchCountsNothing(0x80, channel, SW2(reply.response), Rest(script));
      LawfulThen(channel, None, script, log, [], |r.data|, more);
      assert [] + more.buffer == more.buffer;
    } else {
      LastExchange(channel, None, script, SendBlock(channel, r, script));
    }
  }

  lemma {:induction false} FetchCountsNothing(cla: byte, channel: byte, le: byte, script: seq<Reply>)
    ensures GetResponse(cla, channel, le, script).n == 0
    decreases |script|
  {
    hide SetChannel;
    GetResponseTurn(cla, channel, le, script);
    var class_ := SetChannel(cla, channel);
    if Accepted(Next(script)) && HasMore(Next(script).response) {
      FetchCountsNothing(class_, channel, SW2(Next(script).response), Rest(script));
    }
  }

  lemma {:induction false} BlocksLawful(cla: byte, channel: byte, mss: nat, p2: byte, chunks: byte, command: seq<byte>,
                                        script: seq<Reply>)
    requires 0 < mss && SetChannel(cla, channel) == ClassByte(channel)
    ensures var run := Blocks(cla, channel, mss, p2, chunks, command, script);
            && Lawful(channel, None, script, run)
            && (!run.ok ==> EndsBadly(run) || |Stored(run.log)| < |Chunks(command, mss)|)
    decreases |command|
  {
    hide SetChannel, ClassByte, SendBlock, Blocks, Stored, Lawful, EndsBadly;
    if command == [] {
      BlocksEnd(cla, channel, mss, p2, chunks, script);
      NothingLawful(channel, script);
    } else {
      var k := Min(mss, |command|);
      var r := BlockRequest(ClassByte(channel), p2, chunks, command[..k]);
      var one := SendBlock(channel, r, script);
      BlocksTurn(cla, channel, mss, p2, chunks, command, script);
      if k > 255 {
        TooLong(channel, r, script);
      } else {
        SendBlockLawful(channel, r, script);
        SendBlockStores(channel, r, script);
        if one.ok {
          ChannelRoundTrip(channel);
          var rest := Blocks(ClassByte(channel), channel, mss, (p2 + 1) % 256, chunks, command[k..], one.script);
          BlocksLawful(ClassByte(channel), channel, mss, (p2 + 1) % 256, chunks, command[k..], one.script);
          StoredConcat(one.log, rest.log);
          RunThenRun(channel, script, one, rest);
        }
      }
    }
  }

  lemma NothingLawful(channel: byte, script: seq<Reply>)
    ensures Lawful(channel, None, script, Run([], script, [], 0, true))
  {
  }

  /** A block that does not fit a short command is not sent. */
  lemma TooLong(channel: byte, r: Request, script: seq<Reply>)
    requires |r.data| > 255
    ensures var run := SendBlock(channel, r, script);
            Lawful(channel, None, script, run) && !run.ok && Stored(run.log) == []
  {
  }

  lemma LawfulParts(channel: byte, script: seq<Reply>, run: Run)
    requires Lawful(channel, None, script, run) && run.ok
    ensures Chain(channel, None, run.log) && AllGood(run.log) && After(None, run.log) == None
    ensures run.buffer == Collected(run.log) && run.n == Acknowledged(run.log)
    ensures Replays(run.log, script, run.script) && run.script == script[Min(|run.log|, |script|)..]
  {
    hide Chain, AllGood, After, Acknowledged, Collected;
  }

  lemma RunThenRun(channel: byte, script: seq<Reply>, one: Run, rest: Run)
    requires Lawful(channel, None, script, one) && one.ok && Lawful(channel, None, one.script, rest)
    ensures Lawful(channel, None, script, Then(one, rest))
    ensures EndsBadly(rest) ==> EndsBadly(Then(one, rest))
  {
    hide Lawful, Chain, AllGood, After, Replays, Good, Due, Acknowledged, Collected, EndsBadly;
    LawfulParts(channel, script, one);
    LawfulThen(channel, None, script, one.log, one.buffer, one.n, rest);
  }

  /**
   * The outcome of `Write`, for any replies at all, by the bytes that were exchanged. It succeeds if and only if every
   * block was sent and every exchange was answered by at least two bytes that end in 90 00 or have 61 second to last.
   * Only the last exchange can have been answered otherwise, and then nothing follows it. A 61xx reply is always followed
   * by GET RESPONSE with the class of the channel, P1 and P2 zero, and Le the last byte of that reply; no other reply is,
   * and everything else is STORE DATA. The count is the length of the data of the blocks that were answered well, and the
   * buffer holds the data of the good replies, but for what comes with 61xx to STORE DATA.
   */
  lemma WriteSucceedsExactly(channel: byte, mss: nat, command: seq<byte>, script: seq<Reply>)
    requires mss > 0
    ensures var run := WriteRun(channel, mss, command, script);
            && (run.ok <==> |Stored(run.log)| == |Chunks(command, mss)| && AllGood(run.log))
            && (forall i :: 0 <= i < |run.log| - 1 ==> Good(run.log[i].reply))
            && (forall i :: 0 <= i < |run.log| ==>
                  run.log[i].reply == if i < |script| then script[i] else Broken)
            && run.n == Acknowledged(run.log)
            && run.buffer == Collected(run.log)
  {
    hide SetChannel, ClassByte, Blocks, Stored, Good, Due, Acknowledged, Collected;
    var run := WriteRun(channel, mss, command, script);
    ChannelRoundTrip(channel);
    BlocksLawful(0x80, channel, mss, 0, |command| / mss % 256, command, script);
    BlockChaining(channel, mss, command, script);
    forall i | 0 <= i < |run.log| - 1 ensures Good(run.log[i].reply) {
      assert Link(channel, None, run.log, i + 1);
    }
  }

  /** What is exchanged next, told from the reply before. */
  lemma FetchesWhatIsDue(channel: byte, mss: nat, command: seq<byte>, script: seq<Reply>, i: nat)
    requires mss > 0 && i < |WriteRun(channel, mss, command, script).log|
    ensures var log := WriteRun(channel, mss, command, script).log;
            && (i == 0 || Due(log[i - 1].reply).None? ==> |log[i].command| > 5 && log[i].command[1] == 0xE2)
            && (Due(log[i].reply).Some? ==>
                  i + 1 < |log| && log[i + 1].command == [ClassByte(channel), 0xC0, 0, 0, Due(log[i].reply).value])
  {
    hide SetChannel, ClassByte, Blocks, Stored, Good, Due, Acknowledged, Collected;
    var log := WriteRun(channel, mss, command, script).log;
    ChannelRoundTrip(channel);
    BlocksLawful(0x80, channel, mss, 0, |command| / mss % 256, command, script);
    assert Link(channel, None, log, i);
    if i + 1 < |log| {
      assert Link(channel, None, log, i + 1);
    }
  }
}
