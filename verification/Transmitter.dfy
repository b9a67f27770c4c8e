/**
 * The APDU transport (driver/transmitter.go; SGP.22 section 5.7.2): STORE DATA block chaining and the GET RESPONSE
 * loop, first against any sequence of replies, then against a card.
 */
module Transport {
  import opened Bytes
  import opened Apdu

  /** What `Transmit` brings back: an error, or a response. */
  datatype Reply = Broken | Answer(response: seq<byte>)

  datatype Exchange = Exchange(command: seq<byte>, reply: Reply)

  /** Neither an error nor a status other than 9000 and 61xx. */
  predicate Accepted(reply: Reply) {
    reply.Answer? && (OK(reply.response) || HasMore(reply.response))
  }

  /** The next reply of a script of replies; when it is exhausted the channel is broken. */
  function Next(script: seq<Reply>): Reply {
    if script == [] then Broken else script[0]
  }

  function Rest(script: seq<Reply>): seq<Reply> {
    if script == [] then [] else script[1..]
  }

  /** One run: what was exchanged, the replies left, the response buffer, bytes of the command written, and success. */
  datatype Run = Run(log: seq<Exchange>, script: seq<Reply>, buffer: seq<byte>, n: nat, ok: bool)

  function ResponseRequest(cla: byte, le: byte): Request {
    Request(cla, GET_RESPONSE, 0, 0, [], Some(le))
  }

  function BlockRequest(cla: byte, p2: byte, chunks: byte, data: seq<byte>): Request {
    Request(cla, STORE_DATA, if p2 == chunks then 0x91 else 0x11, p2, data, None)
  }

  /** `before` followed by `after`. */
  function Then(before: Run, after: Run): Run {
    Run(before.log + after.log, after.script, before.buffer + after.buffer, before.n + after.n, after.ok)
  }

  /** One exchange whose data, if it succeeds, goes to the buffer. */
  function Fetch(r: Request, script: seq<Reply>): (run: Run)
    requires r.data == []
    ensures run.ok ==> |run.script| < |script|
  {
    var reply := Next(script);
    var log := [Exchange(MarshalRequest(r).value, reply)];
    if Accepted(reply) then Run(log, Rest(script), Data(reply.response), 0, true)
    else Run(log, Rest(script), [], 0, false)
  }

  /** `readCommandResponse`, the request carrying class `cla` from the previous turn. */
  function GetResponse(cla: byte, channel: byte, le: byte, script: seq<Reply>): Run
    decreases |script|
  {
    var class_ := SetChannel(cla, channel);
    var turn := Fetch(ResponseRequest(class_, le), script);
    if !turn.ok || !HasMore(Next(script).response) then turn
    else Then(turn, GetResponse(class_, channel, SW2(Next(script).response), turn.script))
  }

  /** One turn of the block loop: the block, and the answer to it if one is announced. */
  function SendBlock(channel: byte, r: Request, script: seq<Reply>): Run {
    match MarshalRequest(r)
    case None => Run([], script, [], 0, false)
    case Some(bytes) =>
      var reply := Next(script);
      var log := [Exchange(bytes, reply)];
      if !Accepted(reply) then Run(log, Rest(script), [], 0, false)
      else if !HasMore(reply.response) then Run(log, Rest(script), Data(reply.response), |r.data|, true)
      else
        var more := GetResponse(0x80, channel, SW2(reply.response), Rest(script));
        Run(log + more.log, more.script, more.buffer, |r.data|, more.ok)
  }

  /** The block loop of `Write`, with `command` still to send and the request as the previous turn left it. */
  function Blocks(cla: byte, channel: byte, mss: nat, p2: byte, chunks: byte,
                  command: seq<byte>, script: seq<Reply>): Run
    requires mss > 0
    decreases |command|
  {
    if command == [] then Run([], script, [], 0, true)
    else
      var k := Min(mss, |command|);
      var class_ := SetChannel(cla, channel);
      var one := SendBlock(channel, BlockRequest(class_, p2, chunks, command[..k]), script);
      if !one.ok then one
      else
        var rest := Blocks(class_, channel, mss, (p2 + 1) % 256, chunks, command[k..], one.script);
        Then(one, rest)
  }

  /** `Write`. */
  function WriteRun(channel: byte, mss: nat, command: seq<byte>, script: seq<Reply>): Run
    requires mss > 0
  {
    Blocks(0x80, channel, mss, 0, |command| / mss % 256, command, script)
  }

  /* ---------- how a command is cut ---------- */

  /** `slices.Chunk`. */
  function Chunks(command: seq<byte>, mss: nat): seq<seq<byte>>
    requires mss > 0
  {
    if command == [] then []
    else [command[..Min(mss, |command|)]] + Chunks(command[Min(mss, |command|)..], mss)
  }

  lemma {:induction false} ChunksFlatten(command: seq<byte>, mss: nat)
    requires mss > 0
    ensures Flatten(Chunks(command, mss)) == command
  {
    if command != [] {
      var k := Min(mss, |command|);
      ChunksFlatten(command[k..], mss);
      assert command == command[..k] + command[k..];
    }
  }

  /** All blocks but the last are full, and the last is not empty. */
  predicate BlockSizes(cs: seq<seq<byte>>, mss: nat) {
    forall i :: 0 <= i < |cs| ==> 0 < |cs[i]| <= mss && (i + 1 < |cs| ==> |cs[i]| == mss)
  }

  lemma {:induction false} ChunkSizes(command: seq<byte>, mss: nat)
    requires mss > 0
    ensures BlockSizes(Chunks(command, mss), mss)
  {
    if command != [] {
      var k := Min(mss, |command|);
      var rest := Chunks(command[k..], mss);
      ChunkSizes(command[k..], mss);
      assert k == |command| ==> rest == [];
      forall i | 1 <= i < 1 + |rest| ensures ([command[..k]] + rest)[i] == rest[i - 1] {}
    }
  }

  /** The number of blocks is the length over the block size, rounded up. */
  lemma {:induction false} ChunkCount(command: seq<byte>, mss: nat)
    requires mss > 0
    ensures |command| / mss == |Chunks(command, mss)| - if |command| % mss == 0 then 0 else 1
  {
    if command == [] {
      Quotient(0, mss, 0, 0);
    } else if |command| < mss {
      assert command[|command|..] == [];
      Quotient(|command|, mss, 0, |command|);
    } else {
      var rest := command[mss..];
      ChunkCount(rest, mss);
      QuotientStep(|command|, mss);
    }
  }

  lemma Quotient(n: nat, d: nat, q: nat, r: nat)
    requires d > 0 && n == q * d + r && r < d
    ensures n / d == q && n % d == r
  {
    var q', r' := n / d, n % d;
    assert q' * d + r' == q * d + r;
    MultipleGap(q' - q, d);
    assert (q' - q) * d == q' * d - q * d;
  }

  lemma QuotientStep(n: nat, d: nat)
    requires 0 < d <= n
    ensures n / d == (n - d) / d + 1 && n % d == (n - d) % d
  {
    var q, r := (n - d) / d, (n - d) % d;
    assert (q + 1) * d == q * d + d;
    Quotient(n, d, q + 1, r);
  }

  lemma MultipleGap(x: int, d: int)
    requires d > 0
    ensures x > 0 ==> x * d >= d
    ensures x < 0 ==> x * d + d <= 0
  {
    if x > 0 {
      assert (x - 1) * d >= 0;
    } else if x < 0 {
      assert (-x - 1) * d >= 0;
    }
  }

  /** Block `i` carries the last-block flag: both the block number and the expected count wrap at 256. */
  predicate Flagged(command: seq<byte>, mss: nat, i: nat)
    requires mss > 0
  {
    i % 256 == |command| / mss % 256
  }

  /**
   * Which commands flag exactly their last block: those whose length is not a multiple of the block size and that need
   * at most 256 blocks.
   */
  lemma FlagsExactlyLast(command: seq<byte>, mss: nat)
    requires mss > 0 && command != []
    ensures var c := |Chunks(command, mss)|;
            (forall i :: 0 <= i < c ==> (Flagged(command, mss, i) <==> i == c - 1))
            <==> |command| % mss != 0 && c <= 256
  {
    var c := |Chunks(command, mss)|;
    ChunkCount(command, mss);
    if |command| % mss != 0 {
      if c > 256 {
        assert Flagged(command, mss, c - 257);
      }
    } else {
      assert !Flagged(command, mss, c - 1);
    }
  }

  /** A positive exact multiple of the block size that needs fewer than 256 blocks flags no block at all. */
  lemma ExactMultipleFlagsNone(command: seq<byte>, mss: nat)
    requires mss > 0 && command != [] && |command| % mss == 0
    ensures var c := |Chunks(command, mss)|;
            (forall i :: 0 <= i < c ==> !Flagged(command, mss, i)) <==> c < 256
  {
    var c := |Chunks(command, mss)|;
    ChunkCount(command, mss);
    if c >= 256 {
      assert Flagged(command, mss, c - 256);
    }
  }

  /* ---------- what reaches the card ---------- */

  /** The STORE DATA requests of a log, as the card decodes them. */
  function Stored(log: seq<Exchange>): seq<Request> {
    if log == [] then []
    else
      var r := UnmarshalRequest(log[0].command);
      (if r.Some? && r.value.ins == STORE_DATA then [r.value] else []) + Stored(log[1..])
  }

  lemma {:induction false} StoredConcat(a: seq<Exchange>, b: seq<Exchange>)
    ensures Stored(a + b) == Stored(a) + Stored(b)
  {
    hide UnmarshalRequest;
    if a == [] {
      assert a + b == b;
    } else {
      assert (a + b)[0] == a[0] && (a + b)[1..] == a[1..] + b;
      StoredConcat(a[1..], b);
    }
  }

  lemma StoredOne(r: Request, reply: Reply)
    requires MarshalRequest(r).Some?
    ensures Stored([Exchange(MarshalRequest(r).value, reply)]) == if r.ins == STORE_DATA then [r] else []
  {
    hide MarshalRequest, UnmarshalRequest;
    RequestRoundTrip(r);
    assert [Exchange(MarshalRequest(r).value, reply)][1..] == [];
  }

  lemma {:induction false} GetResponseStoresNothing(cla: byte, channel: byte, le: byte, script: seq<Reply>)
    ensures Stored(GetResponse(cla, channel, le, script).log) == []
    decreases |script|
  {
    var class_ := SetChannel(cla, channel);
    var reply := Next(script);
    StoredOne(ResponseRequest(class_, le), reply);
    if Accepted(reply) && HasMore(reply.response) {
      var rest := GetResponse(class_, channel, SW2(reply.response), Rest(script));
      GetResponseStoresNothing(class_, channel, SW2(reply.response), Rest(script));
      StoredConcat([Exchange(MarshalRequest(ResponseRequest(class_, le)).value, reply)], rest.log);
    }
  }

  /** The requests of the blocks of `command`, numbered from `p2`. */
  function BlockRequests(channel: byte, mss: nat, p2: byte, chunks: byte, command: seq<byte>): seq<Request>
    requires mss > 0
  {
    var cs := Chunks(command, mss);
    seq(|cs|, i requires 0 <= i < |cs| => BlockRequest(ClassByte(channel), (p2 + i) % 256, chunks, cs[i]))
  }

  lemma SendBlockStores(channel: byte, r: Request, script: seq<Reply>)
    requires r.ins == STORE_DATA
    ensures var run := SendBlock(channel, r, script);
            && (Stored(run.log) == [] || Stored(run.log) == [r])
            && (run.ok ==> Stored(run.log) == [r] && run.n == |r.data|)
  {
    hide MarshalRequest, GetResponse;
    var reply := Next(script);
    if MarshalRequest(r).Some? {
      var log := [Exchange(MarshalRequest(r).value, reply)];
      StoredOne(r, reply);
      if Accepted(reply) && HasMore(reply.response) {
        var more := GetResponse(0x80, channel, SW2(reply.response), Rest(script));
        GetResponseStoresNothing(0x80, channel, SW2(reply.response), Rest(script));
        StoredConcat(log, more.log);
      }
    }
  }

  lemma {:induction false} BlocksSend(cla: byte, channel: byte, mss: nat, p2: byte, chunks: byte,
                                      command: seq<byte>, script: seq<Reply>)
    requires mss > 0 && SetChannel(cla, channel) == ClassByte(channel)
    ensures var run := Blocks(cla, channel, mss, p2, chunks, command, script);
            && Stored(run.log) <= BlockRequests(channel, mss, p2, chunks, command)
            && (run.ok ==> Stored(run.log) == BlockRequests(channel, mss, p2, chunks, command) && run.n == |command|)
    decreases |command|
  {
    hide SendBlock, SetChannel, ClassByte;
    if command != [] {
      var k := Min(mss, |command|);
      var r := BlockRequest(ClassByte(channel), p2, chunks, command[..k]);
      var one := SendBlock(channel, r, script);
      ChannelRoundTrip(channel);
      BlockRequestsStep(channel, mss, p2, chunks, command);
      SendBlockStores(channel, r, script);
      if one.ok {
        BlocksSend(ClassByte(channel), channel, mss, (p2 + 1) % 256, chunks, command[k..], one.script);
        StoredConcat(one.log, Blocks(ClassByte(channel), channel, mss, (p2 + 1) % 256, chunks, command[k..], one.script).log);
      }
    }
  }

  lemma BlockRequestsStep(channel: byte, mss: nat, p2: byte, chunks: byte, command: seq<byte>)
    requires mss > 0 && command != []
    ensures var k := Min(mss, |command|);
            BlockRequests(channel, mss, p2, chunks, command) ==
            [BlockRequest(ClassByte(channel), p2, chunks, command[..k])]
            + BlockRequests(channel, mss, (p2 + 1) % 256, chunks, command[k..])
  {
    hide ClassByte;
    var k := Min(mss, |command|);
    var all, rest := BlockRequests(channel, mss, p2, chunks, command), BlockRequests(channel, mss, (p2 + 1) % 256, chunks, command[k..]);
    assert Chunks(command, mss) == [command[..k]] + Chunks(command[k..], mss);
    hide Chunks;
    forall i | 1 <= i < |all| ensures all[i] == rest[i - 1] {
      Wrap256(p2, i);
    }
    assert |all| == 1 + |rest|;
  }

  lemma Wrap256(p2: byte, i: nat)
    requires i > 0
    ensures (p2 + i) % 256 == ((p2 + 1) % 256 + (i - 1)) % 256
  {
  }

  /** The data fields of a list of requests, in a row. */
  function DataFields(requests: seq<Request>): seq<byte> {
    if requests == [] then [] else requests[0].data + DataFields(requests[1..])
  }

  lemma {:induction false} DataFieldsConcat(a: seq<Request>, b: seq<Request>)
    ensures DataFields(a + b) == DataFields(a) + DataFields(b)
  {
    if a == [] {
      assert a + b == b;
    } else {
      assert (a + b)[0] == a[0] && (a + b)[1..] == a[1..] + b;
      DataFieldsConcat(a[1..], b);
    }
  }

  /** The blocks of a command carry the command, whatever their numbering. */
  lemma {:induction false} BlocksCarryCommand(channel: byte, mss: nat, p2: byte, chunks: byte, command: seq<byte>)
    requires mss > 0
    ensures DataFields(BlockRequests(channel, mss, p2, chunks, command)) == command
    decreases |command|
  {
    hide ClassByte;
    if command != [] {
      var k := Min(mss, |command|);
      var rest := BlockRequests(channel, mss, (p2 + 1) % 256, chunks, command[k..]);
      BlockRequestsStep(channel, mss, p2, chunks, command);
      BlocksCarryCommand(channel, mss, (p2 + 1) % 256, chunks, command[k..]);
      var first := BlockRequest(ClassByte(channel), p2, chunks, command[..k]);
      assert ([first] + rest)[1..] == rest;
      assert command == command[..k] + command[k..];
    }
  }

  /**
   * Block chaining, against any replies whatever. What the card gets to see is a prefix of the numbered blocks of the
   * command, all of them on success; block `i` has number `i mod 256`, the class of the channel, and P1 = 0x91 exactly
   * when it is flagged; and the data fields are a prefix of the command, all of it on success.
   */
  lemma BlockChaining(channel: byte, mss: nat, command: seq<byte>, script: seq<Reply>)
    requires mss > 0
    ensures var run := WriteRun(channel, mss, command, script);
            var sent := Stored(run.log);
            var cs := Chunks(command, mss);
            && |sent| <= |cs|
            && (forall i :: 0 <= i < |sent| ==>
                  sent[i] == Request(ClassByte(channel), STORE_DATA, if Flagged(command, mss, i) then 0x91 else 0x11,
                                     i % 256, cs[i], None))
            && DataFields(sent) <= command
            && (run.ok ==> |sent| == |cs| && DataFields(sent) == command && run.n == |command|)
  {
    hide Blocks, SetChannel, ClassByte, Chunks;
    var chunks := |command| / mss % 256;
    var run := WriteRun(channel, mss, command, script);
    var all := BlockRequests(channel, mss, 0, chunks, command);
    ChannelRoundTrip(channel);
    BlocksSend(0x80, channel, mss, 0, chunks, command, script);
    BlocksCarryCommand(channel, mss, 0, chunks, command);
    var sent := Stored(run.log);
    assert all == sent + all[|sent|..];
    DataFieldsConcat(sent, all[|sent|..]);
  }

  /* ---------- the code ---------- */

  /** The smart card channel: replies come from a script, and everything is logged. */
  class Channel {
    var script: seq<Reply>
    var log: seq<Exchange>

    constructor (script: seq<Reply>)
      ensures this.script == script && log == []
    {
      this.script, log := script, [];
    }

    method Transmit(command: seq<byte>) returns (reply: Reply)
      modifies this
      ensures reply == Next(old(script)) && script == Rest(old(script))
      ensures log == old(log) + [Exchange(command, reply)]
    {
      reply, script := Next(script), Rest(script);
      log := log + [Exchange(command, reply)];
    }
  }

  lemma ThenParts(log0: seq<Exchange>, a: Run, b: Run)
    ensures var c := Then(a, b);
            && log0 + c.log == log0 + a.log + b.log && c.buffer == a.buffer + b.buffer
            && c.script == b.script && c.n == a.n + b.n && c.ok == b.ok
  {
    assert log0 + (a.log + b.log) == log0 + a.log + b.log;
  }

  lemma ThenTwice(a: Run, b: Run, c: Run)
    ensures Then(a, Then(b, c)) == Then(Then(a, b), c)
  {
    assert a.log + (b.log + c.log) == a.log + b.log + c.log;
    assert a.buffer + (b.buffer + c.buffer) == a.buffer + b.buffer + c.buffer;
  }

  lemma ThenNothing(script: seq<Reply>, run: Run)
    ensures Then(Run([], script, [], 0, true), run) == run
    ensures run.ok ==> Then(run, Run([], run.script, [], 0, true)) == run
  {
    assert [] + run.log == run.log && [] + run.buffer == run.buffer;
    assert run.log + [] == run.log && run.buffer + [] == run.buffer;
  }

  /** One turn of `readCommandResponse`, as `GetResponse` has it. */
  lemma GetResponseTurn(cla: byte, channel: byte, le: byte, script: seq<Reply>)
    ensures var class_ := SetChannel(cla, channel);
            var turn := Fetch(ResponseRequest(class_, le), script);
            GetResponse(cla, channel, le, script) ==
            if !turn.ok || !HasMore(Next(script).response) then turn
            else Then(turn, GetResponse(class_, channel, SW2(Next(script).response), turn.script))
  {
    hide SetChannel, Then;
  }

  /** One turn of the block loop, as `Blocks` has it. */
  lemma BlocksTurn(cla: byte, channel: byte, mss: nat, p2: byte, chunks: byte, command: seq<byte>, script: seq<Reply>)
    requires mss > 0 && command != []
    ensures var k := Min(mss, |command|);
            var class_ := SetChannel(cla, channel);
            var one := SendBlock(channel, BlockRequest(class_, p2, chunks, command[..k]), script);
            Blocks(cla, channel, mss, p2, chunks, command, script) ==
            if !one.ok then one
            else Then(one, Blocks(class_, channel, mss, (p2 + 1) % 256, chunks, command[k..], one.script))
  {
    hide SetChannel, SendBlock, BlockRequest, Then;
  }

  lemma BlocksEnd(cla: byte, channel: byte, mss: nat, p2: byte, chunks: byte, script: seq<Reply>)
    requires mss > 0
    ensures Blocks(cla, channel, mss, p2, chunks, [], script) == Run([], script, [], 0, true)
  {
  }

  class CardTransmitter {
    const mss: nat
    const logicalChannel: byte
    const channel: Channel
    var response: seq<byte>

    constructor (channel: Channel, logicalChannel: byte, mss: nat)
      ensures this.channel == channel && this.logicalChannel == logicalChannel && this.mss == mss && response == []
    {
      this.channel, this.logicalChannel, this.mss, response := channel, logicalChannel, mss, [];
    }

    /** Everything since the channel had logged `log0` and the buffer held `response0` is `run`. */
    ghost predicate Did(log0: seq<Exchange>, response0: seq<byte>, run: Run)
      reads this, channel
    {
      channel.log == log0 + run.log && channel.script == run.script && response == response0 + run.buffer
    }

    /** `transmit`: the caller's request keeps the class that was set. */
    method Transmit(request: Request) returns (sent: Request, reply: Reply, ok: bool)
      modifies channel
      ensures sent == request.(cla := SetChannel(request.cla, logicalChannel))
      ensures MarshalRequest(sent).None? ==>
                !ok && channel.log == old(channel.log) && channel.script == old(channel.script)
      ensures MarshalRequest(sent).Some? ==>
                && reply == Next(old(channel.script)) && channel.script == Rest(old(channel.script))
                && channel.log == old(channel.log) + [Exchange(MarshalRequest(sent).value, reply)]
                && (ok <==> Accepted(reply))
      ensures ok ==> reply.Answer?
    {
      sent, reply := request.(cla := SetChannel(request.cla, logicalChannel)), Broken;
      var command := MarshalRequest(sent);
      if command.None? {
        return sent, reply, false;
      }
      reply := channel.Transmit(command.value);
      ok := Accepted(reply);
    }

    /** `readCommandResponse`. */
    method ReadCommandResponse(le: byte) returns (ok: bool)
      requires this as object != channel
      modifies channel, `response
      ensures var run := GetResponse(0x80, logicalChannel, le, old(channel.script));
              Did(old(channel.log), old(response), run) && ok == run.ok
    {
      hide SetChannel, Fetch, GetResponse, HasMore, SW2, Then;
      var request := ResponseRequest(0x80, le);
      var reply;
      ghost var all := GetResponse(0x80, logicalChannel, le, channel.script);
      ghost var done := Run([], channel.script, [], 0, true);
      ThenNothing(channel.script, all);
      while true
        invariant request.le.Some? && request == ResponseRequest(request.cla, request.le.value)
        invariant Did(old(channel.log), old(response), done)
        invariant all == Then(done, GetResponse(request.cla, logicalChannel, request.le.value, channel.script))
        decreases |channel.script|
      {
        ghost var turn := Fetch(request.(cla := SetChannel(request.cla, logicalChannel)), channel.script);
        GetResponseTurn(request.cla, logicalChannel, request.le.value, channel.script);
        request, reply, ok := FetchOnce(request);
        ThenParts(old(channel.log), done, turn);
        assert old(response) + (done.buffer + turn.buffer) == old(response) + done.buffer + turn.buffer;
        if !ok || !HasMore(reply.response) {
          assert all == Then(done, turn);
          return;
        }
        request := request.(le := Some(SW2(reply.response)));
        ThenTwice(done, turn, GetResponse(request.cla, logicalChannel, request.le.value, channel.script));
        done := Then(done, turn);
      }
    }

    /** One turn of `readCommandResponse`. */
    method FetchOnce(request: Request) returns (sent: Request, reply: Reply, ok: bool)
      requires this as object != channel && request.data == []
      modifies channel, `response
      ensures sent == request.(cla := SetChannel(request.cla, logicalChannel)) && reply == Next(old(channel.script))
      ensures ok ==> reply.Answer?
      ensures var run := Fetch(sent, old(channel.script)); Did(old(channel.log), old(response), run) && ok == run.ok
    {
      hide SetChannel, MarshalRequest;
      ShortCommand(request.(cla := SetChannel(request.cla, logicalChannel)));
      sent, reply, ok := Transmit(request);
      if ok {
        response := response + Data(reply.response);
      }
    }

    /** `Write`. */
    method Write(command: seq<byte>) returns (n: nat, ok: bool)
      requires mss > 0 && this as object != channel
      modifies channel, `response
      ensures var run := WriteRun(logicalChannel, mss, command, old(channel.script));
              Did(old(channel.log), [], run) && n == run.n && ok == run.ok
    {
      hide SetChannel, SendBlock, Blocks, Then;
      n, ok, response := 0, true, [];
      var chunks: byte := |command| / mss % 256;
      var request := Request(0x80, STORE_DATA, 0, 0, [], None);
      ghost var all := WriteRun(logicalChannel, mss, command, channel.script);
      ghost var done := Run([], channel.script, [], 0, true);
      ThenNothing(channel.script, all);
      var left := command;
      while left != []
        invariant request.ins == STORE_DATA && request.le == None
        invariant ok && done.ok && n == done.n && Did(old(channel.log), [], done)
        invariant all == Then(done, Blocks(request.cla, logicalChannel, mss, request.p2, chunks, left, channel.script))
        decreases |left|
      {
        ghost var p2, from := request.p2, channel.script;
        BlocksTurn(request.cla, logicalChannel, mss, p2, chunks, left, from);
        var k := Min(mss, |left|);
        request := request.(data := left[..k], p1 := if request.p2 == chunks then 0x91 else 0x11);
        n, ok, request := SendOne(request, n);
        assert request == BlockRequest(request.cla, p2, chunks, left[..k]);
        ghost var one := SendBlock(logicalChannel, request, from);
        ThenParts(old(channel.log), done, one);
        if !ok {
          assert all == Then(done, one);
          return;
        }
        request := request.(p2 := (request.p2 + 1) % 256);
        left := left[k..];
        ghost var rest := Blocks(request.cla, logicalChannel, mss, request.p2, chunks, left, channel.script);
        ThenTwice(done, one, rest);
        done := Then(done, one);
      }
      ThenNothing(channel.script, done);
      BlocksEnd(request.cla, logicalChannel, mss, request.p2, chunks, channel.script);
      assert all == done;
    }

    /** The body of the block loop: the block, then the response it announces, if any. */
    method SendOne(request: Request, n0: nat) returns (n: nat, ok: bool, sent: Request)
      requires this as object != channel
      modifies channel, `response
      ensures sent == request.(cla := SetChannel(request.cla, logicalChannel))
      ensures var run := SendBlock(logicalChannel, sent, old(channel.script));
              Did(old(channel.log), old(response), run) && n == n0 + run.n && ok == run.ok
    {
      hide SetChannel, MarshalRequest, GetResponse;
      var reply;
      n := n0;
      sent, reply, ok := Transmit(request);
      if !ok {
        return;
      }
      n := n + |sent.data|;
      if !HasMore(reply.response) {
        response := response + Data(reply.response);
        return;
      }
      ok := ReadCommandResponse(SW2(reply.response));
    }
  }

  lemma ShortCommand(r: Request)
    requires |r.data| <= 255
    ensures MarshalRequest(r).Some?
  {
  }
}
