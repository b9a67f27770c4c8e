/**
 * The profile download session (lpa/download.go) against an arbitrary environment: the context, the user, the card and
 * the SM-DP+ may answer in any way, also with messages that the code cannot read and panics on.
 */
module Download {
  import opened Bytes
  import opened BerTlv
  import opened BoundProfile
  import opened Messages
  import opened Installation
  import Transport

  datatype Stage = AuthenticatingClient | AuthenticatingServer | Installing

  datatype Reason = Postponed | MetadataMismatch | LoadBppExecutionError

  /** What a session does to the outside, in order, and how the steps end that others depend on. */
  datatype Event =
    | Progress(stage: Stage)
    | Authenticated(success: bool)
    | Asked(accepted: bool)
    | CodeEntered(code: string)
    | Prepared(code: string, request: TLV, verdict: Verdict)
    | InstallRun(verdict: Verdict)
    | CancelAttempt(transaction: seq<byte>, reason: Reason)

  /**
   * The reply to ES9+.AuthenticateClient; a TLV that the reply lacks is `Nil`. If it is not `delivered`, only a part of
   * it was decoded.
   */
  datatype Reply = Reply(delivered: bool, header: Option<Header>, transaction: seq<byte>, metadata: TLV,
                         signed2: TLV, signature2: TLV, certificate: TLV)

  /** Everything up to that reply. */
  datatype Initiation = InitiationFailed | InitiationPanicked | Replied(reply: Reply)

  /** What comes back once the PrepareDownload request has been written: an error, or the bound package. */
  datatype Preparation = Refused | Answered(header: Option<Header>, transaction: seq<byte>, bpp: TLV)

  type Positive = n: nat | n > 0 witness 1

  type Digest = d: seq<byte> | |d| == 32 witness seq(32, _ => 0)

  /** The card as `install` finds it: its channel and block size, and the replies it is going to give. */
  datatype Link = Link(channel: byte, mss: Positive, script: seq<Transport.Reply>)

  /**
   * Everything the environment decides: `cancelled` is what the context says at its three polls, `accept` and `entered`
   * what the user answers when asked, `digest` the hash of the confirmation code, `cancel` how a cancellation ends.
   */
  datatype Environment = Environment(
    initiation: Initiation,
    cancelled1: bool, cancelled2: bool, cancelled3: bool,
    accept: bool, entered: string, digest: Digest,
    preparation: Preparation, link: Link, cancel: Verdict)

  /** Which callbacks there are; nil options have none. */
  datatype Options = Options(onProgress: bool, onConfirm: bool, onEnterCode: bool)

  /** The activation code as far as `validate` and the session look at it. */
  datatype Code = Code(host: string, imei: string, confirmation: string)

  predicate ValidCode(ac: Code) {
    ac.host != "" && ac.imei != ""
  }

  datatype Ending = Returned(failed: bool) | Crashed

  /** The trace of a session, the confirmation code it leaves, and how it ends. */
  datatype Session = Session(trace: seq<Event>, confirmation: string, ending: Ending)

  function Report(opts: Options, stage: Stage): seq<Event> {
    if opts.onProgress then [Progress(stage)] else []
  }

  /** After `abort`, which passes the error on whether or not the cancellation works. */
  function Aborted(env: Environment): Ending {
    if env.cancel == Panics then Crashed else Returned(true)
  }

  /** After a `cancelSession` whose error is the result. */
  function Cancelled(env: Environment): Ending {
    if env.cancel == Panics then Crashed else Returned(env.cancel != Succeeds)
  }

  /** `DownloadProfile`. */
  function Run(ac: Code, opts: Options, env: Environment): Session {
    if !ValidCode(ac) then Session([], ac.confirmation, Returned(true))
    else
      var t0 := Report(opts, AuthenticatingClient);
      match env.initiation
      case InitiationFailed => Session(t0 + [Authenticated(false)], ac.confirmation, Returned(true))
      case InitiationPanicked => Session(t0, ac.confirmation, Crashed)
      case Replied(r) => Authenticate(ac, opts, env, r, t0 + [Authenticated(StatusOf(r.header).success)])
  }

  /** `authenticateClient` once there is a reply, and what is done with its error. */
  function Authenticate(ac: Code, opts: Options, env: Environment, r: Reply, t: seq<Event>): Session {
    var status := StatusOf(r.header);
    var mismatch := Session(t + [CancelAttempt(r.transaction, MetadataMismatch)], ac.confirmation, Aborted(env));
    if !status.success then
      Session(t, ac.confirmation, if r.delivered && !status.detailed then Crashed else Returned(true))
    else if !r.delivered then mismatch
    else match ReadMetadata(r.metadata)
      case Panics => Session(t, ac.confirmation, Crashed)
      case Fails => mismatch
      case Succeeds =>
        match CodeRequired(r.signed2)
        case None => Session(t, ac.confirmation, Crashed)
        case Some(required) => Consent(ac, opts, env, r, required, t)
  }

  /** From the first poll of the context to the confirmation code. */
  function Consent(ac: Code, opts: Options, env: Environment, r: Reply, required: bool, t: seq<Event>): Session {
    var asked := if !env.cancelled1 && opts.onConfirm then t + [Asked(env.accept)] else t;
    if env.cancelled1 || (opts.onConfirm && !env.accept) then
      Session(asked + [CancelAttempt(r.transaction, Postponed)], ac.confirmation, Cancelled(env))
    else if required && ac.confirmation == "" then
      var entered := if opts.onEnterCode then env.entered else "";
      var t' := if opts.onEnterCode then asked + [CodeEntered(env.entered)] else asked;
      if entered == "" then Session(t' + [CancelAttempt(r.transaction, Postponed)], entered, Aborted(env))
      else Prepare(opts, env, r, required, entered, t')
    else Prepare(opts, env, r, required, ac.confirmation, asked)
  }

  /** `authenticateServer`: writing the request may panic, and so may reading the header of the reply. */
  function PrepareVerdict(env: Environment, r: Reply, required: bool, code: string): Verdict {
    if required && code == "" then Fails
    else if Marshal(RequestOf(env, r, required)).None? then Panics
    else match env.preparation
      case Refused => Fails
      case Answered(header, _, _) => JudgeHeader(header)
  }

  function RequestOf(env: Environment, r: Reply, required: bool): TLV {
    PrepareRequest(r.signed2, r.signature2, if required then Some(env.digest) else None, r.certificate)
  }

  /** `install` of the bound package over the link. */
  function InstallVerdict(env: Environment): Verdict
    requires env.preparation.Answered?
  {
    match InstallResult(env.preparation.bpp, env.link.channel, env.link.mss, env.link.script)
    case InstallPanic => Panics
    case InstallFailed => Fails
    case Installed(_) => Succeeds
  }

  /** From the third stage to the end. */
  function Finish(opts: Options, env: Environment, code: string, request: TLV, t1: seq<Event>): Session
    requires env.preparation.Answered?
  {
    var t2 := t1 + [Prepared(code, request, Succeeds)] + Report(opts, Installing);
    var server := env.preparation.transaction;
    if env.cancelled3 then Session(t2 + [CancelAttempt(server, Postponed)], code, Cancelled(env))
    else match InstallVerdict(env)
      case Succeeds => Session(t2 + [InstallRun(Succeeds)], code, Returned(false))
      case Fails => Session(t2 + [InstallRun(Fails), CancelAttempt(server, LoadBppExecutionError)], code, Aborted(env))
      case Panics => Session(t2 + [InstallRun(Panics)], code, Crashed)
  }

  /** From the second stage to the end. */
  function Prepare(opts: Options, env: Environment, r: Reply, required: bool, code: string, t: seq<Event>): Session {
    var t1 := t + Report(opts, AuthenticatingServer);
    var request := RequestOf(env, r, required);
    if env.cancelled2 then Session(t1 + [CancelAttempt(r.transaction, Postponed)], code, Cancelled(env))
    else match PrepareVerdict(env, r, required, code)
      case Panics => Session(t1 + [Prepared(code, request, Panics)], code, Crashed)
      case Fails => Session(t1 + [Prepared(code, request, Fails), CancelAttempt(r.transaction, Postponed)], code, Aborted(env))
      case Succeeds => Finish(opts, env, code, request, t1)
  }

  /* ---------- when every message can be read ---------- */

  /** Whether the SM-DP+ said Executed-Success. */
  predicate ExecutedSuccess(env: Environment) {
    env.initiation.Replied? && StatusOf(env.initiation.reply.header).success
  }

  /** The code that the session goes on with: the stored one, or the one the user enters when it is required and missing. */
  function CodeUsed(ac: Code, opts: Options, env: Environment, required: bool): string {
    if required && ac.confirmation == "" then (if opts.onEnterCode then env.entered else "") else ac.confirmation
  }

  /** The session gets to the request of the bound package. */
  predicate ReachesPreparation(ac: Code, opts: Options, env: Environment, required: bool) {
    && !env.cancelled1 && (opts.onConfirm ==> env.accept)
    && (required ==> CodeUsed(ac, opts, env, required) != "")
    && !env.cancelled2
  }

  /** The request can be written, the header of the reply is complete, and so is the answer of the card if it is asked. */
  predicate PreparationHolds(env: Environment, r: Reply, required: bool) {
    && Marshal(RequestOf(env, r, required)).Some?
    && (env.preparation.Answered? ==>
          && JudgeHeader(env.preparation.header) != Panics
          && (JudgeHeader(env.preparation.header) == Succeeds && !env.cancelled3 ==> InstallVerdict(env) != Panics))
  }

  /** No message that the run reaches lacks a field that the code dereferences. */
  predicate MessagesHold(ac: Code, opts: Options, env: Environment)
    requires ExecutedSuccess(env)
  {
    var r := env.initiation.reply;
    r.delivered ==>
      && ReadMetadata(r.metadata) != Panics
      && (ReadMetadata(r.metadata) == Succeeds ==>
            && CodeRequired(r.signed2).Some?
            && var required := CodeRequired(r.signed2).value;
            (ReachesPreparation(ac, opts, env, required) ==> PreparationHolds(env, r, required)))
  }

  /* ---------- what to look for in a trace ---------- */

  function Cancels(trace: seq<Event>): seq<Event> {
    if trace == [] then []
    else (if trace[0].CancelAttempt? then [trace[0]] else []) + Cancels(trace[1..])
  }

  function Stages(trace: seq<Event>): seq<Stage> {
    if trace == [] then []
    else (if trace[0].Progress? then [trace[0].stage] else []) + Stages(trace[1..])
  }

  const ALL_STAGES: seq<Stage> := [AuthenticatingClient, AuthenticatingServer, Installing]

  lemma {:induction false} CancelsConcat(a: seq<Event>, b: seq<Event>)
    ensures Cancels(a + b) == Cancels(a) + Cancels(b)
  {
    if a == [] {
      assert a + b == b;
    } else {
      assert (a + b)[0] == a[0] && (a + b)[1..] == a[1..] + b;
      CancelsConcat(a[1..], b);
    }
  }

  lemma {:induction false} StagesConcat(a: seq<Event>, b: seq<Event>)
    ensures Stages(a + b) == Stages(a) + Stages(b)
  {
    if a == [] {
      assert a + b == b;
    } else {
      assert (a + b)[0] == a[0] && (a + b)[1..] == a[1..] + b;
      StagesConcat(a[1..], b);
    }
  }

  lemma CancelsNone(a: seq<Event>)
    requires forall e :: e in a ==> !e.CancelAttempt?
    ensures Cancels(a) == []
  {
    if a != [] {
      CancelsNone(a[1..]);
    }
  }

  /** `x` occurs in the trace, before the event at `i`. */
  predicate Earlier(trace: seq<Event>, i: nat, x: Event) {
    i < |trace| && x in trace[..i]
  }

  /* ---------- the shape of every run ---------- */

  /**
   * A run that has got past the client: the events up to there, then at most one install, then at most one
   * cancellation, with its transaction and reason; and what led to an install.
   */
  datatype Shape = Shape(before: seq<Event>, installs: seq<Event>, cancels: seq<Event>, transaction: seq<byte>, reason: Reason)

  /** `holds`: every message could be read. */
  predicate HasShape(s: Session, opts: Options, required: bool, holds: bool, p: Shape) {
    && s.trace == p.before + p.installs + p.cancels
    && (forall e :: e in p.before ==> !e.CancelAttempt? && !e.InstallRun?)
    && Authenticated(true) in p.before
    && (p.installs == [] || exists v :: p.installs == [InstallRun(v)])
    && (p.cancels == [] <==> p.installs == [InstallRun(Succeeds)] || !holds)
    && (p.cancels == [] || p.cancels == [CancelAttempt(p.transaction, p.reason)])
    && (p.reason == LoadBppExecutionError <==> p.installs == [InstallRun(Fails)])
    && (!holds ==> s.ending == Crashed && (p.installs == [] || p.installs == [InstallRun(Panics)]))
    && (p.installs == [InstallRun(Panics)] ==> !holds)
    && (p.installs != [] ==>
          && (opts.onConfirm ==> Asked(true) in p.before)
          && BoundFor(p.before, s.confirmation)
          && (required ==> s.confirmation != ""))
  }

  /** The SM-DP+ has bound the package for this confirmation code. */
  predicate BoundFor(t: seq<Event>, code: string) {
    exists e :: e in t && e.Prepared? && e.verdict == Succeeds && e.code == code
  }

  /** The SM-DP+ has bound the package. */
  predicate Bound(t: seq<Event>) {
    exists e :: e in t && e.Prepared? && e.verdict == Succeeds
  }

  /** The transaction of a session is the client's until the SM-DP+ has bound the package, and the server's from then on. */
  predicate NamesTransaction(p: Shape, client: seq<byte>, env: Environment) {
    if Bound(p.before) then env.preparation.Answered? && p.transaction == env.preparation.transaction
    else p.transaction == client
  }

  /** What may stand before an install or a cancellation. */
  predicate Earliest(t: seq<Event>) {
    Authenticated(true) in t && forall e :: e in t ==> !e.CancelAttempt? && !e.InstallRun?
  }

  lemma EarliestThen(t: seq<Event>, e: Event)
    requires Earliest(t) && !e.CancelAttempt? && !e.InstallRun?
    ensures Earliest(t + [e])
  {
  }

  lemma EarliestReport(t: seq<Event>, opts: Options, stage: Stage)
    requires Earliest(t)
    ensures Earliest(t + Report(opts, stage))
  {
  }

  /** A run that ends with a cancellation before any install. */
  lemma CancelShape(t: seq<Event>, code: string, ending: Ending, txn: seq<byte>, reason: Reason, opts: Options,
                    required: bool, holds: bool)
    requires Earliest(t) && holds && reason != LoadBppExecutionError
    ensures HasShape(Session(t + [CancelAttempt(txn, reason)], code, ending), opts, required, holds,
                     Shape(t, [], [CancelAttempt(txn, reason)], txn, reason))
  {
    assert t + [] + [CancelAttempt(txn, reason)] == t + [CancelAttempt(txn, reason)];
  }

  /** A run that panics before any install. */
  lemma CrashShape(t: seq<Event>, code: string, txn: seq<byte>, opts: Options, required: bool, holds: bool)
    requires Earliest(t) && !holds
    ensures HasShape(Session(t, code, Crashed), opts, required, holds, Shape(t, [], [], txn, Postponed))
  {
    assert t + [] + [] == t;
  }

  /** A run that ends with an install, or with an install and its cancellation. */
  function InstallShape(t: seq<Event>, v: Verdict, txn: seq<byte>): Shape {
    if v == Fails then
      Shape(t, [InstallRun(v)], [CancelAttempt(txn, LoadBppExecutionError)], txn, LoadBppExecutionError)
    else Shape(t, [InstallRun(v)], [], txn, Postponed)
  }

  lemma InstallHasShape(t: seq<Event>, code: string, v: Verdict, ending: Ending, txn: seq<byte>, opts: Options,
                        required: bool, holds: bool)
    requires Earliest(t) && (opts.onConfirm ==> Asked(true) in t) && BoundFor(t, code)
    requires (required ==> code != "") && (holds <==> v != Panics) && (v == Panics ==> ending == Crashed)
    ensures var p := InstallShape(t, v, txn);
            HasShape(Session(p.before + p.installs + p.cancels, code, ending), opts, required, holds, p)
  {
  }

  lemma PrepareShape(opts: Options, env: Environment, r: Reply, required: bool, code: string, t: seq<Event>)
    returns (p: Shape)
    requires Earliest(t) && forall e :: e in t ==> !e.Prepared?
    requires (opts.onConfirm ==> Asked(true) in t) && (required ==> code != "")
    ensures HasShape(Prepare(opts, env, r, required, code, t), opts, required,
                     !env.cancelled2 ==> PreparationHolds(env, r, required), p)
    ensures p.reason != MetadataMismatch && NamesTransaction(p, r.transaction, env)
  {
    hide JudgeHeader, InstallVerdict, RequestOf, Marshal, HasShape, Earliest, PreparationHolds,
      PrepareVerdict, Cancelled, Aborted;
    var holds := !env.cancelled2 ==> PreparationHolds(env, r, required);
    var t1 := t + Report(opts, AuthenticatingServer);
    EarliestReport(t, opts, AuthenticatingServer);
    assert !Bound(t1);
    var v := PrepareVerdict(env, r, required, code);
    PreparationJudged(env, r, required, code);
    if env.cancelled2 {
      CancelShape(t1, code, Cancelled(env), r.transaction, Postponed, opts, required, holds);
      p := Shape(t1, [], [CancelAttempt(r.transaction, Postponed)], r.transaction, Postponed);
    } else if v != Succeeds {
      var prepared := Prepared(code, RequestOf(env, r, required), v);
      var t2 := t1 + [prepared];
      EarliestThen(t1, prepared);
      assert !Bound(t2);
      if v == Panics {
        CrashShape(t2, code, r.transaction, opts, required, holds);
        p := Shape(t2, [], [], r.transaction, Postponed);
      } else {
        CancelShape(t2, code, Aborted(env), r.transaction, Postponed, opts, required, holds);
        p := Shape(t2, [], [CancelAttempt(r.transaction, Postponed)], r.transaction, Postponed);
        assert t2 + [CancelAttempt(r.transaction, Postponed)]
            == t1 + [prepared, CancelAttempt(r.transaction, Postponed)];
      }
    } else {
      p := BoundShape(opts, env, required, code, RequestOf(env, r, required), t1, holds);
    }
  }

  lemma BoundShape(opts: Options, env: Environment, required: bool, code: string, request: TLV, t1: seq<Event>, holds: bool)
    returns (p: Shape)
    requires env.preparation.Answered? && Earliest(t1)
    requires (opts.onConfirm ==> Asked(true) in t1) && (required ==> code != "")
    requires holds <==> (!env.cancelled3 ==> InstallVerdict(env) != Panics)
    ensures HasShape(Finish(opts, env, code, request, t1), opts, required, holds, p)
    ensures p.reason != MetadataMismatch && Bound(p.before) && p.transaction == env.preparation.transaction
  {
    hide HasShape, Earliest, InstallVerdict, Cancelled, Aborted;
    var server := env.preparation.transaction;
    var prepared := Prepared(code, request, Succeeds);
    var bound := t1 + [prepared];
    var t2 := bound + Report(opts, Installing);
    EarliestThen(t1, prepared);
    EarliestReport(bound, opts, Installing);
    assert bound[|t1|] == prepared && t2[|t1|] == prepared;
    if env.cancelled3 {
      CancelShape(t2, code, Cancelled(env), server, Postponed, opts, required, holds);
      p := Shape(t2, [], [CancelAttempt(server, Postponed)], server, Postponed);
    } else {
      var v := InstallVerdict(env);
      var ending := match v case Succeeds => Returned(false) case Fails => Aborted(env) case Panics => Crashed;
      p := InstallShape(t2, v, server);
      InstallHasShape(t2, code, v, ending, server, opts, required, holds);
      var failure := [InstallRun(Fails), CancelAttempt(server, LoadBppExecutionError)];
      assert t2 + [InstallRun(Fails)] + [CancelAttempt(server, LoadBppExecutionError)] == t2 + failure;
      assert t2 + [InstallRun(v)] + [] == t2 + [InstallRun(v)];
    }
  }

  lemma PreparationJudged(env: Environment, r: Reply, required: bool, code: string)
    requires required ==> code != ""
    ensures var v := PrepareVerdict(env, r, required, code);
            && (v == Succeeds ==> env.preparation.Answered?)
            && (PreparationHolds(env, r, required) <==>
                v != Panics && (v == Succeeds && !env.cancelled3 ==> InstallVerdict(env) != Panics))
  {
    hide JudgeHeader, InstallVerdict, RequestOf, Marshal;
  }

  lemma ConsentShape(ac: Code, opts: Options, env: Environment, r: Reply, required: bool, t: seq<Event>)
    returns (p: Shape)
    requires Earliest(t) && forall e :: e in t ==> !e.Prepared?
    ensures HasShape(Consent(ac, opts, env, r, required, t), opts, required,
                     ReachesPreparation(ac, opts, env, required) ==> PreparationHolds(env, r, required), p)
    ensures p.reason != MetadataMismatch && NamesTransaction(p, r.transaction, env)
  {
    hide Prepare, PreparationHolds, HasShape, Earliest, Cancelled, Aborted;
    var holds := ReachesPreparation(ac, opts, env, required) ==> PreparationHolds(env, r, required);
    var asked := if !env.cancelled1 && opts.onConfirm then t + [Asked(env.accept)] else t;
    EarliestThen(t, Asked(env.accept));
    assert !Bound(asked);
    if env.cancelled1 || (opts.onConfirm && !env.accept) {
      CancelShape(asked, ac.confirmation, Cancelled(env), r.transaction, Postponed, opts, required, holds);
      p := Shape(asked, [], [CancelAttempt(r.transaction, Postponed)], r.transaction, Postponed);
    } else {
      var entered := if opts.onEnterCode then env.entered else "";
      var t' := if opts.onEnterCode then asked + [CodeEntered(env.entered)] else asked;
      EarliestThen(asked, CodeEntered(env.entered));
      assert !Bound(t');
      if !required || ac.confirmation != "" {
        p := PrepareShape(opts, env, r, required, ac.confirmation, asked);
      } else if entered == "" {
        CancelShape(t', entered, Aborted(env), r.transaction, Postponed, opts, required, holds);
        p := Shape(t', [], [CancelAttempt(r.transaction, Postponed)], r.transaction, Postponed);
      } else {
        p := PrepareShape(opts, env, r, required, entered, t');
      }
    }
  }

  /** The authentication step itself failed, after the SM-DP+ had reported Executed-Success. */
  predicate AuthenticationFails(env: Environment)
    requires ExecutedSuccess(env)
  {
    !env.initiation.reply.delivered || ReadMetadata(env.initiation.reply.metadata) == Fails
  }

  predicate RequiresCode(env: Environment) {
    && env.initiation.Replied?
    && CodeRequired(env.initiation.reply.signed2) == Some(true)
  }

  lemma RunShape(ac: Code, opts: Options, env: Environment) returns (p: Shape)
    requires ValidCode(ac) && ExecutedSuccess(env)
    ensures HasShape(Run(ac, opts, env), opts, RequiresCode(env), MessagesHold(ac, opts, env), p)
    ensures p.reason == MetadataMismatch <==> AuthenticationFails(env)
    ensures NamesTransaction(p, env.initiation.reply.transaction, env)
  {
    hide Consent, PreparationHolds, ReadMetadata, CodeRequired, HasShape, Earliest, Aborted,
      ReachesPreparation;
    var r := env.initiation.reply;
    var t := Report(opts, AuthenticatingClient) + [Authenticated(true)];
    EarliestStart(opts);
    assert !Bound(t);
    var holds := MessagesHold(ac, opts, env);
    if AuthenticationFails(env) {
      CancelShape(t, ac.confirmation, Aborted(env), r.transaction, MetadataMismatch, opts, RequiresCode(env), holds);
      p := Shape(t, [], [CancelAttempt(r.transaction, MetadataMismatch)], r.transaction, MetadataMismatch);
    } else if ReadMetadata(r.metadata) == Panics || CodeRequired(r.signed2).None? {
      CrashShape(t, ac.confirmation, r.transaction, opts, RequiresCode(env), holds);
      p := Shape(t, [], [], r.transaction, Postponed);
    } else {
      p := ConsentShape(ac, opts, env, r, CodeRequired(r.signed2).value, t);
    }
  }

  lemma EarliestStart(opts: Options)
    ensures Earliest(Report(opts, AuthenticatingClient) + [Authenticated(true)])
  {
    var t := Report(opts, AuthenticatingClient) + [Authenticated(true)];
    assert t[|t| - 1] == Authenticated(true);
  }

  /** A successful install and no cancellation, or exactly one cancellation, at the end. */
  predicate EndsProperly(t: seq<Event>) {
    && t != []
    && var last := t[|t| - 1];
    if InstallRun(Succeeds) in t then last == InstallRun(Succeeds) && Cancels(t) == []
    else last.CancelAttempt? && Cancels(t) == [last]
  }

  /**
   * How a session ends. Once AuthenticateClient has reported Executed-Success, the run ends with a successful install and
   * no cancellation, or with exactly one cancellation, if and only if every message that it reaches can be read;
   * otherwise it panics, with neither. Without Executed-Success nothing is installed or cancelled.
   */
  lemma EndsOnce(ac: Code, opts: Options, env: Environment)
    ensures var s := Run(ac, opts, env);
            if ValidCode(ac) && ExecutedSuccess(env) then
              && (EndsProperly(s.trace) <==> MessagesHold(ac, opts, env))
              && (!EndsProperly(s.trace) ==> s.ending == Crashed && Cancels(s.trace) == [] && InstallRun(Succeeds) !in s.trace)
            else
              && s.ending != Returned(false)
              && forall e :: e in s.trace ==> !e.CancelAttempt? && !e.InstallRun? && !e.Asked? && !e.Prepared?
  {
    if ValidCode(ac) && ExecutedSuccess(env) {
      hide Run, MessagesHold;
      var p := RunShape(ac, opts, env);
      ShapeEnds(Run(ac, opts, env), opts, RequiresCode(env), MessagesHold(ac, opts, env), p);
    }
  }

  lemma ShapeEnds(s: Session, opts: Options, required: bool, holds: bool, p: Shape)
    requires HasShape(s, opts, required, holds, p)
    ensures EndsProperly(s.trace) <==> holds
    ensures !holds ==> s.ending == Crashed && Cancels(s.trace) == [] && InstallRun(Succeeds) !in s.trace
  {
    var init := p.before + p.installs;
    CancelsNone(init);
    if p.cancels == [] {
      assert s.trace == init;
      if holds { assert init[|init| - 1] == InstallRun(Succeeds); }
    } else {
      var c := p.cancels[0];
      assert s.trace == init + [c];
      assert InstallRun(Succeeds) !in init;
      CancelsConcat(init, [c]);
      assert Cancels([c][1..]) == [];
    }
  }

  /**
   * Install is reached only after authentication, after the user's acceptance if there is a way to ask, and after the
   * SM-DP+ bound the package for the confirmation code, which is not empty if it is required; and it is reached at most once.
   */
  lemma InstallNeedsConsent(ac: Code, opts: Options, env: Environment, i: nat)
    requires i < |Run(ac, opts, env).trace| && Run(ac, opts, env).trace[i].InstallRun?
    ensures var s := Run(ac, opts, env);
            && Earlier(s.trace, i, Authenticated(true))
            && (opts.onConfirm ==> Earlier(s.trace, i, Asked(true)))
            && BoundFor(s.trace[..i], s.confirmation)
            && (RequiresCode(env) ==> s.confirmation != "")
            && (forall j :: 0 <= j < |s.trace| && s.trace[j].InstallRun? ==> j == i)
  {
    hide Run, MessagesHold, RequiresCode, Authenticate;
    var s := Run(ac, opts, env);
    EndsOnce(ac, opts, env);
    assert s.trace[i] in s.trace;
    var p := RunShape(ac, opts, env);
    InstallPosition(s, opts, RequiresCode(env), MessagesHold(ac, opts, env), p);
    assert s.trace[..i] == p.before;
  }

  /** An install can only stand where the shape has it. */
  lemma InstallPosition(s: Session, opts: Options, required: bool, holds: bool, p: Shape)
    requires HasShape(s, opts, required, holds, p)
    ensures |p.before| <= |s.trace|
    ensures forall j :: 0 <= j < |s.trace| && s.trace[j].InstallRun? ==> j == |p.before|
  {
    forall j | 0 <= j < |s.trace| && j != |p.before| ensures !s.trace[j].InstallRun? {
      if j < |p.before| {
        assert s.trace[j] == p.before[j];
      } else {
        assert s.trace[j] == (p.installs + p.cancels)[j - |p.before|];
      }
    }
  }

  /* ---------- progress ---------- */

  lemma StagesSnoc(t: seq<Event>, e: Event)
    ensures Stages(t + [e]) == Stages(t) + if e.Progress? then [e.stage] else []
  {
    StagesConcat(t, [e]);
    assert Stages([e][1..]) == [];
  }

  lemma StagesReport(t: seq<Event>, opts: Options, stage: Stage)
    ensures Stages(t + Report(opts, stage)) == Stages(t) + if opts.onProgress then [stage] else []
  {
    if opts.onProgress {
      StagesSnoc(t, Progress(stage));
    } else {
      assert t + [] == t;
    }
  }

  /** The first `k` stages, if there is anyone to report them to. */
  function FirstStages(opts: Options, k: nat): seq<Stage>
    requires k <= 3
  {
    if opts.onProgress then ALL_STAGES[..k] else []
  }

  /** The first `k` stages were reported, and unless it was all three nothing was installed. */
  predicate Reached(t: seq<Event>, opts: Options, k: nat)
    requires k <= 3
  {
    Stages(t) == FirstStages(opts, k) && (k < 3 ==> forall e :: e in t ==> !e.InstallRun?)
  }

  lemma ReachedSnoc(t: seq<Event>, e: Event, opts: Options, k: nat)
    requires k <= 3 && Reached(t, opts, k) && !e.Progress? && (k < 3 ==> !e.InstallRun?)
    ensures Reached(t + [e], opts, k)
  {
    StagesSnoc(t, e);
    assert Stages(t) + [] == Stages(t);
  }

  lemma ReachedReport(t: seq<Event>, opts: Options, k: nat)
    requires k < 3 && Reached(t, opts, k)
    ensures Reached(t + Report(opts, ALL_STAGES[k]), opts, k + 1)
  {
    StagesReport(t, opts, ALL_STAGES[k]);
    assert ALL_STAGES[..k] + [ALL_STAGES[k]] == ALL_STAGES[..k + 1];
  }

  lemma ReachedTwo(t: seq<Event>, a: Event, b: Event, opts: Options, k: nat)
    requires k <= 3 && Reached(t, opts, k) && !a.Progress? && !b.Progress? && (k < 3 ==> !a.InstallRun? && !b.InstallRun?)
    ensures Reached(t + [a, b], opts, k)
  {
    hide Reached;
    ReachedSnoc(t, a, opts, k);
    ReachedSnoc(t + [a], b, opts, k);
    assert t + [a] + [b] == t + [a, b];
  }

  lemma PrepareStages(opts: Options, env: Environment, r: Reply, required: bool, code: string, t: seq<Event>)
    returns (k: nat)
    requires Reached(t, opts, 1)
    ensures 2 <= k <= 3 && Reached(Prepare(opts, env, r, required, code, t).trace, opts, k)
  {
    hide Reached, PrepareVerdict, InstallVerdict;
    var t1 := t + Report(opts, AuthenticatingServer);
    ReachedReport(t, opts, 1);
    var v := PrepareVerdict(env, r, required, code);
    var request := RequestOf(env, r, required);
    k := 2;
    if env.cancelled2 {
      ReachedSnoc(t1, CancelAttempt(r.transaction, Postponed), opts, 2);
    } else if v == Panics {
      ReachedSnoc(t1, Prepared(code, request, Panics), opts, 2);
    } else if v == Fails {
      ReachedTwo(t1, Prepared(code, request, Fails), CancelAttempt(r.transaction, Postponed), opts, 2);
    } else {
      assert env.preparation.Answered? by { SucceedsAnswered(env, r, required, code); }
      var server := env.preparation.transaction;
      ReachedSnoc(t1, Prepared(code, request, Succeeds), opts, 2);
      ReachedReport(t1 + [Prepared(code, request, Succeeds)], opts, 2);
      var t2 := t1 + [Prepared(code, request, Succeeds)] + Report(opts, Installing);
      k := 3;
      if env.cancelled3 {
        ReachedSnoc(t2, CancelAttempt(server, Postponed), opts, 3);
      } else if InstallVerdict(env) == Fails {
        ReachedTwo(t2, InstallRun(Fails), CancelAttempt(server, LoadBppExecutionError), opts, 3);
      } else {
        ReachedSnoc(t2, InstallRun(InstallVerdict(env)), opts, 3);
      }
    }
  }

  lemma SucceedsAnswered(env: Environment, r: Reply, required: bool, code: string)
    requires PrepareVerdict(env, r, required, code) == Succeeds
    ensures env.preparation.Answered?
  {
  }

  lemma ConsentStages(ac: Code, opts: Options, env: Environment, r: Reply, required: bool, t: seq<Event>)
    returns (k: nat)
    requires Reached(t, opts, 1)
    ensures 1 <= k <= 3 && Reached(Consent(ac, opts, env, r, required, t).trace, opts, k)
  {
    hide Reached, Prepare;
    var asked := if !env.cancelled1 && opts.onConfirm then t + [Asked(env.accept)] else t;
    ReachedSnoc(t, Asked(env.accept), opts, 1);
    k := 1;
    if env.cancelled1 || (opts.onConfirm && !env.accept) {
      ReachedSnoc(asked, CancelAttempt(r.transaction, Postponed), opts, 1);
    } else if required && ac.confirmation == "" {
      var entered := if opts.onEnterCode then env.entered else "";
      var t' := if opts.onEnterCode then asked + [CodeEntered(env.entered)] else asked;
      ReachedSnoc(asked, CodeEntered(env.entered), opts, 1);
      if entered == "" {
        ReachedSnoc(t', CancelAttempt(r.transaction, Postponed), opts, 1);
      } else {
        k := PrepareStages(opts, env, r, required, entered, t');
      }
    } else {
      k := PrepareStages(opts, env, r, required, ac.confirmation, asked);
    }
  }

  lemma RunStages(ac: Code, opts: Options, env: Environment) returns (k: nat)
    ensures k <= 3 && Reached(Run(ac, opts, env).trace, opts, k)
  {
    hide Reached, Consent, ReadMetadata, CodeRequired;
    NothingReached(opts);
    k := 0;
    if ValidCode(ac) {
      var t0 := Report(opts, AuthenticatingClient);
      ReachedReport([], opts, 0);
      assert [] + t0 == t0;
      k := 1;
      match env.initiation
      case InitiationFailed => ReachedSnoc(t0, Authenticated(false), opts, 1);
      case InitiationPanicked =>
      case Replied(r) =>
        var t := t0 + [Authenticated(StatusOf(r.header).success)];
        ReachedSnoc(t0, Authenticated(StatusOf(r.header).success), opts, 1);
        ReachedSnoc(t, CancelAttempt(r.transaction, MetadataMismatch), opts, 1);
        if StatusOf(r.header).success && r.delivered && ReadMetadata(r.metadata) == Succeeds && CodeRequired(r.signed2).Some? {
          k := ConsentStages(ac, opts, env, r, CodeRequired(r.signed2).value, t);
        }
    }
  }

  lemma NothingReached(opts: Options)
    ensures Reached([], opts, 0)
  {
  }

  /** The stages that are reported form a prefix of the three, and all three are reported before an install. */
  lemma ProgressIsPrefix(ac: Code, opts: Options, env: Environment)
    ensures var s := Run(ac, opts, env);
            && Stages(s.trace) <= ALL_STAGES
            && (!opts.onProgress ==> Stages(s.trace) == [])
            && (opts.onProgress && (exists e :: e in s.trace && e.InstallRun?) ==> Stages(s.trace) == ALL_STAGES)
  {
    hide Run, Stages;
    var k := RunStages(ac, opts, env);
    assert ALL_STAGES[..3] == ALL_STAGES;
  }

  /* ---------- what a cancellation says, and what the caller learns ---------- */

  /**
   * The cancellation names the client's transaction until the SM-DP+ has bound the package, and the server's from then
   * on; it reports a load error exactly after a failed install, and a metadata mismatch exactly when the authentication
   * step itself failed.
   */
  lemma CancelNamesTransaction(ac: Code, opts: Options, env: Environment, txn: seq<byte>, reason: Reason)
    requires CancelAttempt(txn, reason) in Run(ac, opts, env).trace
    ensures var t := Run(ac, opts, env).trace;
            && ExecutedSuccess(env)
            && (reason == LoadBppExecutionError <==> InstallRun(Fails) in t)
            && (reason == MetadataMismatch <==> AuthenticationFails(env))
            && if Bound(t) then env.preparation.Answered? && txn == env.preparation.transaction
               else txn == env.initiation.reply.transaction
  {
    hide Run, MessagesHold, RequiresCode, Authenticate;
    EndsOnce(ac, opts, env);
    var p := RunShape(ac, opts, env);
    var t := Run(ac, opts, env).trace;
    assert forall e :: e in t <==> e in p.before || e in p.installs || e in p.cancels;
  }

  /** The user or the context declined, and the SM-DP+ was told so. */
  predicate Declined(env: Environment, trace: seq<Event>) {
    env.cancel == Succeeds && (env.cancelled1 || env.cancelled2 || env.cancelled3 || Asked(false) in trace)
  }

  /** What a session tells its caller. */
  predicate Honest(env: Environment, s: Session) {
    && (InstallRun(Succeeds) in s.trace ==> s.ending == Returned(false))
    && (s.ending == Returned(false) ==> InstallRun(Succeeds) in s.trace || Declined(env, s.trace))
  }

  lemma PrepareHonest(opts: Options, env: Environment, r: Reply, required: bool, code: string, t: seq<Event>)
    requires InstallRun(Succeeds) !in t
    ensures Honest(env, Prepare(opts, env, r, required, code, t))
  {
    hide PrepareVerdict, InstallVerdict;
    if PrepareVerdict(env, r, required, code) == Succeeds { SucceedsAnswered(env, r, required, code); }
  }

  lemma ConsentHonest(ac: Code, opts: Options, env: Environment, r: Reply, required: bool, t: seq<Event>)
    requires InstallRun(Succeeds) !in t
    ensures Honest(env, Consent(ac, opts, env, r, required, t))
  {
    hide Prepare;
    var asked := if !env.cancelled1 && opts.onConfirm then t + [Asked(env.accept)] else t;
    PrepareHonest(opts, env, r, required, ac.confirmation, asked);
    PrepareHonest(opts, env, r, required, env.entered, asked + [CodeEntered(env.entered)]);
  }

  /**
   * An installed profile is never reported as an error; and without an error either it was installed, or the user or
   * the context declined and the cancellation went through.
   */
  lemma ErrorMeansNotInstalled(ac: Code, opts: Options, env: Environment)
    ensures var s := Run(ac, opts, env);
            && (InstallRun(Succeeds) in s.trace ==> s.ending == Returned(false))
            && (s.ending == Returned(false) ==> InstallRun(Succeeds) in s.trace || Declined(env, s.trace))
  {
    hide Consent, ReadMetadata, CodeRequired;
    if ValidCode(ac) && ExecutedSuccess(env) && CodeRequired(env.initiation.reply.signed2).Some? {
      var r := env.initiation.reply;
      ConsentHonest(ac, opts, env, r, CodeRequired(r.signed2).value, Report(opts, AuthenticatingClient) + [Authenticated(true)]);
    }
  }

  /** The stored confirmation code changes only to what the user entered, and only if a code was required and missing. */
  lemma CodeChangesOnlyOnRequest(ac: Code, opts: Options, env: Environment)
    ensures var s := Run(ac, opts, env);
            s.confirmation != ac.confirmation ==>
              && RequiresCode(env) && ac.confirmation == ""
              && CodeEntered(s.confirmation) in s.trace
  {
    hide PrepareVerdict, InstallVerdict, ReadMetadata, CodeRequired;
  }

  /* ---------- the code ---------- */

  /** The client's view of one session: its card, its activation code, and what it did to the outside. */
  class Client {
    const card: Transport.CardTransmitter
    var confirmation: string
    var trace: seq<Event>

    constructor (card: Transport.CardTransmitter, confirmation: string)
      ensures this.card == card && this.confirmation == confirmation && trace == []
    {
      this.card, this.confirmation, trace := card, confirmation, [];
    }

    /** The link of an environment is the card's, with the replies it is still going to give. */
    ghost predicate OnCard(env: Environment)
      reads card.channel
    {
      && card as object != card.channel && card.mss > 0
      && env.link == Link(card.logicalChannel, card.mss, card.channel.script)
    }

    method Log(e: Event)
      modifies `trace
      ensures trace == old(trace) + [e]
    {
      trace := trace + [e];
    }

    method OnProgress(opts: Options, stage: Stage)
      modifies `trace
      ensures trace == old(trace) + Report(opts, stage)
    {
      if opts.onProgress {
        Log(Progress(stage));
      }
    }

    /** A cancellation whose error is the result. */
    method CancelSession(env: Environment, transaction: seq<byte>) returns (ending: Ending)
      modifies `trace
      ensures trace == old(trace) + [CancelAttempt(transaction, Postponed)] && ending == Cancelled(env)
    {
      Log(CancelAttempt(transaction, Postponed));
      ending := if env.cancel == Panics then Crashed else Returned(env.cancel != Succeeds);
    }

    /** `abort`. */
    method Abort(env: Environment, transaction: seq<byte>, reason: Reason) returns (ending: Ending)
      modifies `trace
      ensures trace == old(trace) + [CancelAttempt(transaction, reason)] && ending == Aborted(env)
    {
      Log(CancelAttempt(transaction, reason));
      ending := if env.cancel == Panics then Crashed else Returned(true);
    }

    /** `DownloadProfile`. */
    method DownloadProfile(host: string, imei: string, opts: Options, env: Environment) returns (ending: Ending)
      requires trace == [] && OnCard(env)
      modifies this, card, card.channel
      ensures Session(trace, confirmation, ending) == Run(Code(host, imei, old(confirmation)), opts, env)
    {
      hide Consent, Cancelled, Aborted, ReadMetadata, CodeRequired;
      if host == "" || imei == "" {
        return Returned(true);
      }
      OnProgress(opts, AuthenticatingClient);
      assert trace == Report(opts, AuthenticatingClient);
      if env.initiation.InitiationPanicked? {
        return Crashed;
      }
      if env.initiation.InitiationFailed? {
        Log(Authenticated(false));
        return Returned(true);
      }
      var r := env.initiation.reply;
      var status := StatusOf(r.header);
      Log(Authenticated(status.success));
      if r.delivered && !status.success && !status.detailed {
        return Crashed;
      }
      var ok := r.delivered && status.success;
      if ok {
        var metadata := ReadMetadata(r.metadata);
        if metadata == Panics {
          return Crashed;
        }
        ok := metadata == Succeeds;
      }
      if !ok {
        if status.success {
          ending := Abort(env, r.transaction, MetadataMismatch);
          return;
        }
        return Returned(true);
      }
      var required := CodeRequired(r.signed2);
      if required.None? {
        return Crashed;
      }
      ending := AskAndContinue(Code(host, imei, confirmation), opts, env, r, required.value);
    }

    /** `DownloadProfile` from the first poll of the context on. */
    method AskAndContinue(ghost ac: Code, opts: Options, env: Environment, r: Reply, required: bool)
      returns (ending: Ending)
      requires ac.confirmation == confirmation && OnCard(env)
      modifies this, card, card.channel
      ensures Session(trace, confirmation, ending) == Consent(ac, opts, env, r, required, old(trace))
    {
      hide Prepare, Cancelled, Aborted;
      var declined := env.cancelled1;
      if !declined && opts.onConfirm {
        Log(Asked(env.accept));
        declined := !env.accept;
      }
      if declined {
        ending := CancelSession(env, r.transaction);
        return;
      }
      if required && confirmation == "" {
        if opts.onEnterCode {
          Log(CodeEntered(env.entered));
          confirmation := env.entered;
        }
        if confirmation == "" {
          ending := Abort(env, r.transaction, Postponed);
          return;
        }
      }
      ending := BindAndInstall(opts, env, r, required);
    }

    /** `authenticateServer`. */
    method AuthenticateServer(env: Environment, r: Reply, required: bool) returns (request: TLV, verdict: Verdict)
      ensures request == RequestOf(env, r, required) && verdict == PrepareVerdict(env, r, required, confirmation)
    {
      hide Marshal, PrepareRequest;
      request := RequestOf(env, r, required);
      if required && confirmation == "" {
        return request, Fails;
      }
      var bytes := BytesOf(request);
      if bytes.None? {
        return request, Panics;
      }
      verdict := if env.preparation.Refused? then Fails else JudgeHeader(env.preparation.header);
    }

    /** The rest of `DownloadProfile`, from the second stage on. */
    method BindAndInstall(opts: Options, env: Environment, r: Reply, required: bool) returns (ending: Ending)
      requires OnCard(env)
      modifies `trace, card, card.channel
      ensures Session(trace, confirmation, ending) == Prepare(opts, env, r, required, confirmation, old(trace))
    {
      hide PrepareVerdict, Cancelled, Aborted, InstallResult;
      OnProgress(opts, AuthenticatingServer);
      if env.cancelled2 {
        ending := CancelSession(env, r.transaction);
        return;
      }
      ghost var t1 := trace;
      var request, verdict := AuthenticateServer(env, r, required);
      Log(Prepared(confirmation, request, verdict));
      if verdict == Panics {
        return Crashed;
      }
      if verdict == Fails {
        ending := Abort(env, r.transaction, Postponed);
        assert trace == t1 + [Prepared(confirmation, request, Fails), CancelAttempt(r.transaction, Postponed)];
        return;
      }
      SucceedsAnswered(env, r, required, confirmation);
      var server := env.preparation.transaction;
      OnProgress(opts, Installing);
      if env.cancelled3 {
        ending := CancelSession(env, server);
        return;
      }
      ghost var t2 := trace;
      var outcome := Install(card, env.preparation.bpp);
      if outcome.InstallPanic? {
        Log(InstallRun(Panics));
        return Crashed;
      }
      if outcome.InstallFailed? {
        Log(InstallRun(Fails));
        ending := Abort(env, server, LoadBppExecutionError);
        assert trace == t2 + [InstallRun(Fails), CancelAttempt(server, LoadBppExecutionError)];
        return;
      }
      Log(InstallRun(Succeeds));
      ending := Returned(false);
    }
  }
}
