/**
 * A download session (lpa/download.go) at a glance: the events of its trace one after the other, each with the condition
 * on the environment under which it occurs, how the session ends, and what a required confirmation code brings about.
 */
module SessionLaws {
  import opened Bytes
  import opened BerTlv
  import opened Messages
  import opened MessageLaws
  import opened Installation
  import opened Download

  /* ---------- conditions on the environment ---------- */

  /** The SM-DP+ said Executed-Success. */
  predicate Executed(env: Environment) {
    && env.initiation.Replied?
    && var header := env.initiation.reply.header;
    header.Some? && header.value.Some? && header.value.value.success
  }

  /** The client is authenticated, the metadata can be read, and so can the requirement of a code. */
  predicate Authentic(ac: Code, env: Environment) {
    && ac.host != "" && ac.imei != ""
    && Executed(env)
    && var r := env.initiation.reply;
    r.delivered && ReadMetadata(r.metadata) == Succeeds && CodeRequired(r.signed2).Some?
  }

  predicate Required(env: Environment) {
    env.initiation.Replied? && CodeRequired(env.initiation.reply.signed2) == Some(true)
  }

  predicate Confirmed(opts: Options, env: Environment) {
    !env.cancelled1 && (opts.onConfirm ==> env.accept)
  }

  predicate CodeMissing(ac: Code, env: Environment) {
    Required(env) && ac.confirmation == ""
  }

  /** The confirmation code after the question for it, if it is asked. */
  function CodeThen(ac: Code, opts: Options, env: Environment): string {
    if CodeMissing(ac, env) && opts.onEnterCode then env.entered else ac.confirmation
  }

  /** The session gets to the second stage. */
  predicate Prepares(ac: Code, opts: Options, env: Environment) {
    Authentic(ac, env) && Confirmed(opts, env) && (Required(env) ==> CodeThen(ac, opts, env) != "")
  }

  /** The request for the bound package. */
  function Request(env: Environment): TLV {
    if env.initiation.Replied? then
      var r := env.initiation.reply;
      PrepareRequest(r.signed2, r.signature2, if Required(env) then Some(env.digest) else None, r.certificate)
    else Nil
  }

  /** How the second stage ends. */
  function Bind(env: Environment): Verdict {
    if Marshal(Request(env)).None? then Panics
    else if env.preparation.Refused? then Fails
    else JudgeHeader(env.preparation.header)
  }

  predicate Binds(ac: Code, opts: Options, env: Environment) {
    Prepares(ac, opts, env) && !env.cancelled2 && Bind(env) == Succeeds
  }

  predicate Installs(ac: Code, opts: Options, env: Environment) {
    Binds(ac, opts, env) && !env.cancelled3
  }

  function InstallEnds(env: Environment): Verdict {
    if env.preparation.Refused? then Fails
    else
      match InstallResult(env.preparation.bpp, env.link.channel, env.link.mss, env.link.script)
      case InstallPanic => Panics
      case InstallFailed => Fails
      case Installed(_) => Succeeds
  }

  /* ---------- the session ---------- */

  /** The trace goes on with the event if the condition holds. */
  function Also(t: seq<Event>, condition: bool, e: Event): seq<Event> {
    if condition then t + [e] else t
  }

  /** Once the code is there: stages two and three, and what cancels them. */
  function Late(opts: Options, env: Environment, code: string, t: seq<Event>): seq<Event>
    requires env.initiation.Replied?
  {
    var client := env.initiation.reply.transaction;
    var server := if env.preparation.Answered? then env.preparation.transaction else [];
    var bound := !env.cancelled2 && Bind(env) == Succeeds;
    var t1 := Also(t, opts.onProgress, Progress(AuthenticatingServer));
    var t2 := Also(t1, !env.cancelled2, Prepared(code, Request(env), Bind(env)));
    var t3 := Also(t2, env.cancelled2 || Bind(env) == Fails, CancelAttempt(client, Postponed));
    var t4 := Also(t3, bound && opts.onProgress, Progress(Installing));
    var t5 := Also(t4, bound && env.cancelled3, CancelAttempt(server, Postponed));
    var t6 := Also(t5, bound && !env.cancelled3, InstallRun(InstallEnds(env)));
    Also(t6, bound && !env.cancelled3 && InstallEnds(env) == Fails, CancelAttempt(server, LoadBppExecutionError))
  }

  lemma AlsoReport(t: seq<Event>, opts: Options, stage: Stage)
    ensures t + Report(opts, stage) == Also(t, opts.onProgress, Progress(stage))
  {
  }

  lemma AlsoBoth(t: seq<Event>, a: Event, b: Event)
    ensures t + [a, b] == t + [a] + [b]
  {
  }

  lemma VerdictsAgree(env: Environment, r: Reply, required: bool, code: string)
    requires env.initiation == Replied(r) && required == Required(env) && (required ==> code != "")
    ensures RequestOf(env, r, required) == Request(env) && PrepareVerdict(env, r, required, code) == Bind(env)
    ensures Bind(env) == Succeeds ==> env.preparation.Answered? && InstallVerdict(env) == InstallEnds(env)
  {
    hide Marshal, InstallResult, JudgeHeader, CodeRequired, PrepareRequest;
  }

  lemma PrepareSpelled(opts: Options, env: Environment, r: Reply, required: bool, code: string, t: seq<Event>)
    requires env.initiation == Replied(r) && required == Required(env) && (required ==> code != "")
    ensures Prepare(opts, env, r, required, code, t).trace == Late(opts, env, code, t)
    ensures Prepare(opts, env, r, required, code, t).confirmation == code
  {
    hide PrepareVerdict, InstallVerdict, RequestOf, Bind, Request, Required, InstallEnds, Cancelled, Aborted, Report;
    VerdictsAgree(env, r, required, code);
    AlsoReport(t, opts, AuthenticatingServer);
    var t1 := t + Report(opts, AuthenticatingServer);
    var t2 := t1 + [Prepared(code, Request(env), Bind(env))];
    AlsoReport(t2, opts, Installing);
    AlsoBoth(t1, Prepared(code, Request(env), Bind(env)), CancelAttempt(r.transaction, Postponed));
    if env.preparation.Answered? {
      AlsoBoth(t2 + Report(opts, Installing), InstallRun(Fails), CancelAttempt(env.preparation.transaction, LoadBppExecutionError));
    }
  }

  /** The trace of a session. */
  function Trace(ac: Code, opts: Options, env: Environment): seq<Event> {
    var valid := ac.host != "" && ac.imei != "";
    var t0 := Also([], valid && opts.onProgress, Progress(AuthenticatingClient));
    var t1 := Also(t0, valid && !env.initiation.InitiationPanicked?, Authenticated(Executed(env)));
    if !valid || !Executed(env) then t1
    else
      var client := env.initiation.reply.transaction;
      var unread := !env.initiation.reply.delivered || ReadMetadata(env.initiation.reply.metadata) == Fails;
      var t2 := Also(t1, unread, CancelAttempt(client, MetadataMismatch));
      var t3 := Also(t2, Authentic(ac, env) && !env.cancelled1 && opts.onConfirm, Asked(env.accept));
      var confirmed := Authentic(ac, env) && Confirmed(opts, env);
      var t4 := Also(t3, confirmed && CodeMissing(ac, env) && opts.onEnterCode, CodeEntered(env.entered));
      if Prepares(ac, opts, env) then Late(opts, env, CodeThen(ac, opts, env), t4)
      else Also(t4, Authentic(ac, env), CancelAttempt(client, Postponed))
  }

  lemma ConsentSpelled(ac: Code, opts: Options, env: Environment, r: Reply, required: bool, t: seq<Event>)
    requires Authentic(ac, env) && env.initiation == Replied(r) && required == Required(env)
    ensures var s := Consent(ac, opts, env, r, required, t);
            var t3 := Also(t, !env.cancelled1 && opts.onConfirm, Asked(env.accept));
            var t4 := Also(t3, Confirmed(opts, env) && CodeMissing(ac, env) && opts.onEnterCode, CodeEntered(env.entered));
            && s.trace == (if Prepares(ac, opts, env) then Late(opts, env, CodeThen(ac, opts, env), t4)
                           else t4 + [CancelAttempt(r.transaction, Postponed)])
            && s.confirmation == if Confirmed(opts, env) then CodeThen(ac, opts, env) else ac.confirmation
  {
    hide Prepare, Late, Required, Authentic, Cancelled, Aborted;
    var t3 := Also(t, !env.cancelled1 && opts.onConfirm, Asked(env.accept));
    var t4 := Also(t3, Confirmed(opts, env) && CodeMissing(ac, env) && opts.onEnterCode, CodeEntered(env.entered));
    if Prepares(ac, opts, env) {
      PrepareSpelled(opts, env, r, required, CodeThen(ac, opts, env), t4);
    }
  }

  /**
   * The trace of every session, event by event, each with its condition; and the confirmation code that it leaves.
   */
  lemma SessionSpelledOut(ac: Code, opts: Options, env: Environment)
    ensures var s := Run(ac, opts, env);
            && s.trace == Trace(ac, opts, env)
            && s.confirmation == if Authentic(ac, env) && Confirmed(opts, env) then CodeThen(ac, opts, env) else ac.confirmation
  {
    hide Consent, Late, Confirmed, CodeThen, CodeMissing, ReadMetadata, CodeRequired, Cancelled, Aborted, Report;
    AlsoReport([], opts, AuthenticatingClient);
    assert [] + Report(opts, AuthenticatingClient) == Report(opts, AuthenticatingClient);
    if Authentic(ac, env) {
      var r := env.initiation.reply;
      ConsentSpelled(ac, opts, env, r, Required(env), Report(opts, AuthenticatingClient) + [Authenticated(true)]);
    }
  }

  /* ---------- how it ends ---------- */

  /** The context or the user declines, at one of the three polls or when asked. */
  predicate Declines(ac: Code, opts: Options, env: Environment) {
    && Authentic(ac, env)
    && (!Confirmed(opts, env)
        || (Prepares(ac, opts, env) && (env.cancelled2 || (Bind(env) == Succeeds && env.cancelled3))))
  }

  /** An error that the session is cancelled for: in the metadata, for want of a code, at the request or at the install. */
  predicate Aborts(ac: Code, opts: Options, env: Environment) {
    && ac.host != "" && ac.imei != "" && Executed(env)
    && (|| !env.initiation.reply.delivered
        || ReadMetadata(env.initiation.reply.metadata) == Fails
        || (Authentic(ac, env) && Confirmed(opts, env) && !Prepares(ac, opts, env))
        || (Prepares(ac, opts, env) && !env.cancelled2 && Bind(env) == Fails)
        || (Installs(ac, opts, env) && InstallEnds(env) == Fails))
  }

  /** Before Executed-Success there is an error, or a panic where a step or a failed status without data brings it about. */
  predicate StartCrashes(env: Environment) {
    || env.initiation.InitiationPanicked?
    || (env.initiation.Replied? && env.initiation.reply.delivered
        && env.initiation.reply.header == Some(Some(Status(false, false))))
  }

  lemma PrepareEnds(opts: Options, env: Environment, r: Reply, required: bool, code: string, t: seq<Event>)
    requires env.initiation == Replied(r) && required == Required(env) && (required ==> code != "")
    ensures Prepare(opts, env, r, required, code, t).ending ==
            if env.cancelled2 then Cancelled(env)
            else match Bind(env)
              case Panics => Crashed
              case Fails => Aborted(env)
              case Succeeds =>
                if env.cancelled3 then Cancelled(env)
                else match InstallEnds(env)
                  case Panics => Crashed
                  case Fails => Aborted(env)
                  case Succeeds => Returned(false)
  {
    hide PrepareVerdict, InstallVerdict, RequestOf, Bind, Request, Required, InstallEnds, Cancelled, Aborted, Report;
    VerdictsAgree(env, r, required, code);
  }

  /**
   * How every session ends. An error that it is cancelled for is an error to the caller even if the cancellation works; a
   * declined session is one only if the cancellation fails; either panics if the cancellation does. Otherwise it ends
   * well exactly when the package was installed, and in a panic if not.
   */
  lemma EndingSpelledOut(ac: Code, opts: Options, env: Environment)
    ensures Run(ac, opts, env).ending ==
            if ac.host == "" || ac.imei == "" then Returned(true)
            else if !Executed(env) then (if StartCrashes(env) then Crashed else Returned(true))
            else if Aborts(ac, opts, env) then (if env.cancel == Panics then Crashed else Returned(true))
            else if Declines(ac, opts, env) then (if env.cancel == Panics then Crashed else Returned(env.cancel == Fails))
            else if Installs(ac, opts, env) && InstallEnds(env) == Succeeds then Returned(false)
            else Crashed
  {
    hide Prepare, ReadMetadata, CodeRequired, Report, Bind, InstallEnds, Request;
    if Prepares(ac, opts, env) {
      var r := env.initiation.reply;
      var t := Report(opts, AuthenticatingClient) + [Authenticated(true)];
      var asked := if opts.onConfirm then t + [Asked(env.accept)] else t;
      var entered := if opts.onEnterCode then asked + [CodeEntered(env.entered)] else asked;
      PrepareEnds(opts, env, r, Required(env), CodeThen(ac, opts, env), asked);
      PrepareEnds(opts, env, r, Required(env), CodeThen(ac, opts, env), entered);
    }
  }

  /* ---------- the confirmation code ---------- */

  /** The requirement of a code, in the octets of smdpSigned2: its first child with tag 01 holds one octet, not zero. */
  predicate SaysRequired(env: Environment, i: nat) {
    && env.initiation.Replied? && env.initiation.reply.signed2.TLV?
    && var cs := env.initiation.reply.signed2.children;
    && IsFirst(cs, [0x01], i)
    && |cs[i].value| == 1 && cs[i].value[0] != 0
  }

  /** There is such a child, and it says anything else. */
  predicate SaysOtherwise(env: Environment, i: nat) {
    && env.initiation.Replied? && env.initiation.reply.signed2.TLV?
    && var cs := env.initiation.reply.signed2.children;
    && IsFirst(cs, [0x01], i)
    && (|cs[i].value| != 1 || cs[i].value[0] == 0)
  }

  lemma RequirementRead(env: Environment, i: nat)
    ensures SaysRequired(env, i) ==> Required(env) && CodeRequired(env.initiation.reply.signed2).Some?
    ensures SaysOtherwise(env, i) ==> !Required(env) && CodeRequired(env.initiation.reply.signed2).Some?
  {
    hide CodeRequired;
    if SaysRequired(env, i) || SaysOtherwise(env, i) {
      CodeRequiredExactly(env.initiation.reply.signed2, i);
    }
  }

  lemma AlsoHas(t: seq<Event>, condition: bool, e: Event, x: Event)
    ensures x in Also(t, condition, e) <==> x in t || (condition && x == e)
  {
  }

  /** The events of stages two and three, in any order. */
  lemma LateHas(opts: Options, env: Environment, code: string, t: seq<Event>, x: Event)
    requires env.initiation.Replied? && !x.Progress? && !x.CancelAttempt?
    ensures x in Late(opts, env, code, t) <==>
            || x in t
            || (!env.cancelled2 && x == Prepared(code, Request(env), Bind(env)))
            || (!env.cancelled2 && Bind(env) == Succeeds && !env.cancelled3 && x == InstallRun(InstallEnds(env)))
  {
    var client := env.initiation.reply.transaction;
    var server := if env.preparation.Answered? then env.preparation.transaction else [];
    var bound := !env.cancelled2 && Bind(env) == Succeeds;
    var t1 := Also(t, opts.onProgress, Progress(AuthenticatingServer));
    var t2 := Also(t1, !env.cancelled2, Prepared(code, Request(env), Bind(env)));
    var t3 := Also(t2, env.cancelled2 || Bind(env) == Fails, CancelAttempt(client, Postponed));
    var t4 := Also(t3, bound && opts.onProgress, Progress(Installing));
    var t5 := Also(t4, bound && env.cancelled3, CancelAttempt(server, Postponed));
    var t6 := Also(t5, bound && !env.cancelled3, InstallRun(InstallEnds(env)));
    hide Also, Bind, InstallEnds, Request;
    AlsoHas(t, opts.onProgress, Progress(AuthenticatingServer), x);
    AlsoHas(t1, !env.cancelled2, Prepared(code, Request(env), Bind(env)), x);
    AlsoHas(t2, env.cancelled2 || Bind(env) == Fails, CancelAttempt(client, Postponed), x);
    AlsoHas(t3, bound && opts.onProgress, Progress(Installing), x);
    AlsoHas(t4, bound && env.cancelled3, CancelAttempt(server, Postponed), x);
    AlsoHas(t5, bound && !env.cancelled3, InstallRun(InstallEnds(env)), x);
    AlsoHas(t6, bound && !env.cancelled3 && InstallEnds(env) == Fails, CancelAttempt(server, LoadBppExecutionError), x);
  }

  /**
   * What a session did besides progress and cancellations, and when: it asked for consent, asked for the code, requested
   * the package or installed it exactly under these conditions, and in no other way.
   */
  lemma EventsExactly(ac: Code, opts: Options, env: Environment, x: Event)
    requires !x.Progress? && !x.CancelAttempt? && !x.Authenticated?
    ensures x in Run(ac, opts, env).trace <==>
            || (Authentic(ac, env) && !env.cancelled1 && opts.onConfirm && x == Asked(env.accept))
            || (Authentic(ac, env) && Confirmed(opts, env) && CodeMissing(ac, env) && opts.onEnterCode && x == CodeEntered(env.entered))
            || (Prepares(ac, opts, env) && !env.cancelled2 && x == Prepared(CodeThen(ac, opts, env), Request(env), Bind(env)))
            || (Installs(ac, opts, env) && x == InstallRun(InstallEnds(env)))
  {
    hide Run;
    SessionSpelledOut(ac, opts, env);
    TraceHas(ac, opts, env, x);
    hide Trace, CodeMissing, Confirmed, CodeThen, Request, Bind, InstallEnds, Authentic;
  }

  lemma TraceHas(ac: Code, opts: Options, env: Environment, x: Event)
    requires !x.Progress? && !x.CancelAttempt? && !x.Authenticated?
    ensures x in Trace(ac, opts, env) <==>
            || (Authentic(ac, env) && !env.cancelled1 && opts.onConfirm && x == Asked(env.accept))
            || (Authentic(ac, env) && Confirmed(opts, env) && CodeMissing(ac, env) && opts.onEnterCode && x == CodeEntered(env.entered))
            || (Prepares(ac, opts, env) && !env.cancelled2 && x == Prepared(CodeThen(ac, opts, env), Request(env), Bind(env)))
            || (Installs(ac, opts, env) && x == InstallRun(InstallEnds(env)))
  {
    var valid := ac.host != "" && ac.imei != "";
    var t0 := Also([], valid && opts.onProgress, Progress(AuthenticatingClient));
    var t1 := Also(t0, valid && !env.initiation.InitiationPanicked?, Authenticated(Executed(env)));
    assert x !in t1;
    if valid && Executed(env) {
      var client := env.initiation.reply.transaction;
      var unread := !env.initiation.reply.delivered || ReadMetadata(env.initiation.reply.metadata) == Fails;
      var t2 := Also(t1, unread, CancelAttempt(client, MetadataMismatch));
      var t3 := Also(t2, Authentic(ac, env) && !env.cancelled1 && opts.onConfirm, Asked(env.accept));
      var confirmed := Authentic(ac, env) && Confirmed(opts, env);
      var t4 := Also(t3, confirmed && CodeMissing(ac, env) && opts.onEnterCode, CodeEntered(env.entered));
      assert Trace(ac, opts, env) ==
             if Prepares(ac, opts, env) then Late(opts, env, CodeThen(ac, opts, env), t4)
             else Also(t4, Authentic(ac, env), CancelAttempt(client, Postponed));
      PreparesFirst(ac, opts, env);
      hide Trace, Also, Late, Bind, InstallEnds, Request, Authentic, Prepares, Confirmed, CodeMissing, CodeThen, ReadMetadata,
        Executed;
      AlsoHas(t1, unread, CancelAttempt(client, MetadataMismatch), x);
      AlsoHas(t2, Authentic(ac, env) && !env.cancelled1 && opts.onConfirm, Asked(env.accept), x);
      AlsoHas(t3, confirmed && CodeMissing(ac, env) && opts.onEnterCode, CodeEntered(env.entered), x);
      AlsoHas(t4, Authentic(ac, env), CancelAttempt(client, Postponed), x);
      LateHas(opts, env, CodeThen(ac, opts, env), t4, x);
    } else {
      NotAuthentic(ac, env);
      hide Authentic, Confirmed, CodeMissing, CodeThen, Request, Bind, InstallEnds;
    }
  }

  lemma PreparesFirst(ac: Code, opts: Options, env: Environment)
    ensures Installs(ac, opts, env) <==> Prepares(ac, opts, env) && !env.cancelled2 && Bind(env) == Succeeds && !env.cancelled3
  {
    hide Prepares, Bind;
  }

  lemma NotAuthentic(ac: Code, env: Environment)
    requires ac.host == "" || ac.imei == "" || !Executed(env)
    ensures !Authentic(ac, env)
  {
  }

  /**
   * A required code, told from the octets of smdpSigned2, for every environment. If the first child with tag 01 holds one
   * octet that is not zero, then nothing is installed without a confirmation code; a code that is missing is asked for
   * exactly when there is a way to ask and nobody has declined, and the user's answer is the code from then on; and
   * every request for the package holds the digest under tag 04, between the signature and the certificate.
   */
  lemma RequiredCode(ac: Code, opts: Options, env: Environment, i: nat)
    requires SaysRequired(env, i)
    ensures var s, r := Run(ac, opts, env), env.initiation.reply;
            && (forall e :: e in s.trace && e.InstallRun? ==> s.confirmation != "")
            && (CodeEntered(env.entered) in s.trace <==>
                  Authentic(ac, env) && Confirmed(opts, env) && ac.confirmation == "" && opts.onEnterCode)
            && (CodeEntered(env.entered) in s.trace ==> s.confirmation == env.entered)
            && (forall e :: e in s.trace && e.Prepared? ==>
                  && e.code == s.confirmation != ""
                  && e.request.TLV? && e.request.tag == [0xBF, 0x21]
                  && e.request.children == [r.signed2, r.signature2, TLV([0x04], env.digest, []), r.certificate])
  {
    hide Run, Authentic, Confirmed, Bind, InstallEnds, Executed, SaysRequired, SaysOtherwise, PrepareRequest, CodeRequired;
    SaysReplied(env, i);
    var s, r := Run(ac, opts, env), env.initiation.reply;
    RequirementRead(env, i);
    SessionSpelledOut(ac, opts, env);
    EventsExactly(ac, opts, env, CodeEntered(env.entered));
    RequestInOrder(r.signed2, r.signature2, Some(env.digest), r.certificate);
    forall e | e in s.trace && (e.InstallRun? || e.Prepared?)
      ensures s.confirmation == CodeThen(ac, opts, env) != ""
      ensures e.Prepared? ==> e.code == s.confirmation && e.request == Request(env)
    {
      EventsExactly(ac, opts, env, e);
    }
  }

  lemma SaysReplied(env: Environment, i: nat)
    requires SaysRequired(env, i) || SaysOtherwise(env, i)
    ensures env.initiation.Replied?
  {
  }

  /** If the octet is zero, or not one octet, no code is asked for, and the request holds no digest. */
  lemma NoCodeRequired(ac: Code, opts: Options, env: Environment, i: nat)
    requires SaysOtherwise(env, i)
    ensures var s, r := Run(ac, opts, env), env.initiation.reply;
            && s.confirmation == ac.confirmation
            && (forall e :: e in s.trace ==> !e.CodeEntered?)
            && (forall e :: e in s.trace && e.Prepared? ==>
                  && e.request.TLV? && e.request.tag == [0xBF, 0x21]
                  && e.request.children == [r.signed2, r.signature2, r.certificate])
  {
    hide Run, Authentic, Confirmed, Bind, InstallEnds, Executed, SaysRequired, SaysOtherwise, PrepareRequest, CodeRequired;
    SaysReplied(env, i);
    var s, r := Run(ac, opts, env), env.initiation.reply;
    RequirementRead(env, i);
    SessionSpelledOut(ac, opts, env);
    RequestInOrder(r.signed2, r.signature2, None, r.certificate);
    forall e | e in s.trace && (e.CodeEntered? || e.Prepared?) ensures e.Prepared? && e.request == Request(env) {
      EventsExactly(ac, opts, env, e);
    }
  }

  /** Without such a child nothing comes after the authentication. */
  lemma NoRequirement(ac: Code, opts: Options, env: Environment)
    requires env.initiation.Replied? && Lacks(env.initiation.reply.signed2, [0x01])
    ensures forall e :: e in Run(ac, opts, env).trace ==> !e.Asked? && !e.CodeEntered? && !e.Prepared? && !e.InstallRun?
  {
    hide Run, Confirmed, CodeMissing, CodeThen, Request, Bind, InstallEnds, Executed, CodeRequired, ReadMetadata, Lacks;
    CodeUnknown(env.initiation.reply.signed2);
    assert !Authentic(ac, env);
    hide Authentic;
    forall e | e in Run(ac, opts, env).trace ensures !e.Asked? && !e.CodeEntered? && !e.Prepared? && !e.InstallRun? {
      if e.Asked? || e.CodeEntered? || e.Prepared? || e.InstallRun? {
        EventsExactly(ac, opts, env, e);
      }
    }
  }
}
