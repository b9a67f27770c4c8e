/**
 * Deleting conntrack flows by filter (netlink/conntrack_linux.go): the loop over dumped messages and filters against an
 * arbitrary kernel. Filters are arbitrary predicates on flows, as the interface `CustomConntrackFilter` allows.
 */
module ConntrackDelete {
  import opened Bytes
  import opened Netlink
  import opened Conntrack
  import opened ConntrackReader

  /** What the kernel answers to a delete request. */
  datatype Answer = Deleted | NotExist | Failed

  /** The k-th delete request gets the answer `kernel(k)`. */
  type Kernel = nat -> Answer

  type Filter = Flow -> bool

  /** A delete request: for which dumped message, at which filter, and the body after the netfilter header. */
  datatype Sent = Sent(flow: nat, filter: nat, body: seq<byte>)

  datatype Tally = Tally(sent: seq<Sent>, matched: nat, errors: nat, panicked: bool)

  datatype Dump = Complete(messages: seq<seq<byte>>) | Interrupted(messages: seq<seq<byte>>) | NoDump

  datatype Deletion = Finished(matched: nat, interrupted: bool, errors: nat) | DumpError | Panicked

  /* ---------- the loop as a function ---------- */

  function TryFilters(raw: seq<byte>, i: nat, flow: Flow, filters: seq<Filter>, j: nat, kernel: Kernel, t: Tally): Tally
    requires j <= |filters|
    decreases |filters| - j
  {
    if j == |filters| then t
    else if !filters[j](flow) then TryFilters(raw, i, flow, filters, j + 1, kernel, t)
    else if |raw| < 4 then t.(panicked := true)
    else
      var sent := t.sent + [Sent(i, j, raw[4..])];
      if kernel(|t.sent|) == Failed then
        TryFilters(raw, i, flow, filters, j + 1, kernel, t.(sent := sent, errors := t.errors + 1))
      else t.(sent := sent, matched := t.matched + 1)
  }

  function TryFlows(e: Endian, raws: seq<seq<byte>>, i: nat, filters: seq<Filter>, kernel: Kernel, t: Tally): Tally
    requires i <= |raws|
    decreases |raws| - i
  {
    if t.panicked || i == |raws| then t
    else match Parse(e, raws[i])
      case None => t.(panicked := true)
      case Some(flow) => TryFlows(e, raws, i + 1, filters, kernel, TryFilters(raws[i], i, flow, filters, 0, kernel, t))
  }

  const NOTHING := Tally([], 0, 0, false)

  /* ---------- what every step keeps ---------- */

  /** The requests answered with a deletion or with "not found". */
  function DeletedFlows(sent: seq<Sent>, kernel: Kernel): set<nat> {
    set a | 0 <= a < |sent| && kernel(a) != Failed :: sent[a].flow
  }

  predicate Before(s: Sent, i: nat, j: nat) {
    s.flow < i || (s.flow == i && s.filter < j)
  }

  /** Every request is for a message its filter matches, and carries that message without its header. */
  ghost predicate Sound(e: Endian, raws: seq<seq<byte>>, filters: seq<Filter>, sent: seq<Sent>) {
    forall s :: s in sent ==>
      && s.flow < |raws| && s.filter < |filters| && |raws[s.flow]| >= 4 && s.body == raws[s.flow][4..]
      && Parse(e, raws[s.flow]).Some? && filters[s.filter](Parse(e, raws[s.flow]).value)
  }

  /** Requests go message by message and filter by filter, and nothing is sent for a message once it is gone. */
  ghost predicate InTurn(sent: seq<Sent>, kernel: Kernel) {
    forall a, b :: 0 <= a < b < |sent| ==>
      Before(sent[a], sent[b].flow, sent[b].filter) && (sent[a].flow == sent[b].flow ==> kernel(a) == Failed)
  }

  predicate Requested(sent: seq<Sent>, i: nat, j: nat) {
    exists k :: 0 <= k < |sent| && sent[k].flow == i && sent[k].filter == j
  }

  /** Every filter below `j` that matches message `i` was tried on it, unless the message was gone before. */
  ghost predicate Covered(i: nat, flow: Flow, filters: seq<Filter>, j: nat, sent: seq<Sent>, kernel: Kernel) {
    forall f :: 0 <= f < j && f < |filters| && filters[f](flow) ==> Requested(sent, i, f) || i in DeletedFlows(sent, kernel)
  }

  ghost predicate AllCovered(e: Endian, raws: seq<seq<byte>>, i: nat, filters: seq<Filter>, sent: seq<Sent>, kernel: Kernel) {
    forall m :: 0 <= m < i && m < |raws| ==>
      Parse(e, raws[m]).Some? && Covered(m, Parse(e, raws[m]).value, filters, |filters|, sent, kernel)
  }

  /** The invariant of both loops, about to try filter `j` on message `i`. */
  ghost predicate Tallied(e: Endian, raws: seq<seq<byte>>, filters: seq<Filter>, kernel: Kernel, i: nat, j: nat, t: Tally) {
    && |t.sent| == t.matched + t.errors
    && t.matched == |DeletedFlows(t.sent, kernel)| <= i
    && (forall s :: s in t.sent ==> Before(s, i, j))
    && Sound(e, raws, filters, t.sent)
    && InTurn(t.sent, kernel)
    && AllCovered(e, raws, i, filters, t.sent, kernel)
  }

  lemma DeletedSnoc(sent: seq<Sent>, s: Sent, kernel: Kernel)
    ensures DeletedFlows(sent + [s], kernel) ==
            DeletedFlows(sent, kernel) + if kernel(|sent|) != Failed then {s.flow} else {}
  {
    var all := sent + [s];
    forall x | x in DeletedFlows(sent, kernel) ensures x in DeletedFlows(all, kernel) {
      var a :| 0 <= a < |sent| && kernel(a) != Failed && sent[a].flow == x;
      assert all[a].flow == x;
    }
    if kernel(|sent|) != Failed { assert all[|sent|].flow == s.flow; }
  }

  lemma CoveredStays(i: nat, flow: Flow, filters: seq<Filter>, j: nat, sent: seq<Sent>, s: Sent, kernel: Kernel)
    requires Covered(i, flow, filters, j, sent, kernel)
    ensures Covered(i, flow, filters, j, sent + [s], kernel)
  {
    DeletedSnoc(sent, s, kernel);
    forall f | 0 <= f < j && f < |filters| && filters[f](flow)
      ensures Requested(sent + [s], i, f) || i in DeletedFlows(sent + [s], kernel)
    {
      if Requested(sent, i, f) {
        var k :| 0 <= k < |sent| && sent[k].flow == i && sent[k].filter == f;
        assert (sent + [s])[k] == sent[k];
      }
    }
  }

  lemma AllCoveredStays(e: Endian, raws: seq<seq<byte>>, i: nat, filters: seq<Filter>, sent: seq<Sent>, s: Sent, kernel: Kernel)
    requires AllCovered(e, raws, i, filters, sent, kernel)
    ensures AllCovered(e, raws, i, filters, sent + [s], kernel)
  {
    hide Parse, Covered;
    forall m | 0 <= m < i && m < |raws|
      ensures Parse(e, raws[m]).Some? && Covered(m, Parse(e, raws[m]).value, filters, |filters|, sent + [s], kernel)
    {
      CoveredStays(m, Parse(e, raws[m]).value, filters, |filters|, sent, s, kernel);
    }
  }

  /** What holds of the requests and of the count after one more request, for message `i` at a matching filter `j`. */
  lemma SendKeeps(e: Endian, raws: seq<seq<byte>>, filters: seq<Filter>, kernel: Kernel, i: nat, j: nat, t: Tally)
    requires i < |raws| && j < |filters| && |raws[i]| >= 4
    requires Parse(e, raws[i]).Some? && filters[j](Parse(e, raws[i]).value)
    requires Tallied(e, raws, filters, kernel, i, j, t) && i !in DeletedFlows(t.sent, kernel)
    ensures var sent := t.sent + [Sent(i, j, raws[i][4..])];
            && Sound(e, raws, filters, sent) && InTurn(sent, kernel) && AllCovered(e, raws, i, filters, sent, kernel)
            && DeletedFlows(sent, kernel) == DeletedFlows(t.sent, kernel) + (if kernel(|t.sent|) != Failed then {i} else {})
            && (forall s :: s in sent ==> Before(s, i, j + 1))
  {
    hide Parse, AllCovered, InTurn, Sound, DeletedFlows;
    var s := Sent(i, j, raws[i][4..]);
    DeletedSnoc(t.sent, s, kernel);
    AllCoveredStays(e, raws, i, filters, t.sent, s, kernel);
    NothingGone(i, t.sent, kernel);
    forall a | 0 <= a < |t.sent| ensures Before(t.sent[a], i, j) {
      assert t.sent[a] in t.sent;
    }
    InTurnSnoc(t.sent, s, kernel);
    SoundOne(e, raws, filters, s);
    SoundSnoc(e, raws, filters, t.sent, s);
  }

  lemma SoundOne(e: Endian, raws: seq<seq<byte>>, filters: seq<Filter>, s: Sent)
    requires s.flow < |raws| && s.filter < |filters| && |raws[s.flow]| >= 4 && s.body == raws[s.flow][4..]
    requires Parse(e, raws[s.flow]).Some? && filters[s.filter](Parse(e, raws[s.flow]).value)
    ensures Sound(e, raws, filters, [s])
  {
    hide Parse;
  }

  lemma SoundSnoc(e: Endian, raws: seq<seq<byte>>, filters: seq<Filter>, sent: seq<Sent>, s: Sent)
    requires Sound(e, raws, filters, sent) && Sound(e, raws, filters, [s])
    ensures Sound(e, raws, filters, sent + [s])
  {
    hide Parse;
    assert s in [s];
  }

  lemma NothingGone(i: nat, sent: seq<Sent>, kernel: Kernel)
    requires i !in DeletedFlows(sent, kernel)
    ensures forall a :: 0 <= a < |sent| ==> sent[a].flow == i ==> kernel(a) == Failed
  {
    forall a | 0 <= a < |sent| && kernel(a) != Failed ensures sent[a].flow != i {
      assert sent[a].flow in DeletedFlows(sent, kernel);
    }
  }

  lemma InTurnSnoc(sent: seq<Sent>, s: Sent, kernel: Kernel)
    requires InTurn(sent, kernel) && forall a :: 0 <= a < |sent| ==> Before(sent[a], s.flow, s.filter)
    requires forall a :: 0 <= a < |sent| ==> sent[a].flow == s.flow ==> kernel(a) == Failed
    ensures InTurn(sent + [s], kernel)
  {
  }

  /** The filter loop keeps the invariant, and after it the next message may be tried. */
  lemma {:induction false} FiltersKeep(e: Endian, raws: seq<seq<byte>>, filters: seq<Filter>, kernel: Kernel,
                                       i: nat, j: nat, t: Tally)
    requires i < |raws| && j <= |filters| && Parse(e, raws[i]).Some? && !t.panicked
    requires Tallied(e, raws, filters, kernel, i, j, t) && i !in DeletedFlows(t.sent, kernel)
    requires Covered(i, Parse(e, raws[i]).value, filters, j, t.sent, kernel)
    ensures var r := TryFilters(raws[i], i, Parse(e, raws[i]).value, filters, j, kernel, t);
            if r.panicked then exists j' :: 0 <= j' && Tallied(e, raws, filters, kernel, i, j', r)
            else Tallied(e, raws, filters, kernel, i + 1, 0, r)
    decreases |filters| - j
  {
    hide Parse, InTurn, Sound, DeletedFlows, AllCovered;
    var flow := Parse(e, raws[i]).value;
    if j == |filters| {
      NextMessage(e, raws, filters, kernel, i, t.sent);
    } else if !filters[j](flow) {
      assert forall s :: s in t.sent ==> Before(s, i, j + 1);
      FiltersKeep(e, raws, filters, kernel, i, j + 1, t);
    } else if |raws[i]| < 4 {
      assert Tallied(e, raws, filters, kernel, i, j, t.(panicked := true));
    } else {
      var s := Sent(i, j, raws[i][4..]);
      SendKeeps(e, raws, filters, kernel, i, j, t);
      CoveredSent(i, flow, filters, j, t.sent, s, kernel);
      if kernel(|t.sent|) == Failed {
        FiltersKeep(e, raws, filters, kernel, i, j + 1, t.(sent := t.sent + [s], errors := t.errors + 1));
      } else {
        CoveredGone(i, flow, filters, t.sent + [s], kernel);
        NextMessage(e, raws, filters, kernel, i, t.sent + [s]);
      }
    }
  }

  lemma CoveredSent(i: nat, flow: Flow, filters: seq<Filter>, j: nat, sent: seq<Sent>, s: Sent, kernel: Kernel)
    requires Covered(i, flow, filters, j, sent, kernel) && s.flow == i && s.filter == j
    ensures Covered(i, flow, filters, j + 1, sent + [s], kernel)
  {
    CoveredStays(i, flow, filters, j, sent, s, kernel);
    assert (sent + [s])[|sent|] == s;
    assert Requested(sent + [s], i, j);
  }

  lemma CoveredGone(i: nat, flow: Flow, filters: seq<Filter>, sent: seq<Sent>, kernel: Kernel)
    requires i in DeletedFlows(sent, kernel)
    ensures Covered(i, flow, filters, |filters|, sent, kernel)
  {
  }

  lemma NextMessage(e: Endian, raws: seq<seq<byte>>, filters: seq<Filter>, kernel: Kernel, i: nat, sent: seq<Sent>)
    requires i < |raws| && Parse(e, raws[i]).Some? && AllCovered(e, raws, i, filters, sent, kernel)
    requires Covered(i, Parse(e, raws[i]).value, filters, |filters|, sent, kernel)
    ensures AllCovered(e, raws, i + 1, filters, sent, kernel)
  {
    hide Parse, Covered;
  }

  /** Nothing was deleted yet for a message that has not been tried. */
  lemma Untried(e: Endian, raws: seq<seq<byte>>, filters: seq<Filter>, kernel: Kernel, i: nat, t: Tally)
    requires Tallied(e, raws, filters, kernel, i, 0, t)
    ensures i !in DeletedFlows(t.sent, kernel)
  {
    hide Parse;
    forall a | 0 <= a < |t.sent| ensures t.sent[a].flow != i {
      assert t.sent[a] in t.sent;
    }
  }

  /** Both loops keep the invariant; `i'` and `j'` are where the run ends. */
  lemma {:induction false} FlowsKeep(e: Endian, raws: seq<seq<byte>>, filters: seq<Filter>, kernel: Kernel, i: nat, t: Tally)
    returns (i': nat, j': nat)
    requires i <= |raws| && !t.panicked && Tallied(e, raws, filters, kernel, i, 0, t)
    ensures var r := TryFlows(e, raws, i, filters, kernel, t);
            Tallied(e, raws, filters, kernel, i', j', r) && i' <= |raws| && (!r.panicked ==> i' == |raws| && j' == 0)
    decreases |raws| - i
  {
    hide Parse, TryFilters, Tallied;
    i', j' := i, 0;
    if i == |raws| {
    } else if Parse(e, raws[i]).None? {
      TalliedPanic(e, raws, filters, kernel, i, t);
    } else {
      var flow := Parse(e, raws[i]).value;
      Untried(e, raws, filters, kernel, i, t);
      FiltersKeep(e, raws, filters, kernel, i, 0, t);
      var t1 := TryFilters(raws[i], i, flow, filters, 0, kernel, t);
      assert TryFlows(e, raws, i, filters, kernel, t) == TryFlows(e, raws, i + 1, filters, kernel, t1);
      if t1.panicked {
        j' :| 0 <= j' && Tallied(e, raws, filters, kernel, i, j', t1);
      } else {
        i', j' := FlowsKeep(e, raws, filters, kernel, i + 1, t1);
      }
    }
  }

  lemma TalliedPanic(e: Endian, raws: seq<seq<byte>>, filters: seq<Filter>, kernel: Kernel, i: nat, t: Tally)
    requires Tallied(e, raws, filters, kernel, i, 0, t)
    ensures Tallied(e, raws, filters, kernel, i, 0, t.(panicked := true))
  {
  }

  /**
   * Filtered delete, for every dump, filter list and kernel: as many requests as matches and filter errors together;
   * the matched flows are distinct; each request was for a matching flow; nothing follows a deletion of the same flow;
   * and, unless the run panicked, every filter that matches a flow was tried on it or the flow was gone by then.
   */
  lemma DeletesOnce(e: Endian, raws: seq<seq<byte>>, filters: seq<Filter>, kernel: Kernel)
    ensures var t := TryFlows(e, raws, 0, filters, kernel, NOTHING);
            && |t.sent| == t.matched + t.errors
            && t.matched == |DeletedFlows(t.sent, kernel)| <= |raws|
            && Sound(e, raws, filters, t.sent)
            && InTurn(t.sent, kernel)
            && (!t.panicked ==> AllCovered(e, raws, |raws|, filters, t.sent, kernel))
  {
    hide Parse, TryFlows;
    assert DeletedFlows([], kernel) == {};
    assert Tallied(e, raws, filters, kernel, 0, 0, NOTHING);
    var i, j := FlowsKeep(e, raws, filters, kernel, 0, NOTHING);
  }

  /** What makes the run panic: a message with an index failure, or a matching one too short to cut four bytes off. */
  ghost predicate Fatal(e: Endian, raw: seq<byte>, filters: seq<Filter>) {
    || Parse(e, raw).None?
    || (|raw| < 4 && exists f :: 0 <= f < |filters| && filters[f](Parse(e, raw).value))
  }

  lemma {:induction false} FiltersPanic(raw: seq<byte>, i: nat, flow: Flow, filters: seq<Filter>, j: nat, kernel: Kernel,
                                        t: Tally)
    requires j <= |filters| && !t.panicked
    ensures TryFilters(raw, i, flow, filters, j, kernel, t).panicked <==>
            |raw| < 4 && exists f :: j <= f < |filters| && filters[f](flow)
    decreases |filters| - j
  {
    if j < |filters| {
      if !filters[j](flow) {
        FiltersPanic(raw, i, flow, filters, j + 1, kernel, t);
      } else if |raw| >= 4 && kernel(|t.sent|) == Failed {
        var sent := t.sent + [Sent(i, j, raw[4..])];
        FiltersPanic(raw, i, flow, filters, j + 1, kernel, t.(sent := sent, errors := t.errors + 1));
      }
    }
  }

  lemma {:induction false} FlowsPanic(e: Endian, raws: seq<seq<byte>>, i: nat, filters: seq<Filter>, kernel: Kernel, t: Tally)
    requires i <= |raws| && !t.panicked
    ensures TryFlows(e, raws, i, filters, kernel, t).panicked <==>
            exists m :: i <= m < |raws| && Fatal(e, raws[m], filters)
    decreases |raws| - i
  {
    hide Parse, TryFilters;
    if i < |raws| && Parse(e, raws[i]).Some? {
      var flow := Parse(e, raws[i]).value;
      FiltersPanic(raws[i], i, flow, filters, 0, kernel, t);
      var t1 := TryFilters(raws[i], i, flow, filters, 0, kernel, t);
      assert TryFlows(e, raws, i, filters, kernel, t) == TryFlows(e, raws, i + 1, filters, kernel, t1);
      if t1.panicked {
        assert Fatal(e, raws[i], filters);
      } else {
        assert !Fatal(e, raws[i], filters);
        FlowsPanic(e, raws, i + 1, filters, kernel, t1);
      }
    } else if i < |raws| {
      assert Fatal(e, raws[i], filters);
    }
  }

  /** The run panics exactly when some message of the dump is fatal. */
  lemma PanicsExactly(e: Endian, raws: seq<seq<byte>>, filters: seq<Filter>, kernel: Kernel)
    ensures TryFlows(e, raws, 0, filters, kernel, NOTHING).panicked <==>
            exists m :: 0 <= m < |raws| && Fatal(e, raws[m], filters)
  {
    FlowsPanic(e, raws, 0, filters, kernel, NOTHING);
  }

  /** Whatever the kernel answers, a delete is requested for exactly those flows that some filter matches. */
  lemma MatchedAreRequested(e: Endian, raws: seq<seq<byte>>, filters: seq<Filter>, kernel: Kernel, m: nat)
    requires m < |raws| && !TryFlows(e, raws, 0, filters, kernel, NOTHING).panicked
    ensures var t := TryFlows(e, raws, 0, filters, kernel, NOTHING);
            && Parse(e, raws[m]).Some?
            && ((exists k :: 0 <= k < |t.sent| && t.sent[k].flow == m) <==>
                exists f :: 0 <= f < |filters| && filters[f](Parse(e, raws[m]).value))
  {
    hide Parse, TryFlows;
    DeletesOnce(e, raws, filters, kernel);
    var t := TryFlows(e, raws, 0, filters, kernel, NOTHING);
    var flow := Parse(e, raws[m]).value;
    if k :| 0 <= k < |t.sent| && t.sent[k].flow == m {
      assert t.sent[k] in t.sent && filters[t.sent[k].filter](flow);
    }
    if f :| 0 <= f < |filters| && filters[f](flow) {
      assert Requested(t.sent, m, f) || m in DeletedFlows(t.sent, kernel);
    }
  }

  /* ---------- the loop as it runs ---------- */

  /** `ConntrackDeleteFilters`. An interrupted dump is still worked through; any other dump error ends the call. */
  method ConntrackDeleteFilters(e: Endian, dump: Dump, filters: seq<Filter>, kernel: Kernel)
    returns (r: Deletion, sent: seq<Sent>)
    ensures dump.NoDump? ==> r == DumpError && sent == []
    ensures !dump.NoDump? ==>
              var t := TryFlows(e, dump.messages, 0, filters, kernel, NOTHING);
              && sent == t.sent
              && r == if t.panicked then Panicked else Finished(t.matched, dump.Interrupted?, t.errors)
  {
    hide Parse;
    sent := [];
    if dump.NoDump? { return DumpError, []; }
    var raws := dump.messages;
    var matched, totalFilterErrors := 0, 0;
    for i := 0 to |raws|
      invariant TryFlows(e, raws, 0, filters, kernel, NOTHING) ==
                TryFlows(e, raws, i, filters, kernel, Tally(sent, matched, totalFilterErrors, false))
    {
      var dataRaw := raws[i];
      var ok, cell, _ := ParseRawData(e, dataRaw);
      if !ok { return Panicked, sent; }
      var flow := cell.Value();
      ghost var before := Tally(sent, matched, totalFilterErrors, false);
      ghost var after := TryFilters(dataRaw, i, flow, filters, 0, kernel, before);
      var j := 0;
      while j < |filters|
        invariant 0 <= j <= |filters|
        invariant after == TryFilters(dataRaw, i, flow, filters, j, kernel, Tally(sent, matched, totalFilterErrors, false))
      {
        if filters[j](flow) {
          if |dataRaw| < 4 { return Panicked, sent; }
          var answer := kernel(|sent|);
          sent := sent + [Sent(i, j, dataRaw[4..])];
          if answer != Failed {
            matched := matched + 1;
            break;
          } else {
            totalFilterErrors := totalFilterErrors + 1;
          }
        }
        j := j + 1;
      }
      assert after == Tally(sent, matched, totalFilterErrors, false);
    }
    r := Finished(matched, dump.Interrupted?, totalFilterErrors);
  }
}
