/** When a proposal is executed and when it expires (`betting/approvals.py`,
    `betting/runner.py`). A batch looks at the expiry once, when it selects, and each of its
    intents reads its own clock later. */
module Expiry {
  import opened Wrappers
  import opened Scanner
  import opened Policy
  import opened MoneyPlane

  /** The placement calls of a batch, proposal by proposal: none or one for each. */
  function BatchCalls(p: BettingPolicy, s: Plane, selected: seq<nat>, visits: nat -> Visit): (calls: seq<seq<Sent>>)
    requires InRange(selected, |s.proposals|)
    ensures |calls| == |selected|
    decreases |selected|
  {
    if selected == [] then []
    else
      var n := |selected| - 1;
      var before := PlaceAll(p, s, selected[..n], visits);
      var q := before.proposals[selected[n]];
      BatchCalls(p, s, selected[..n], visits)
      + [SentFor(AsPlacingPolicy(p, q.book), IntentOf(q), visits(n).answers, visits(n).now, before.rows, Some(q.id))]
  }

  function Concat(calls: seq<seq<Sent>>): seq<Sent> {
    if calls == [] then [] else Concat(calls[..|calls| - 1]) + calls[|calls| - 1]
  }

  lemma {:induction false} InConcat(calls: seq<seq<Sent>>)
    ensures forall c :: c in Concat(calls) ==> exists n :: 0 <= n < |calls| && c in calls[n]
    ensures forall n, c :: 0 <= n < |calls| && c in calls[n] ==> c in Concat(calls)
  {
    if calls != [] {
      var m := |calls| - 1;
      InConcat(calls[..m]);
      forall c | c in Concat(calls) ensures exists n :: 0 <= n < |calls| && c in calls[n] {
        if c in Concat(calls[..m]) {
          var n :| 0 <= n < m && c in calls[..m][n];
          assert c in calls[n];
        } else {
          assert c in calls[m];
        }
      }
    }
  }

  /** At most one call, for that proposal and at that time. */
  predicate OneCall(calls: seq<Sent>, id: string, at: Instant) {
    |calls| <= 1 && forall c :: c in calls ==> c.proposal == Some(id) && c.at == at
  }

  lemma PlaceOneSent(p: BettingPolicy, s: Plane, i: nat, a: Answers, now: Instant)
    requires i < |s.proposals|
    ensures var q := s.proposals[i];
            var more := SentFor(AsPlacingPolicy(p, q.book), IntentOf(q), a, now, s.rows, Some(q.id));
            PlaceOne(p, s, i, a, now).sent == s.sent + more && OneCall(more, q.id, now)
  {
    hide DecideOn, Sends, RowOf;
  }

  /** `sent` is what was sent before and, for each proposal of the batch that gets through,
      one call at that proposal's own time. */
  ghost predicate SentAre(s: Plane, selected: seq<nat>, visits: nat -> Visit, calls: seq<seq<Sent>>, sent: seq<Sent>)
    requires InRange(selected, |s.proposals|)
  {
    && |calls| == |selected|
    && sent == s.sent + Concat(calls)
    && forall n :: 0 <= n < |selected| ==> OneCall(calls[n], s.proposals[selected[n]].id, visits(n).now)
  }

  lemma {:induction false} BatchSends(p: BettingPolicy, s: Plane, selected: seq<nat>, visits: nat -> Visit)
    requires SentOnce(s)
    requires InRange(selected, |s.proposals|) && AllApproved(s.proposals, selected) && Increasing(selected)
    ensures SentAre(s, selected, visits, BatchCalls(p, s, selected, visits), PlaceAll(p, s, selected, visits).sent)
    decreases |selected|
  {
    if selected == [] {
      assert s.sent + [] == s.sent;
    } else {
      hide PlaceAll, BatchCalls, SentOnce, Decided, AllApproved, Increasing, SentAre, OneCall;
      var m := |selected| - 1;
      var front := selected[..m];
      LastSelected(s.proposals, selected);
      BatchSends(p, s, front, visits);
      PlaceAllSendsOnce(p, s, front, visits);
      Untouched(s.proposals, PlaceAll(p, s, front, visits).proposals, front, selected[m]);
      LastCalls(p, s, selected, visits);
      OneMoreSent(s, selected, visits, BatchCalls(p, s, selected, visits), PlaceAll(p, s, front, visits).sent);
    }
  }

  lemma OneMoreSent(s: Plane, selected: seq<nat>, visits: nat -> Visit, calls: seq<seq<Sent>>, sent: seq<Sent>)
    requires selected != [] && InRange(selected, |s.proposals|) && |calls| == |selected|
    requires SentAre(s, selected[..|selected| - 1], visits, calls[..|selected| - 1], sent)
    requires OneCall(calls[|selected| - 1], s.proposals[selected[|selected| - 1]].id, visits(|selected| - 1).now)
    ensures SentAre(s, selected, visits, calls, sent + calls[|selected| - 1])
  {
    hide OneCall;
    ConcatLast(s.sent, calls);
  }

  lemma ConcatLast(sent: seq<Sent>, calls: seq<seq<Sent>>)
    requires calls != []
    ensures sent + Concat(calls) == sent + Concat(calls[..|calls| - 1]) + calls[|calls| - 1]
  {
    Assoc(sent, Concat(calls[..|calls| - 1]), calls[|calls| - 1]);
  }

  lemma Assoc(a: seq<Sent>, b: seq<Sent>, c: seq<Sent>)
    ensures a + b + c == a + (b + c)
  {
  }

  /** The last proposal of a batch. */
  lemma LastCalls(p: BettingPolicy, s: Plane, selected: seq<nat>, visits: nat -> Visit)
    requires selected != [] && InRange(selected, |s.proposals|)
    ensures var m, calls := |selected| - 1, BatchCalls(p, s, selected, visits);
            var before := PlaceAll(p, s, selected[..m], visits);
            && calls[..m] == BatchCalls(p, s, selected[..m], visits)
            && PlaceAll(p, s, selected, visits).sent == before.sent + calls[m]
            && OneCall(calls[m], before.proposals[selected[m]].id, visits(m).now)
  {
    hide PlaceOne, SentFor, OneCall;
    var m := |selected| - 1;
    PlaceOneSent(p, PlaceAll(p, s, selected[..m], visits), selected[m], visits(m).answers, visits(m).now);
  }

  // ----- expired proposals -----

  /** No proposal was sent to a bookmaker after it expired. */
  ghost predicate NoneSentLate(s: Plane) {
    forall c, i :: c in s.sent && 0 <= i < |s.proposals| && c.proposal == Some(s.proposals[i].id) ==>
      !IsExpired(s.proposals[i], c.at)
  }

  /** The batch sends the `n`-th of the proposals that it takes up. */
  predicate SendsNth(p: BettingPolicy, s: Plane, visits: nat -> Visit, now: Instant, n: nat)
    requires n < |Takes(s, now)|
  {
    BatchCalls(p, Expiring(s, now), Takes(s, now), visits)[n] != []
  }

  /** Whenever a batch makes a placement call, its clock is still before that proposal's
      expiry. */
  ghost predicate OnTime(p: BettingPolicy, s: Plane, step: Step) {
    step.PlaceApproved? ==>
      forall n :: 0 <= n < |Takes(s, step.now)| && SendsNth(p, s, step.visits, step.now, n) ==>
        step.visits(n).now < s.proposals[Takes(s, step.now)[n]].expiresAt
  }

  lemma {:induction false} NeverCalled(sent: seq<Sent>, id: string)
    requires Calls(sent, id) == 0
    ensures forall c :: c in sent ==> c.proposal != Some(id)
  {
    if sent != [] {
      NeverCalled(sent[..|sent| - 1], id);
      assert forall c :: c in sent ==> c in sent[..|sent| - 1] || c == sent[|sent| - 1];
    }
  }

  lemma BatchOnTime(p: BettingPolicy, s: Plane, visits: nat -> Visit, now: Instant)
    requires SentOnce(s)
    ensures NoneSentLate(RunPlacements(p, s, visits, now)) <==>
              NoneSentLate(s) && OnTime(p, s, PlaceApproved(visits, now))
  {
    hide SentOnce, PlaceAll, Live, BatchCalls, SentAre;
    PlacementsSendOnce(p, s, visits, now);
    TakenAreLive(s, now);
    BatchSends(p, Expiring(s, now), Takes(s, now), visits);
    SameBatch(s, now, Takes(s, now), BatchCalls(p, Expiring(s, now), Takes(s, now), visits), visits,
              RunPlacements(p, s, visits, now).sent);
    LateExactly(s, RunPlacements(p, s, visits, now), Takes(s, now),
                BatchCalls(p, Expiring(s, now), Takes(s, now), visits), visits);
  }

  /** Marking expiry changes nothing that the calls of a batch depend on. */
  lemma SameBatch(s: Plane, now: Instant, selected: seq<nat>, calls: seq<seq<Sent>>, visits: nat -> Visit,
                  sent: seq<Sent>)
    requires InRange(selected, |s.proposals|) && SentAre(Expiring(s, now), selected, visits, calls, sent)
    ensures SentAre(s, selected, visits, calls, sent)
  {
    hide OneCall;
  }

  /** The proposals of a batch, the calls made for them and when. */
  lemma LateExactly(s: Plane, t: Plane, selected: seq<nat>, calls: seq<seq<Sent>>, visits: nat -> Visit)
    requires SentOnce(s) && InRange(selected, |s.proposals|)
    requires SameTerms(s.proposals, t.proposals) && SentAre(s, selected, visits, calls, t.sent)
    ensures NoneSentLate(t) <==>
              && NoneSentLate(s)
              && forall n :: 0 <= n < |calls| && calls[n] != [] ==> visits(n).now < s.proposals[selected[n]].expiresAt
  {
    hide SentOnce, Concat;
    InConcat(calls);
    if NoneSentLate(t) {
      forall c, i | c in s.sent && 0 <= i < |s.proposals| && c.proposal == Some(s.proposals[i].id)
        ensures !IsExpired(s.proposals[i], c.at)
      {
        assert c in t.sent && c.proposal == Some(t.proposals[i].id);
      }
      forall n | 0 <= n < |calls| && calls[n] != [] ensures visits(n).now < s.proposals[selected[n]].expiresAt {
        var c := calls[n][0];
        assert c in calls[n] && c in t.sent && c.proposal == Some(t.proposals[selected[n]].id);
      }
    }
    if NoneSentLate(s) &&
       forall n :: 0 <= n < |calls| && calls[n] != [] ==> visits(n).now < s.proposals[selected[n]].expiresAt {
      forall c, i | c in t.sent && 0 <= i < |t.proposals| && c.proposal == Some(t.proposals[i].id)
        ensures !IsExpired(t.proposals[i], c.at)
      {
        if c in s.sent {
          assert c.proposal == Some(s.proposals[i].id);
        } else {
          var n :| 0 <= n < |calls| && c in calls[n];
          SameProposal(s, selected[n], i);
        }
      }
    }
  }

  lemma SameProposal(s: Plane, i: nat, j: nat)
    requires SentOnce(s) && i < |s.proposals| && j < |s.proposals| && s.proposals[i].id == s.proposals[j].id
    ensures i == j
  {
  }

  lemma ScanOnTime(p: BettingPolicy, s: Plane, scan: Scan, a: Answers, now: Instant)
    requires SentOnce(s) && forall i :: 0 <= i < |s.proposals| ==> s.proposals[i].id != scan.proposalId
    ensures NoneSentLate(RunScan(p, s, scan, a, now)) <==> NoneSentLate(s)
  {
    var t := RunScan(p, s, scan, a, now);
    if scan.best.Some? && scan.buildable {
      hide RowOf, DecideOn, Sends;
      var more := SentFor(p, ScanIntent(p, scan), a, now, s.rows, None);
      assert t.sent == s.sent + more && (forall c :: c in more ==> c.proposal == None);
      assert Calls(s.sent, scan.proposalId) == 0;
      NeverCalled(s.sent, scan.proposalId);
      MoreIsIrrelevant(s, t, more);
    }
  }

  lemma MoreIsIrrelevant(s: Plane, t: Plane, more: seq<Sent>)
    requires t.sent == s.sent + more && forall c :: c in more ==> c.proposal == None
    requires s.proposals <= t.proposals
    requires forall c, i :: c in s.sent && |s.proposals| <= i < |t.proposals| ==> c.proposal != Some(t.proposals[i].id)
    ensures NoneSentLate(t) <==> NoneSentLate(s)
  {
    if NoneSentLate(t) {
      forall c, i | c in s.sent && 0 <= i < |s.proposals| && c.proposal == Some(s.proposals[i].id)
        ensures !IsExpired(s.proposals[i], c.at)
      {
        assert c in t.sent && t.proposals[i] == s.proposals[i];
      }
    }
    if NoneSentLate(s) {
      forall c, i | c in t.sent && 0 <= i < |t.proposals| && c.proposal == Some(t.proposals[i].id)
        ensures !IsExpired(t.proposals[i], c.at)
      {
        assert c in s.sent;
        assert i < |s.proposals| && t.proposals[i] == s.proposals[i];
      }
    }
  }

  lemma QuietOnTime(s: Plane, qs: seq<Proposal>)
    requires SameTerms(s.proposals, qs)
    ensures NoneSentLate(s.(proposals := qs)) <==> NoneSentLate(s)
  {
    forall c, i | c in s.sent && 0 <= i < |qs|
      ensures c.proposal == Some(qs[i].id) <==> c.proposal == Some(s.proposals[i].id)
    {
    }
  }

  lemma StepOnTime(p: BettingPolicy, s: Plane, step: Step)
    requires SentOnce(s) && FreshProposal(s, step)
    ensures NoneSentLate(Next(p, s, step)) <==> NoneSentLate(s) && OnTime(p, s, step)
  {
    hide RunScan, RunPlacements, SentOnce, NoneSentLate;
    match step {
      case ScanStep(scan, a, now) =>
        ScanOnTime(p, s, scan, a, now);
      case Approve(prefix, now) =>
        QuietOnTime(s, ApproveIn(s.proposals, prefix, now));
      case Reject(prefix) =>
        QuietOnTime(s, RejectIn(s.proposals, prefix));
      case ShowPending(now) =>
        QuietOnTime(s, ExpireAll(s.proposals, Pending, now));
      case PlaceApproved(visits, now) =>
        BatchOnTime(p, s, visits, now);
    }
  }

  /** Over any run: no expired proposal is ever sent to a bookmaker if and only if every batch
      reads, for each proposal that it sends, a clock before that proposal's expiry. */
  lemma {:induction false} NeverExpiredExactly(p: BettingPolicy, states: seq<Plane>, steps: seq<Step>, k: nat)
    requires IsFreshRun(p, states, steps) && k < |states| && NoneSentLate(states[0])
    ensures NoneSentLate(states[k]) <==> forall j :: 0 <= j < k ==> OnTime(p, states[j], steps[j])
  {
    hide Next, NoneSentLate, OnTime, SentOnce;
    if k > 0 {
      NeverExpiredExactly(p, states, steps, k - 1);
      SentOnceThroughout(p, states, steps, k - 1);
      StepOnTime(p, states[k - 1], steps[k - 1]);
      assert states[k - 1 + 1] == Next(p, states[k - 1], steps[k - 1]);
    }
  }

  /** A batch whose intents read no later clock than its selection is on time. */
  lemma OneClockIsOnTime(p: BettingPolicy, s: Plane, visits: nat -> Visit, now: Instant)
    requires forall n :: 0 <= n < |Takes(s, now)| ==> visits(n).now <= now
    ensures OnTime(p, s, PlaceApproved(visits, now))
  {
    TakenAreLive(s, now);
  }

  const TENS := BettingPolicy(
    Auto, map[], 0.0, Flat, 10.0, 0.25, 100.0, 10.0, 100.0, 100.0, 10, {}, None, 0.1, Relative, 0.0, false)

  /** A proposal that expires at 5, approved. */
  const SOON := Proposal("a", "tab", 2.0, 0.1, 10.0, 10.0, false, false, 5, Approved)

  const AGREES := Answers(false, QuoteRaises, CheckRaises, Says(true, false))

  lemma SendsTen(at: Instant)
    ensures SentFor(AsPlacingPolicy(TENS, "tab"), IntentOf(SOON), AGREES, at, [], Some("a")) ==
            [Sent(Some("a"), at, 10.0, true)]
  {
    assert DecideOn(AsPlacingPolicy(TENS, "tab"), IntentOf(SOON), at, []).verdict == PLACE;
  }

  lemma TakesSoon()
    ensures var s := Plane([], [SOON], []);
            SentOnce(s) && Takes(s, 0) == [0] && Expiring(s, 0) == s
  {
    assert Live([SOON], Approved, 0, 0) == [];
    assert Live([SOON], Approved, 0, 1) == [0];
    hide Live;
  }

  /** It is selected at 0 and sent at 10. */
  lemma ExpiresInMidBatch()
    ensures var s := Plane([], [SOON], []);
            var visits: nat -> Visit := _ => Visit(AGREES, 10);
            && SentOnce(s)
            && RunPlacements(TENS, s, visits, 0).sent == [Sent(Some("a"), 10, 10.0, true)]
            && !NoneSentLate(RunPlacements(TENS, s, visits, 0))
  {
    var s := Plane([], [SOON], []);
    var visits: nat -> Visit := _ => Visit(AGREES, 10);
    TakesSoon();
    SendsTen(10);
    hide SentFor, RowOf, Live, ExpireAll, SentOnce, AsPlacingPolicy;
    assert [0][..0] == [] && PlaceAll(TENS, s, [], visits) == s;
    assert BatchCalls(TENS, s, [0], visits) == [[Sent(Some("a"), 10, 10.0, true)]];
    assert SendsNth(TENS, s, visits, 0, 0);
    BatchOnTime(TENS, s, visits, 0);
  }
}
