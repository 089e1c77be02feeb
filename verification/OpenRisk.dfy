/** What the exposure limit binds on (`betting/ledger.py`, `betting/runner.py`): over a run
    with new ids every intent leaves one row, so the open exposure is everything placed and
    not settled. */
module OpenRisk {
  import opened Policy
  import opened Ledger
  import opened MoneyPlane

  ghost predicate DistinctIds(rows: seq<Entry>) {
    forall i, j :: 0 <= i < j < |rows| ==> rows[i].intentId != rows[j].intentId
  }

  /** No refused row can hide a placed one of another intent. */
  lemma DistinctIdsHideNothing(rows: seq<Entry>)
    requires DistinctIds(rows)
    ensures !HiddenByRefusal(rows)
  {
    forall p, r | p in rows && r in rows && p.intentId == r.intentId ensures p == r {
      var i :| 0 <= i < |rows| && rows[i] == p;
      var j :| 0 <= j < |rows| && rows[j] == r;
      assert i == j;
    }
  }

  ghost predicate NoRowOf(rows: seq<Entry>, id: string) {
    forall i :: 0 <= i < |rows| ==> rows[i].intentId != id
  }

  /** No two proposals would be placed under one intent id. */
  ghost predicate DistinctPrefixes(ps: seq<Proposal>) {
    forall i, j :: 0 <= i < j < |ps| ==> IntentId(ps[i].id) != IntentId(ps[j].id)
  }

  ghost predicate NoProposalOf(ps: seq<Proposal>, id: string) {
    forall i :: 0 <= i < |ps| ==> IntentId(ps[i].id) != id
  }

  /** Every intent has left at most one row, and one that may still be placed none. */
  ghost predicate OneRowEach(s: Plane) {
    && DistinctIds(s.rows) && DistinctPrefixes(s.proposals)
    && forall i :: 0 <= i < |s.proposals| && Unplaced(s.proposals[i]) ==> NoRowOf(s.rows, IntentId(s.proposals[i].id))
  }

  /** The ids that a step makes are new, the new proposal's first twelve characters included. */
  ghost predicate NewIds(s: Plane, step: Step) {
    step.ScanStep? ==>
      var id, prefix := step.scan.intentId, IntentId(step.scan.proposalId);
      && id != prefix
      && NoRowOf(s.rows, id) && NoProposalOf(s.proposals, id)
      && NoRowOf(s.rows, prefix) && NoProposalOf(s.proposals, prefix)
  }

  lemma PrefixesAreIds(ps: seq<Proposal>)
    requires DistinctPrefixes(ps)
    ensures UniqueIds(ps)
  {
  }

  lemma QuietStepsKeepRows(s: Plane, qs: seq<Proposal>)
    requires OneRowEach(s) && |qs| == |s.proposals|
    requires forall i :: 0 <= i < |qs| ==>
               qs[i].id == s.proposals[i].id && (Unplaced(qs[i]) ==> Unplaced(s.proposals[i]))
    ensures OneRowEach(s.(proposals := qs))
  {
    hide DistinctIds, NoRowOf, IntentId;
  }

  /** An approved proposal leaves its one row and can then not be placed again. */
  lemma PlaceOneKeepsRows(p: BettingPolicy, s: Plane, i: nat, a: Answers, now: Instant)
    requires OneRowEach(s) && i < |s.proposals| && s.proposals[i].state == Approved
    ensures var t := PlaceOne(p, s, i, a, now);
            && OneRowEach(t)
            && |t.proposals| == |s.proposals| && t.proposals == s.proposals[i := t.proposals[i]]
            && t.proposals[i] == s.proposals[i].(state := t.proposals[i].state)
            && t.proposals[i].state in {Done, Failed}
  {
    var q := s.proposals[i];
    var row := RowOf(AsPlacingPolicy(p, q.book), IntentOf(q), a, now, s.rows);
    assert row.intentId == IntentId(q.id);
    hide RowOf, SentFor, IntentId, FirstWithId;
    PrefixesAreIds(s.proposals);
    OutcomeTouchesOne(s.proposals, i, row.status == Placed);
    assert NoRowOf(s.rows, IntentId(q.id));
  }

  lemma {:induction false} PlaceAllKeepsRows(p: BettingPolicy, s: Plane, selected: seq<nat>, visits: nat -> Visit)
    requires OneRowEach(s)
    requires InRange(selected, |s.proposals|) && AllApproved(s.proposals, selected) && Increasing(selected)
    ensures OneRowEach(PlaceAll(p, s, selected, visits))
    ensures Decided(s.proposals, PlaceAll(p, s, selected, visits).proposals, selected)
    decreases |selected|
  {
    if selected != [] {
      hide PlaceOne, OneRowEach, Decided, AllApproved, Increasing, InRange;
      var n := |selected| - 1;
      var front, i := selected[..n], selected[n];
      LastSelected(s.proposals, selected);
      PlaceAllKeepsRows(p, s, front, visits);
      var before := PlaceAll(p, s, front, visits);
      Untouched(s.proposals, before.proposals, front, i);
      PlaceOneKeepsRows(p, before, i, visits(n).answers, visits(n).now);
      DecidedStep(s.proposals, before.proposals,
                  PlaceOne(p, before, i, visits(n).answers, visits(n).now).proposals, front, i);
    }
  }

  lemma ScanKeepsRows(p: BettingPolicy, s: Plane, scan: Scan, a: Answers, now: Instant)
    requires OneRowEach(s) && NewIds(s, ScanStep(scan, a, now))
    ensures OneRowEach(RunScan(p, s, scan, a, now))
  {
    if scan.best.Some? && scan.buildable {
      var row := RowOf(p, ScanIntent(p, scan), a, now, s.rows);
      assert row.intentId == scan.intentId;
      hide RowOf, SentFor, DecideOn, IntentId;
    }
  }

  lemma StepKeepsRows(p: BettingPolicy, s: Plane, step: Step)
    requires OneRowEach(s) && NewIds(s, step)
    ensures OneRowEach(Next(p, s, step))
  {
    hide RunScan, PlaceAll, OneRowEach, NewIds;
    match step {
      case ScanStep(scan, a, now) =>
        ScanKeepsRows(p, s, scan, a, now);
      case Approve(prefix, now) =>
        QuietStepsKeepRows(s, ApproveIn(s.proposals, prefix, now));
      case Reject(prefix) =>
        QuietStepsKeepRows(s, RejectIn(s.proposals, prefix));
      case ShowPending(now) =>
        QuietStepsKeepRows(s, ExpireAll(s.proposals, Pending, now));
      case PlaceApproved(visits, now) =>
        QuietStepsKeepRows(s, Expiring(s, now).proposals);
        TakenAreLive(s, now);
        PlaceAllKeepsRows(p, Expiring(s, now), Takes(s, now), visits);
    }
  }

  lemma {:induction false} OneRowEachThroughout(p: BettingPolicy, states: seq<Plane>, steps: seq<Step>, k: nat)
    requires IsRun(p, states, steps) && k < |states| && OneRowEach(states[0])
    requires forall j :: 0 <= j < |steps| ==> NewIds(states[j], steps[j])
    ensures OneRowEach(states[k])
  {
    hide Next, OneRowEach, NewIds;
    if k > 0 {
      OneRowEachThroughout(p, states, steps, k - 1);
      StepKeepsRows(p, states[k - 1], steps[k - 1]);
      assert states[k - 1 + 1] == Next(p, states[k - 1], steps[k - 1]);
    }
  }

  /** Over any run with new ids the limit on the open exposure is a limit on everything
      placed and not settled. */
  lemma RiskIsCapped(p: BettingPolicy, states: seq<Plane>, steps: seq<Step>, k: nat)
    requires IsRun(p, states, steps) && k < |states|
    requires WithinCaps(p, states[0].rows) && OneRowEach(states[0])
    requires forall j :: 0 <= j < |steps| ==> NewIds(states[j], steps[j])
    ensures !HiddenByRefusal(states[k].rows)
    ensures AtRisk(states[k].rows) == OpenExposure(states[k].rows) <= p.maxOpenExposure
  {
    hide Next, NewIds, HiddenByRefusal, OpenExposure, AtRisk;
    CapsHold(p, states, steps, k);
    OneRowEachThroughout(p, states, steps, k);
    DistinctIdsHideNothing(states[k].rows);
    ExposureIsAtRisk(states[k].rows);
  }
}
