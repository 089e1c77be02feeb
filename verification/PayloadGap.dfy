/** Two stakes for one bet: the bookmaker is sent the sized stake (`betting/runner.py`),
    the ledger records the stake trimmed to the budgets (`betting/policy.py`). How far the
    two can drift apart in a day. */
module PayloadGap {
  import opened Wrappers
  import opened Policy
  import opened Ledger
  import opened MoneyPlane

  /** What bookmakers accepted on a day, in payload stakes. */
  function PayloadOn(sent: seq<Sent>, day: int): real {
    if sent == [] then 0.0
    else
      var s := sent[|sent| - 1];
      PayloadOn(sent[..|sent| - 1], day) + if s.accepted && DayOf(s.at) == day then s.stake else 0.0
  }

  /** How much more was accepted than recorded. */
  function Excess(rows: seq<Entry>, sent: seq<Sent>, day: int): real {
    PayloadOn(sent, day) - StakedOn(rows, day)
  }

  /** Every request waiting to be placed was built at the policy's own size. */
  ghost predicate Sized(p: BettingPolicy, ps: seq<Proposal>) {
    forall q :: q in ps ==> q.payloadStake == Size(p, q.edge, q.odds)
  }

  predicate Full(p: BettingPolicy, rows: seq<Entry>, day: int) {
    StakedOn(rows, day) >= p.dailyCap || OpenExposure(rows) >= p.maxOpenExposure
  }

  /** The excess of a day is less than one maximal stake, and once there is any, a budget is
      used up. */
  predicate Gap(p: BettingPolicy, rows: seq<Entry>, sent: seq<Sent>, day: int) {
    var x := Excess(rows, sent, day);
    0.0 <= x && (x > 0.0 ==> x < p.maxStake && Full(p, rows, day))
  }

  /** From `before` to `rows` nothing was settled: the new rows are of new intents, and no
      receipt carries a settlement. */
  ghost predicate NothingSettled(before: seq<Entry>, rows: seq<Entry>) {
    && before <= rows
    && forall i :: |before| <= i < |rows| ==> !rows[i].settled && NewId(rows[..i], rows[i])
  }

  lemma SettledSplit(a: seq<Entry>, b: seq<Entry>, c: seq<Entry>)
    requires NothingSettled(a, c) && a <= b <= c
    ensures NothingSettled(a, b) && NothingSettled(b, c)
  {
    forall i | |a| <= i < |b| ensures !b[i].settled && NewId(b[..i], b[i]) {
      assert b[i] == c[i] && b[..i] == c[..i];
    }
  }

  lemma PayloadAppended(sent: seq<Sent>, more: seq<Sent>, day: int)
    requires |more| <= 1
    ensures PayloadOn(sent + more, day) ==
            PayloadOn(sent, day)
            + if |more| == 1 && more[0].accepted && DayOf(more[0].at) == day then more[0].stake else 0.0
  {
    if |more| == 1 {
      assert (sent + more)[..|sent|] == sent;
    } else {
      assert sent + more == sent;
    }
  }

  /** A placed bet's two stakes agree exactly when the sized stake fitted both budgets. */
  lemma UntrimmedAgree(p: BettingPolicy, i: Intent, a: Answers, now: Instant, rows: seq<Entry>)
    requires i.payloadStake == Size(p, i.edge, i.odds) && RowOf(p, i, a, now, rows).status == Placed
    ensures RowOf(p, i, a, now, rows).stake == i.payloadStake <==>
              && StakedOn(rows, DayOf(now)) + i.payloadStake <= p.dailyCap
              && OpenExposure(rows) + i.payloadStake <= p.maxOpenExposure
  {
  }

  /** One intent, under any policy with the same sizes and caps. */
  lemma RowKeepsGap(p: BettingPolicy, q: BettingPolicy, i: Intent, a: Answers, now: Instant, rows: seq<Entry>,
                    sent: seq<Sent>, source: Option<string>, day: int)
    requires q.dailyCap == p.dailyCap && q.maxOpenExposure == p.maxOpenExposure && p.maxStake >= 0.0
    requires Size(q, i.edge, i.odds) == Size(p, i.edge, i.odds) == i.payloadStake
    requires Gap(p, rows, sent, day)
    requires NewId(rows, RowOf(q, i, a, now, rows)) && !RowOf(q, i, a, now, rows).settled
    ensures Gap(p, rows + [RowOf(q, i, a, now, rows)], sent + SentFor(q, i, a, now, rows, source), day)
  {
    var row := RowOf(q, i, a, now, rows);
    var today := DayOf(now);
    StakeFits(q, i.book, i.edge, i.odds, now, StakedOn(rows, today), BetsOn(rows, today), OpenExposure(rows));
    PlacesExactly(q, i.book, i.edge, i.odds, now, StakedOn(rows, today), BetsOn(rows, today), OpenExposure(rows));
    Appended(rows, row, day);
    ExposureOfNewIntent(rows, row);
    PayloadAppended(sent, SentFor(q, i, a, now, rows, source), day);
  }

  ghost predicate Good(p: BettingPolicy, s: Plane, day: int) {
    Sized(p, s.proposals) && Gap(p, s.rows, s.sent, day)
  }

  lemma PlaceOneKeepsGap(p: BettingPolicy, s: Plane, i: nat, a: Answers, now: Instant, day: int)
    requires p.maxStake >= 0.0 && Good(p, s, day) && i < |s.proposals|
    requires NothingSettled(s.rows, PlaceOne(p, s, i, a, now).rows)
    ensures Good(p, PlaceOne(p, s, i, a, now), day)
  {
    var q := s.proposals[i];
    var placing := AsPlacingPolicy(p, q.book);
    var row := RowOf(placing, IntentOf(q), a, now, s.rows);
    assert q in s.proposals;
    LastRowIsNew(s.rows, row);
    RowKeepsGap(p, placing, IntentOf(q), a, now, s.rows, s.sent, Some(q.id), day);
    SizedThroughStates(p, s.proposals, RecordOutcome(s.proposals, q.id, row.status == Placed));
  }

  lemma LastRowIsNew(rows: seq<Entry>, row: Entry)
    requires NothingSettled(rows, rows + [row])
    ensures NewId(rows, row) && !row.settled
  {
    var after := rows + [row];
    assert after[..|rows|] == rows && after[|rows|] == row;
    assert !after[|rows|].settled && NewId(after[..|rows|], after[|rows|]);
  }

  lemma {:induction false} PlaceAllKeepsGap(p: BettingPolicy, s: Plane, selected: seq<nat>,
                                            visits: nat -> Visit, day: int)
    requires p.maxStake >= 0.0 && Good(p, s, day)
    requires InRange(selected, |s.proposals|)
    requires NothingSettled(s.rows, PlaceAll(p, s, selected, visits).rows)
    ensures Good(p, PlaceAll(p, s, selected, visits), day)
    decreases |selected|
  {
    if selected != [] {
      var n := |selected| - 1;
      var before := PlaceAll(p, s, selected[..n], visits);
      RowsGrow(p, s, selected[..n], visits);
      SettledSplit(s.rows, before.rows, PlaceAll(p, s, selected, visits).rows);
      PlaceAllKeepsGap(p, s, selected[..n], visits, day);
      PlaceOneKeepsGap(p, before, selected[n], visits(n).answers, visits(n).now, day);
    }
  }

  /** Each placed proposal leaves exactly one row. */
  lemma {:induction false} RowsGrow(p: BettingPolicy, s: Plane, selected: seq<nat>, visits: nat -> Visit)
    requires InRange(selected, |s.proposals|)
    ensures s.rows <= PlaceAll(p, s, selected, visits).rows
    ensures |PlaceAll(p, s, selected, visits).rows| == |s.rows| + |selected|
    decreases |selected|
  {
    if selected != [] {
      var n := |selected| - 1;
      RowsGrow(p, s, selected[..n], visits);
    }
  }

  lemma ScanKeepsGap(p: BettingPolicy, s: Plane, scan: Scan, a: Answers, now: Instant, day: int)
    requires p.maxStake >= 0.0 && Good(p, s, day)
    requires NothingSettled(s.rows, RunScan(p, s, scan, a, now).rows)
    ensures Good(p, RunScan(p, s, scan, a, now), day)
  {
    if scan.best.Some? && scan.buildable {
      LastRowIsNew(s.rows, RowOf(p, ScanIntent(p, scan), a, now, s.rows));
      RowKeepsGap(p, p, ScanIntent(p, scan), a, now, s.rows, s.sent, None, day);
    }
  }

  lemma PlacementsKeepGap(p: BettingPolicy, s: Plane, visits: nat -> Visit, now: Instant, day: int)
    requires p.maxStake >= 0.0 && Good(p, s, day)
    requires NothingSettled(s.rows, RunPlacements(p, s, visits, now).rows)
    ensures Good(p, RunPlacements(p, s, visits, now), day)
  {
    SizedThroughStates(p, s.proposals, Expiring(s, now).proposals);
    PlaceAllKeepsGap(p, Expiring(s, now), Takes(s, now), visits, day);
  }

  lemma StepKeepsGap(p: BettingPolicy, s: Plane, step: Step, day: int)
    requires p.maxStake >= 0.0 && Good(p, s, day)
    requires NothingSettled(s.rows, Next(p, s, step).rows)
    ensures Good(p, Next(p, s, step), day)
  {
    match step {
      case ScanStep(scan, a, now) =>
        ScanKeepsGap(p, s, scan, a, now, day);
      case PlaceApproved(visits, now) =>
        PlacementsKeepGap(p, s, visits, now, day);
      case Approve(prefix, now) =>
        SizedThroughStates(p, s.proposals, ApproveIn(s.proposals, prefix, now));
      case Reject(prefix) =>
        SizedThroughStates(p, s.proposals, RejectIn(s.proposals, prefix));
      case ShowPending(now) =>
        SizedThroughStates(p, s.proposals, ExpireAll(s.proposals, Pending, now));
    }
  }

  lemma SizedThroughStates(p: BettingPolicy, ps: seq<Proposal>, qs: seq<Proposal>)
    requires Sized(p, ps) && |qs| == |ps|
    requires forall i :: 0 <= i < |ps| ==> qs[i] == ps[i] || qs[i] == ps[i].(state := qs[i].state)
    ensures Sized(p, qs)
  {
    forall q | q in qs ensures q.payloadStake == Size(p, q.edge, q.odds) {
      var i :| 0 <= i < |qs| && qs[i] == q;
      assert ps[i] in ps;
    }
  }

  lemma RowsOnlyGrow(p: BettingPolicy, s: Plane, step: Step)
    ensures s.rows <= Next(p, s, step).rows
  {
    if step.PlaceApproved? {
      RowsGrow(p, Expiring(s, step.now), Takes(s, step.now), step.visits);
    }
  }

  lemma {:induction false} RowsGrowThroughout(p: BettingPolicy, states: seq<Plane>, steps: seq<Step>, k: nat)
    requires IsRun(p, states, steps) && k < |states|
    ensures states[0].rows <= states[k].rows
  {
    if k > 0 {
      RowsGrowThroughout(p, states, steps, k - 1);
      assert states[k - 1 + 1] == Next(p, states[k - 1], steps[k - 1]);
      RowsOnlyGrow(p, states[k - 1], steps[k - 1]);
    }
  }

  /** Over any run in which nothing is settled, on every day for which accepted and recorded
      stakes agreed at the start, what the bookmakers accepted exceeds what the ledger
      recorded by less than one maximal stake, and never falls short of it. */
  lemma {:induction false} ExcessIsOneStake(p: BettingPolicy, states: seq<Plane>, steps: seq<Step>, k: nat, day: int)
    requires ValidPolicy(p) && IsRun(p, states, steps) && k < |states|
    requires Sized(p, states[0].proposals) && Excess(states[0].rows, states[0].sent, day) == 0.0
    requires NothingSettled(states[0].rows, states[k].rows)
    ensures Good(p, states[k], day)
    ensures 0.0 <= Excess(states[k].rows, states[k].sent, day) <= p.maxStake
  {
    if k > 0 {
      assert states[k - 1 + 1] == Next(p, states[k - 1], steps[k - 1]);
      RowsGrowThroughout(p, states, steps, k - 1);
      RowsOnlyGrow(p, states[k - 1], steps[k - 1]);
      SettledSplit(states[0].rows, states[k - 1].rows, states[k].rows);
      ExcessIsOneStake(p, states, steps, k - 1, day);
      StepKeepsGap(p, states[k - 1], steps[k - 1], day);
    }
  }

  // ----- bets and acceptances -----

  function AcceptedOn(sent: seq<Sent>, day: int): nat {
    if sent == [] then 0
    else
      var s := sent[|sent| - 1];
      AcceptedOn(sent[..|sent| - 1], day) + if s.accepted && DayOf(s.at) == day then 1 else 0
  }

  lemma RowCountsAcceptance(p: BettingPolicy, i: Intent, a: Answers, now: Instant, rows: seq<Entry>, sent: seq<Sent>,
                            source: Option<string>, day: int)
    ensures BetsOn(rows + [RowOf(p, i, a, now, rows)], day) - BetsOn(rows, day) ==
            AcceptedOn(sent + SentFor(p, i, a, now, rows, source), day) - AcceptedOn(sent, day)
  {
    var more := SentFor(p, i, a, now, rows, source);
    Appended(rows, RowOf(p, i, a, now, rows), day);
    if |more| == 1 {
      assert (sent + more)[..|sent|] == sent;
    } else {
      assert sent + more == sent;
    }
  }

  lemma {:induction false} PlaceAllCounts(p: BettingPolicy, s: Plane, selected: seq<nat>,
                                          visits: nat -> Visit, day: int)
    requires InRange(selected, |s.proposals|)
    ensures var t := PlaceAll(p, s, selected, visits);
            BetsOn(t.rows, day) - BetsOn(s.rows, day) == AcceptedOn(t.sent, day) - AcceptedOn(s.sent, day)
    decreases |selected|
  {
    if selected != [] {
      var n := |selected| - 1;
      PlaceAllCounts(p, s, selected[..n], visits, day);
      var before := PlaceAll(p, s, selected[..n], visits);
      var q := before.proposals[selected[n]];
      RowCountsAcceptance(AsPlacingPolicy(p, q.book), IntentOf(q), visits(n).answers, visits(n).now, before.rows,
                          before.sent, Some(q.id), day);
    }
  }

  lemma StepCounts(p: BettingPolicy, s: Plane, step: Step, day: int)
    ensures var t := Next(p, s, step);
            BetsOn(t.rows, day) - BetsOn(s.rows, day) == AcceptedOn(t.sent, day) - AcceptedOn(s.sent, day)
  {
    match step {
      case ScanStep(scan, a, now) =>
        if scan.best.Some? && scan.buildable {
          RowCountsAcceptance(p, ScanIntent(p, scan), a, now, s.rows, s.sent, None, day);
        }
      case PlaceApproved(visits, now) =>
        PlaceAllCounts(p, Expiring(s, now), Takes(s, now), visits, day);
      case _ =>
    }
  }

  /** Over any run and for every day, the bets the ledger counts are the placement calls the
      bookmakers accepted. */
  lemma {:induction false} BetsAreAcceptances(p: BettingPolicy, states: seq<Plane>, steps: seq<Step>, k: nat, day: int)
    requires IsRun(p, states, steps) && k < |states|
    ensures BetsOn(states[k].rows, day) - BetsOn(states[0].rows, day) ==
            AcceptedOn(states[k].sent, day) - AcceptedOn(states[0].sent, day)
  {
    if k > 0 {
      BetsAreAcceptances(p, states, steps, k - 1, day);
      assert states[k - 1 + 1] == Next(p, states[k - 1], steps[k - 1]);
      StepCounts(p, states[k - 1], steps[k - 1], day);
    }
  }
}
