/** The edge of every bet placed over a run (`betting/scanner.py`, `betting/policy.py`,
    `betting/drift.py`, `betting/execute.py`): each placed row goes back to a scan, and keeps
    against the field of that scan the edge which the floor and the drift tolerance leave. */
module PlacedEdges {
  import opened Wrappers
  import opened Scanner
  import opened Policy
  import opened Ledger
  import opened MoneyPlane

  /** The candidate's edge is its price's edge over its own field. */
  predicate Scored(p: BettingPolicy, c: Candidate) {
    EdgeOf(c.odds, c.consensus, p.basis, p.assumedOverround) == Some(c.edge)
  }

  /** What a scan of a comparison acts on is so scored. */
  lemma CandidatesAreScored(p: BettingPolicy, board: seq<Quote>, sorted: seq<Candidate>, books: Option<set<string>>)
    requires Board(board) && BestFirst(board, sorted, p.basis, p.assumedOverround, books)
    ensures forall c :: c in sorted ==> Scored(p, c)
  {
    forall c | c in sorted ensures Scored(p, c) {
      assert ScoredUpTo(board, |board|, c, p.basis, p.assumedOverround, books);
    }
  }

  /** Step `j` is a scan that acts on `c`. */
  predicate ScanOf(step: Step, c: Candidate) {
    step.ScanStep? && step.scan.best == Some(c)
  }

  ghost predicate AllScored(p: BettingPolicy, steps: seq<Step>) {
    forall j :: 0 <= j < |steps| && steps[j].ScanStep? && steps[j].scan.best.Some? ==>
      Scored(p, steps[j].scan.best.value)
  }

  /** One of the first `m` steps is a scan with these terms. */
  ghost predicate Origin(steps: seq<Step>, m: nat, book: string, odds: real, edge: real)
    requires m <= |steps|
  {
    exists j, c :: 0 <= j < m && ScanOf(steps[j], c) && c.book == book && c.odds == odds && c.edge == edge
  }

  ghost predicate FromScans(steps: seq<Step>, m: nat, ps: seq<Proposal>)
    requires m <= |steps|
  {
    forall i :: 0 <= i < |ps| ==> Origin(steps, m, ps[i].book, ps[i].odds, ps[i].edge)
  }

  /** At the price of the row, the edge over that field is what the policy leaves. */
  predicate KeepsEdge(p: BettingPolicy, row: Entry, consensus: real) {
    var e := EdgeOf(row.odds, consensus, p.basis, p.assumedOverround);
    e.Some? && e.value >= (1.0 + p.minEv) * Worst(p.maxPriceDrift) - 1.0
  }

  /** One of the first `m` steps is a scan whose candidate this row is a bet on, still with
      its edge. */
  ghost predicate Backed(p: BettingPolicy, steps: seq<Step>, m: nat, row: Entry)
    requires m <= |steps|
  {
    exists j, c :: 0 <= j < m && ScanOf(steps[j], c) && c.book == row.book && c.edge == row.edge
                   && KeepsEdge(p, row, c.consensus)
  }

  ghost predicate AllBacked(p: BettingPolicy, steps: seq<Step>, m: nat, rows: seq<Entry>, base: nat)
    requires m <= |steps|
  {
    forall i :: base <= i < |rows| && rows[i].status == Placed ==> Backed(p, steps, m, rows[i])
  }

  lemma LaterIsFine(p: BettingPolicy, steps: seq<Step>, m: nat, s: Plane, base: nat)
    requires m < |steps| && FromScans(steps, m, s.proposals) && AllBacked(p, steps, m, s.rows, base)
    ensures FromScans(steps, m + 1, s.proposals) && AllBacked(p, steps, m + 1, s.rows, base)
  {
    hide ScanOf, KeepsEdge;
  }

  /** The policy leaves a floor: the tolerance is at most the whole price, or the floor is no
      lower than losing the stake. */
  predicate Floored(p: BettingPolicy) {
    p.maxPriceDrift <= 1.0 || p.minEv >= -1.0
  }

  predicate SameTests(p: BettingPolicy, q: BettingPolicy) {
    q.basis == p.basis && q.assumedOverround == p.assumedOverround && q.minEv == p.minEv
    && q.maxPriceDrift == p.maxPriceDrift
  }

  lemma RowIsBacked(p: BettingPolicy, q: BettingPolicy, steps: seq<Step>, m: nat, i: Intent, a: Answers, now: Instant,
                    rows: seq<Entry>)
    requires m <= |steps| && AllScored(p, steps) && Floored(p) && SameTests(p, q)
    requires Origin(steps, m, i.book, i.odds, i.edge)
    ensures var row := RowOf(q, i, a, now, rows);
            row.status == Placed ==> Backed(p, steps, m, row)
  {
    hide EdgeOf, Worst, PriceGate, DecideOn, Sends;
    var row := RowOf(q, i, a, now, rows);
    if row.status == Placed {
      var j, c :| 0 <= j < m && ScanOf(steps[j], c) && c.book == i.book && c.odds == i.odds && c.edge == i.edge;
      assert Scored(p, c);
      PlacedEdge(q, i, a, now, rows, c.consensus);
      assert KeepsEdge(p, row, c.consensus);
    }
  }

  lemma RowAdded(p: BettingPolicy, steps: seq<Step>, m: nat, rows: seq<Entry>, row: Entry, base: nat)
    requires m <= |steps| && AllBacked(p, steps, m, rows, base)
    requires row.status == Placed ==> Backed(p, steps, m, row)
    ensures AllBacked(p, steps, m, rows + [row], base)
  {
    hide Backed;
  }

  lemma TermsStay(steps: seq<Step>, m: nat, ps: seq<Proposal>, qs: seq<Proposal>)
    requires m <= |steps| && FromScans(steps, m, ps) && SameTerms(ps, qs)
    ensures FromScans(steps, m, qs)
  {
    hide Origin;
  }

  lemma PlaceOneIsBacked(p: BettingPolicy, steps: seq<Step>, m: nat, s: Plane, i: nat, a: Answers, now: Instant,
                       base: nat)
    requires m <= |steps| && AllScored(p, steps) && Floored(p) && i < |s.proposals|
    requires FromScans(steps, m, s.proposals) && AllBacked(p, steps, m, s.rows, base)
    ensures var t := PlaceOne(p, s, i, a, now);
            FromScans(steps, m, t.proposals) && AllBacked(p, steps, m, t.rows, base)
  {
    hide RowOf, SentFor, Origin, Backed, AllScored, FirstWithId;
    var q := s.proposals[i];
    var placing := AsPlacingPolicy(p, q.book);
    var row := RowOf(placing, IntentOf(q), a, now, s.rows);
    RowIsBacked(p, placing, steps, m, IntentOf(q), a, now, s.rows);
    RowAdded(p, steps, m, s.rows, row, base);
    TermsStay(steps, m, s.proposals, RecordOutcome(s.proposals, q.id, row.status == Placed));
  }

  lemma {:induction false} PlaceAllIsBacked(p: BettingPolicy, steps: seq<Step>, m: nat, s: Plane, selected: seq<nat>,
                                            visits: nat -> Visit, base: nat)
    requires m <= |steps| && AllScored(p, steps) && Floored(p) && InRange(selected, |s.proposals|)
    requires FromScans(steps, m, s.proposals) && AllBacked(p, steps, m, s.rows, base)
    ensures var t := PlaceAll(p, s, selected, visits);
            FromScans(steps, m, t.proposals) && AllBacked(p, steps, m, t.rows, base)
    decreases |selected|
  {
    hide PlaceOne, FromScans, AllBacked, AllScored;
    if selected != [] {
      var n := |selected| - 1;
      PlaceAllIsBacked(p, steps, m, s, selected[..n], visits, base);
      PlaceOneIsBacked(p, steps, m, PlaceAll(p, s, selected[..n], visits), selected[n], visits(n).answers,
                       visits(n).now, base);
    }
  }

  lemma ScanIsBacked(p: BettingPolicy, steps: seq<Step>, m: nat, s: Plane, base: nat)
    requires m < |steps| && steps[m].ScanStep? && AllScored(p, steps) && Floored(p)
    requires FromScans(steps, m + 1, s.proposals) && AllBacked(p, steps, m + 1, s.rows, base)
    ensures var t := Next(p, s, steps[m]);
            FromScans(steps, m + 1, t.proposals) && AllBacked(p, steps, m + 1, t.rows, base)
  {
    hide RowOf, SentFor, DecideOn, Backed, AllScored, Size;
    var scan, a, now := steps[m].scan, steps[m].answers, steps[m].now;
    if scan.best.Some? && scan.buildable {
      var i := ScanIntent(p, scan);
      assert ScanOf(steps[m], scan.best.value);
      assert Origin(steps, m + 1, i.book, i.odds, i.edge);
      RowIsBacked(p, p, steps, m + 1, i, a, now, s.rows);
      RowAdded(p, steps, m + 1, s.rows, RowOf(p, i, a, now, s.rows), base);
    }
  }

  lemma StepIsBacked(p: BettingPolicy, steps: seq<Step>, m: nat, s: Plane, base: nat)
    requires m < |steps| && AllScored(p, steps) && Floored(p)
    requires FromScans(steps, m, s.proposals) && AllBacked(p, steps, m, s.rows, base)
    ensures var t := Next(p, s, steps[m]);
            FromScans(steps, m + 1, t.proposals) && AllBacked(p, steps, m + 1, t.rows, base)
  {
    hide FromScans, AllBacked, AllScored, RunScan, PlaceAll;
    LaterIsFine(p, steps, m, s, base);
    match steps[m] {
      case ScanStep(_, _, _) =>
        ScanIsBacked(p, steps, m, s, base);
      case PlaceApproved(visits, now) =>
        TermsStay(steps, m + 1, s.proposals, Expiring(s, now).proposals);
        PlaceAllIsBacked(p, steps, m + 1, Expiring(s, now), Takes(s, now), visits, base);
      case Approve(prefix, now) =>
        TermsStay(steps, m + 1, s.proposals, ApproveIn(s.proposals, prefix, now));
      case Reject(prefix) =>
        TermsStay(steps, m + 1, s.proposals, RejectIn(s.proposals, prefix));
      case ShowPending(now) =>
        TermsStay(steps, m + 1, s.proposals, ExpireAll(s.proposals, Pending, now));
    }
  }

  /** Over any run that starts without proposals and whose scans score their candidates
      against their own fields: every row placed during the run, at once or after approval,
      is a bet on a candidate of an earlier scan, at a price that keeps over that scan's
      field the edge which the floor and the tolerance leave. */
  lemma {:induction false} EveryPlacementKeepsItsEdge(p: BettingPolicy, states: seq<Plane>, steps: seq<Step>, k: nat)
    requires IsRun(p, states, steps) && k < |states| && states[0].proposals == []
    requires AllScored(p, steps) && Floored(p)
    ensures FromScans(steps, k, states[k].proposals)
    ensures AllBacked(p, steps, k, states[k].rows, |states[0].rows|)
  {
    hide Next, FromScans, AllBacked, AllScored;
    if k > 0 {
      EveryPlacementKeepsItsEdge(p, states, steps, k - 1);
      StepIsBacked(p, steps, k - 1, states[k - 1], |states[0].rows|);
      assert states[k - 1 + 1] == Next(p, states[k - 1], steps[k - 1]);
    } else {
      NothingToBack(p, steps, states[0]);
    }
  }

  lemma NothingToBack(p: BettingPolicy, steps: seq<Step>, s: Plane)
    requires s.proposals == []
    ensures FromScans(steps, 0, s.proposals) && AllBacked(p, steps, 0, s.rows, |s.rows|)
  {
  }
}
