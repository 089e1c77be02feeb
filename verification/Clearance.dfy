/** What a bet has to pass before a bookmaker is asked to place it (`betting/execute.py`), said
    of one intent and of every placement call of a run, and what each step does to the
    proposals on file (`betting/approvals.py`). */
module Clearance {
  import opened Wrappers
  import opened Scanner
  import opened Policy
  import opened Ledger
  import opened MoneyPlane

  /** The decision that the policy makes on the day's rows. */
  function Ruling(p: BettingPolicy, i: Intent, now: Instant, rows: seq<Entry>): Decision {
    Decide(p, i.book, i.edge, i.odds, now, StakedOn(rows, now / DAY), BetsOn(rows, now / DAY), OpenExposure(rows))
  }

  /** The book was asked for its price, gave it, and it could be read. */
  predicate Quoted(i: Intent, a: Answers) {
    i.repriceable && a.hasReader && a.quote.Reads?
  }

  /** A bet that can be re-priced was, at a usable price not below the scanned one by more
      than the tolerance. */
  predicate Held(p: BettingPolicy, i: Intent, a: Answers) {
    i.repriceable ==>
      && Quoted(i, a) && i.odds > 1.0 && a.quote.price > 1.0
      && (a.quote.price >= i.odds || i.odds - a.quote.price <= p.maxPriceDrift * i.odds)
  }

  /** Where the book offers a check of the coupon, the check said yes. */
  predicate Checked(i: Intent, a: Answers) {
    i.book == "unibet" && i.checkable ==> a.check == CheckSays(true)
  }

  /** The decision is to place, the price held, and the book's own check passed. */
  predicate Cleared(p: BettingPolicy, i: Intent, a: Answers, now: Instant, rows: seq<Entry>) {
    Ruling(p, i, now, rows).verdict == PLACE && Held(p, i, a) && Checked(i, a)
  }

  /** The single placement call of an intent is made exactly for what is cleared: at the time
      of the decision, with the request's own stake. */
  lemma SentExactly(p: BettingPolicy, i: Intent, a: Answers, now: Instant, rows: seq<Entry>, source: Option<string>)
    ensures SentFor(p, i, a, now, rows, source) ==
            if && Ruling(p, i, now, rows).verdict == PLACE
               && (i.repriceable ==>
                     && a.hasReader && a.quote.Reads? && i.odds > 1.0 && a.quote.price > 1.0
                     && (a.quote.price >= i.odds || i.odds - a.quote.price <= p.maxPriceDrift * i.odds))
               && (i.book == "unibet" && i.checkable ==> a.check == CheckSays(true))
            then [Sent(source, now, i.payloadStake, a.place.Says? && a.place.ok)]
            else []
    ensures SentFor(p, i, a, now, rows, source) != [] <==> Cleared(p, i, a, now, rows)
  {
    hide StakedOn, BetsOn, OpenExposure;
    if a.quote.Reads? {
      hide Drift;
      DriftExactly(i.odds, a.quote.price, p.maxPriceDrift);
      PlaceKnown(p, i, now, rows);
    } else {
      PlaceKnown(p, i, now, rows);
    }
  }

  lemma PlaceKnown(p: BettingPolicy, i: Intent, now: Instant, rows: seq<Entry>)
    ensures Ruling(p, i, now, rows) == DecideOn(p, i, now, rows)
    ensures Ruling(p, i, now, rows).verdict == PLACE ==> i.book in KNOWN_BOOKS
    ensures Ruling(p, i, now, rows).verdict == SKIP ==> Ruling(p, i, now, rows).stake == 0.0
  {
  }

  /** The one row that an intent leaves. A decision to place that is not cleared, or that the
      book does not accept, is a refusal at the decided stake; the price is the one read, if
      one was, and otherwise the scanned one. */
  lemma RowExactly(p: BettingPolicy, i: Intent, a: Answers, now: Instant, rows: seq<Entry>)
    ensures var d, row := Ruling(p, i, now, rows), RowOf(p, i, a, now, rows);
            var placing := d.verdict == PLACE;
            && row.intentId == i.id && row.at == now && row.book == i.book && row.edge == i.edge
            && row.stake == (if d.verdict == SKIP then 0.0 else d.stake)
            && (row.status == Skipped <==> d.verdict == SKIP)
            && (row.status == Paper <==> d.verdict == PAPER)
            && (row.status == Asked <==> d.verdict == ASK)
            && (row.status == Placed <==> Cleared(p, i, a, now, rows) && a.place.Says? && a.place.ok)
            && (row.status == Rejected <==>
                  placing && !(Cleared(p, i, a, now, rows) && a.place.Says? && a.place.ok))
            && row.odds == (if placing && i.repriceable && a.hasReader && a.quote.Reads? && a.quote.price != 0.0
                            then a.quote.price else i.odds)
            && (row.settled <==> Cleared(p, i, a, now, rows) && a.place.Says? && a.place.settled)
  {
    hide StakedOn, BetsOn, OpenExposure, Decide;
    PlaceKnown(p, i, now, rows);
    SentExactly(p, i, a, now, rows, None);
    PriceRead(p, i, a);
  }

  lemma PriceRead(p: BettingPolicy, i: Intent, a: Answers)
    ensures i.book in KNOWN_BOOKS ==> PriceGate(p, i, a).price == if Quoted(i, a) then a.quote.price else i.odds
  {
  }

  // ----- every placement call of a run -----

  /** The intent of a scan's candidate: its own terms, and a request at the policy's size. */
  ghost predicate FromScan(p: BettingPolicy, step: Step, i: Intent, v: Visit) {
    && step.ScanStep? && step.scan.best.Some? && step.scan.buildable
    && v == Visit(step.answers, step.now)
    && IsBetOn(p, step.scan, step.scan.best.value, i)
  }

  predicate IsBetOn(p: BettingPolicy, scan: Scan, c: Candidate, i: Intent) {
    i == Intent(scan.intentId, c.book, c.odds, c.edge, Size(p, c.edge, c.odds), scan.repriceable, scan.checkable)
  }

  /** The intent of an approved proposal: its own terms, under the first twelve characters of
      its id, at its own turn of the batch. */
  ghost predicate FromProposal(s: Plane, step: Step, q: Proposal, i: Intent, v: Visit) {
    && step.PlaceApproved? && q in s.proposals && q.state == Approved && step.now < q.expiresAt
    && i == Intent(if |q.id| <= 12 then q.id else q.id[..12], q.book, q.odds, q.edge, q.payloadStake,
                   q.repriceable, q.checkable)
    && exists n: nat :: v == step.visits(n)
  }

  /** The call `c` was made for a cleared intent: at once, under the policy, or after an
      approval, under the copy of it that places. */
  ghost predicate Justified(p: BettingPolicy, s: Plane, step: Step, c: Sent) {
    || (exists i, v, rows ::
          && FromScan(p, step, i, v) && Cleared(p, i, v.answers, v.now, rows)
          && c == Sent(None, v.now, i.payloadStake, v.answers.place.Says? && v.answers.place.ok))
    || (exists q, i, v, rows ::
          && FromProposal(s, step, q, i, v) && Cleared(AsPlacingPolicy(p, q.book), i, v.answers, v.now, rows)
          && c == Sent(Some(q.id), v.now, i.payloadStake, v.answers.place.Says? && v.answers.place.ok))
  }

  lemma PlaceOneJustified(p: BettingPolicy, s: Plane, step: Step, t: Plane, i: nat, n: nat)
    requires step.PlaceApproved? && i < |s.proposals| && SameTerms(s.proposals, t.proposals)
    requires s.proposals[i].state == Approved && step.now < s.proposals[i].expiresAt
    ensures var u := PlaceOne(p, t, i, step.visits(n).answers, step.visits(n).now);
            && SameTerms(s.proposals, u.proposals) && t.sent <= u.sent
            && forall c :: c in u.sent ==> c in t.sent || Justified(p, s, step, c)
  {
    var q, v := s.proposals[i], step.visits(n);
    var placing := AsPlacingPolicy(p, q.book);
    var intent := IntentOf(t.proposals[i]);
    var more := SentFor(placing, intent, v.answers, v.now, t.rows, Some(q.id));
    assert FromProposal(s, step, q, intent, v);
    SentExactly(placing, intent, v.answers, v.now, t.rows, Some(q.id));
    hide SentFor, RowOf, Cleared, AsPlacingPolicy, FromProposal, FromScan, FirstWithId;
    var u := PlaceOne(p, t, i, v.answers, v.now);
    assert u.sent == t.sent + more;
    if more != [] {
      assert more == [Sent(Some(q.id), v.now, intent.payloadStake, v.answers.place.Says? && v.answers.place.ok)];
      assert Justified(p, s, step, more[0]);
    }
  }

  lemma {:induction false} PlaceAllJustified(p: BettingPolicy, s: Plane, step: Step, live: Plane, selected: seq<nat>)
    requires step.PlaceApproved? && InRange(selected, |s.proposals|) && SameTerms(s.proposals, live.proposals)
    requires forall k :: 0 <= k < |selected| ==>
               s.proposals[selected[k]].state == Approved && step.now < s.proposals[selected[k]].expiresAt
    ensures var t := PlaceAll(p, live, selected, step.visits);
            && SameTerms(s.proposals, t.proposals) && live.sent <= t.sent
            && forall c :: c in t.sent ==> c in live.sent || Justified(p, s, step, c)
    decreases |selected|
  {
    hide PlaceOne, Justified;
    if selected != [] {
      var n := |selected| - 1;
      PlaceAllJustified(p, s, step, live, selected[..n]);
      PlaceOneJustified(p, s, step, PlaceAll(p, live, selected[..n], step.visits), selected[n], n);
    }
  }

  lemma ScanJustified(p: BettingPolicy, s: Plane, step: Step)
    requires step.ScanStep?
    ensures var t := Next(p, s, step);
            s.sent <= t.sent && forall c :: c in t.sent ==> c in s.sent || Justified(p, s, step, c)
  {
    var scan, v := step.scan, Visit(step.answers, step.now);
    if scan.best.Some? && scan.buildable {
      var i := ScanIntent(p, scan);
      assert FromScan(p, step, i, v);
      SentExactly(p, i, v.answers, v.now, s.rows, None);
      hide SentFor, RowOf, Cleared, FromScan, FromProposal;
      var more := SentFor(p, i, v.answers, v.now, s.rows, None);
      if more != [] {
        assert Justified(p, s, step, more[0]);
      }
    }
  }

  lemma StepJustified(p: BettingPolicy, s: Plane, step: Step)
    ensures var t := Next(p, s, step);
            s.sent <= t.sent && forall c :: c in t.sent ==> c in s.sent || Justified(p, s, step, c)
  {
    hide Justified, RunScan, PlaceAll;
    match step {
      case ScanStep(_, _, _) =>
        ScanJustified(p, s, step);
      case PlaceApproved(visits, now) =>
        TakenAreLive(s, now);
        PlaceAllJustified(p, s, step, Expiring(s, now), Takes(s, now));
      case _ =>
    }
  }

  /** Over any run, every placement call comes from a step whose intent was cleared: the
      decision was to place, the price held within the tolerance, and the book's own check
      passed. */
  lemma {:induction false} EveryCallCleared(p: BettingPolicy, states: seq<Plane>, steps: seq<Step>, k: nat)
    requires IsRun(p, states, steps) && k < |states|
    ensures forall c :: c in states[k].sent ==>
              c in states[0].sent || exists j :: 0 <= j < k && Justified(p, states[j], steps[j], c)
  {
    hide Next, Justified;
    if k > 0 {
      EveryCallCleared(p, states, steps, k - 1);
      StepJustified(p, states[k - 1], steps[k - 1]);
      assert states[k - 1 + 1] == Next(p, states[k - 1], steps[k - 1]);
      forall c | c in states[k].sent && c !in states[0].sent
        ensures exists j :: 0 <= j < k && Justified(p, states[j], steps[j], c)
      {
        if c !in states[k - 1].sent {
          assert Justified(p, states[k - 1], steps[k - 1], c);
        }
      }
    }
  }

  // ----- the proposals on file -----

  /** An approval touches the one proposal it names, if that is pending: from its expiry on it
      is marked expired, before it is approved. */
  lemma ApproveExactly(ps: seq<Proposal>, prefix: string, now: Instant, i: nat)
    requires i < |ps|
    ensures var r := ApproveIn(ps, prefix, now);
            var named := prefix <= ps[i].id && forall j :: 0 <= j < |ps| && prefix <= ps[j].id ==> j == i;
            |r| == |ps| &&
            r[i] == if !named || ps[i].state != Pending then ps[i]
                    else if now >= ps[i].expiresAt then ps[i].(state := Expired) else ps[i].(state := Approved)
  {
    FoundExactly(ps, prefix, i);
  }

  lemma RejectExactly(ps: seq<Proposal>, prefix: string, i: nat)
    requires i < |ps|
    ensures var r := RejectIn(ps, prefix);
            var named := prefix <= ps[i].id && forall j :: 0 <= j < |ps| && prefix <= ps[j].id ==> j == i;
            |r| == |ps| && r[i] == if named then ps[i].(state := Refused) else ps[i]
  {
    FoundExactly(ps, prefix, i);
  }

  lemma FoundExactly(ps: seq<Proposal>, prefix: string, i: nat)
    requires i < |ps|
    ensures Find(ps, prefix) == Some(i) <==>
              prefix <= ps[i].id && forall j :: 0 <= j < |ps| && prefix <= ps[j].id ==> j == i
  {
    if prefix <= ps[i].id && forall j :: 0 <= j < |ps| && prefix <= ps[j].id ==> j == i {
      assert OnlyMatch(ps, prefix, i);
    }
  }

  /** Reading the store marks exactly the proposals in that state whose time is over. */
  lemma ExpireExactly(ps: seq<Proposal>, s: State, now: Instant, i: nat)
    requires i < |ps|
    ensures ExpireAll(ps, s, now)[i] ==
            if ps[i].state == s && now >= ps[i].expiresAt then ps[i].(state := Expired) else ps[i]
  {
  }

  /** An outcome goes to the first proposal with the id, and to no other. */
  lemma OutcomeExactly(ps: seq<Proposal>, id: string, ok: bool, i: nat)
    requires i < |ps|
    ensures var r := RecordOutcome(ps, id, ok);
            |r| == |ps| &&
            r[i] == if ps[i].id == id && forall j :: 0 <= j < i ==> ps[j].id != id
                    then ps[i].(state := if ok then Done else Failed) else ps[i]
  {
  }

  /** A scan leaves a row for its candidate, and files a proposal exactly if the decision was
      to ask and there is a store: pending, on the candidate's terms, at the decided stake,
      with a request at the policy's size. */
  lemma ScanExactly(p: BettingPolicy, s: Plane, scan: Scan, a: Answers, now: Instant)
    ensures var t := RunScan(p, s, scan, a, now);
            if scan.best.None? || !scan.buildable then t == s
            else
              var c := scan.best.value;
              var size := Size(p, c.edge, c.odds);
              var i := Intent(scan.intentId, c.book, c.odds, c.edge, size, scan.repriceable, scan.checkable);
              var d := Ruling(p, i, now, s.rows);
              && t.rows == s.rows + [RowOf(p, i, a, now, s.rows)]
              && t.proposals == s.proposals +
                 (if d.verdict == ASK && scan.keepsStore
                  then [Proposal(scan.proposalId, c.book, c.odds, c.edge, d.stake, size, scan.repriceable,
                                 scan.checkable, scan.expiresAt, Pending)]
                  else [])
  {
    hide Decide, StakedOn, BetsOn, OpenExposure, RowOf, SentFor, Size;
  }
}
