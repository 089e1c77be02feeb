/** The betting plane as a state machine: scans, approvals and placements over one ledger
    and one proposal store (`betting/execute.py`, `betting/approvals.py`,
    `betting/runner.py`), and what holds over whole runs of it. `Desk` is the code that
    takes these steps. */
module MoneyPlane {
  import opened Wrappers
  import opened Scanner
  import opened Policy
  import opened Ledger

  // ----- one intent -----

  /** A bet the scanner wants. The payload stake is what the bookmaker is sent. */
  datatype Intent = Intent(
    id: string, book: string, odds: real, edge: real, payloadStake: real, repriceable: bool, checkable: bool)

  datatype ReQuote = QuoteRaises | QuoteUnreadable | Reads(price: real)
  datatype Check = CheckRaises | CheckSays(ok: bool)
  datatype PlaceAnswer = PlaceRaises | Says(ok: bool, settled: bool)

  /** What the bookmaker answers to the calls of one intent. */
  datatype Answers = Answers(hasReader: bool, quote: ReQuote, check: Check, place: PlaceAnswer)

  /** An intent's turn: what the bookmaker answers, and when. */
  datatype Visit = Visit(answers: Answers, now: Instant)

  datatype Gate = Halt(price: real) | Clear(price: real)

  /** The re-price: the book's number, if it can be had and has not drifted. */
  function PriceGate(p: BettingPolicy, i: Intent, a: Answers): Gate {
    if i.book !in KNOWN_BOOKS || !i.repriceable then Clear(i.odds)
    else if !a.quote.Reads? || !a.hasReader then Halt(i.odds)
    else if Drift(i.odds, a.quote.price, p.maxPriceDrift).ok then Clear(a.quote.price)
    else Halt(a.quote.price)
  }

  /** The book's own go/no-go, where it has one. */
  predicate CheckPasses(i: Intent, a: Answers) {
    i.book == "unibet" && i.checkable ==> a.check == CheckSays(true)
  }

  /** The single placement call is made. */
  predicate Sends(p: BettingPolicy, i: Intent, a: Answers, d: Decision) {
    d.verdict == PLACE && PriceGate(p, i, a).Clear? && CheckPasses(i, a) && i.book in KNOWN_BOOKS
  }

  predicate Accepts(a: Answers) {
    a.place.Says? && a.place.ok
  }

  /** A recorded price of zero falls back to the intent's. */
  function Recorded(price: real, odds: real): real {
    if price != 0.0 then price else odds
  }

  function DecideOn(p: BettingPolicy, i: Intent, now: Instant, rows: seq<Entry>): Decision {
    Decide(p, i.book, i.edge, i.odds, now, StakedOn(rows, DayOf(now)), BetsOn(rows, DayOf(now)), OpenExposure(rows))
  }

  /** The one row that an intent leaves in the ledger, whatever happens to it. */
  function RowOf(p: BettingPolicy, i: Intent, a: Answers, now: Instant, rows: seq<Entry>): Entry {
    var d := DecideOn(p, i, now, rows);
    var status :=
      match d.verdict
      case SKIP => Skipped
      case PAPER => Paper
      case ASK => Asked
      case PLACE => if Sends(p, i, a, d) && Accepts(a) then Placed else Rejected;
    var sent := Sends(p, i, a, d);
    Entry(i.id, now, status, i.book, d.stake,
          Recorded(if d.verdict == PLACE then PriceGate(p, i, a).price else 0.0, i.odds),
          i.edge, sent && a.place.Says? && a.place.settled)
  }

  /** A placement call: for which proposal, if any, when, at what payload stake, and
      whether the book accepted it. */
  datatype Sent = Sent(proposal: Option<string>, at: Instant, stake: real, accepted: bool)

  function SentFor(p: BettingPolicy, i: Intent, a: Answers, now: Instant, rows: seq<Entry>, proposal: Option<string>)
    : seq<Sent>
  {
    if Sends(p, i, a, DecideOn(p, i, now, rows)) then [Sent(proposal, now, i.payloadStake, Accepts(a))] else []
  }

  // ----- proposals -----

  datatype State = Pending | Approved | Refused | Expired | Done | Failed

  /** `payloadStake`, `repriceable` and `checkable` are the request built at proposal time. */
  datatype Proposal = Proposal(
    id: string, book: string, odds: real, edge: real, stake: real, payloadStake: real,
    repriceable: bool, checkable: bool, expiresAt: Instant, state: State)

  predicate IsExpired(q: Proposal, now: Instant) {
    now >= q.expiresAt
  }

  ghost predicate UniqueIds(ps: seq<Proposal>) {
    forall i, j :: 0 <= i < j < |ps| ==> ps[i].id != ps[j].id
  }

  /** The only proposal whose id starts with `prefix`. */
  ghost predicate OnlyMatch(ps: seq<Proposal>, prefix: string, i: nat) {
    && i < |ps| && prefix <= ps[i].id
    && forall j :: 0 <= j < |ps| && prefix <= ps[j].id ==> j == i
  }

  ghost function Find(ps: seq<Proposal>, prefix: string): (hit: Option<nat>)
    ensures hit.Some? ==> OnlyMatch(ps, prefix, hit.value)
    ensures hit.None? ==> forall i :: !OnlyMatch(ps, prefix, i)
  {
    if i: nat :| OnlyMatch(ps, prefix, i) then Some(i) else None
  }

  /** Nothing but the states of the proposals differs. */
  ghost predicate SameTerms(ps: seq<Proposal>, qs: seq<Proposal>) {
    |qs| == |ps| && forall i :: 0 <= i < |ps| ==> qs[i] == ps[i].(state := qs[i].state)
  }

  function SetState(ps: seq<Proposal>, i: nat, s: State): seq<Proposal>
    requires i < |ps|
  {
    ps[i := ps[i].(state := s)]
  }

  /** Every proposal in state `s` that has run out of time is marked so. */
  function ExpireAll(ps: seq<Proposal>, s: State, now: Instant): (r: seq<Proposal>)
    ensures |r| == |ps|
    ensures forall i :: 0 <= i < |ps| ==>
              r[i] == if ps[i].state == s && IsExpired(ps[i], now) then ps[i].(state := Expired) else ps[i]
  {
    seq(|ps|, i requires 0 <= i < |ps| =>
      if ps[i].state == s && IsExpired(ps[i], now) then ps[i].(state := Expired) else ps[i])
  }

  ghost function ApproveIn(ps: seq<Proposal>, prefix: string, now: Instant): (r: seq<Proposal>)
    ensures |r| == |ps|
  {
    var hit := Find(ps, prefix);
    if hit.None? || ps[hit.value].state != Pending then ps
    else SetState(ps, hit.value, if IsExpired(ps[hit.value], now) then Expired else Approved)
  }

  ghost function RejectIn(ps: seq<Proposal>, prefix: string): (r: seq<Proposal>)
    ensures |r| == |ps|
  {
    var hit := Find(ps, prefix);
    if hit.None? then ps else SetState(ps, hit.value, Refused)
  }

  /** Where the first proposal with that id stands; past the end if there is none. */
  function FirstWithId(ps: seq<Proposal>, id: string): (at: nat)
    ensures at <= |ps| && (at < |ps| ==> ps[at].id == id)
    ensures forall j :: 0 <= j < at ==> ps[j].id != id
  {
    if ps == [] || ps[0].id == id then 0 else FirstWithId(ps[1..], id) + 1
  }

  /** The first proposal with that id gets its outcome. */
  function RecordOutcome(ps: seq<Proposal>, id: string, ok: bool): (r: seq<Proposal>)
    ensures |r| == |ps|
  {
    var at := FirstWithId(ps, id);
    if at < |ps| then SetState(ps, at, if ok then Done else Failed) else ps
  }

  // ----- the plane -----

  datatype Plane = Plane(rows: seq<Entry>, proposals: seq<Proposal>, sent: seq<Sent>)

  /** A bet's intent id is the start of its proposal's. */
  function IntentId(id: string): string {
    if |id| <= 12 then id else id[..12]
  }

  function IntentOf(q: Proposal): Intent {
    Intent(IntentId(q.id), q.book, q.odds, q.edge, q.payloadStake, q.repriceable, q.checkable)
  }

  /** One approved proposal through the money path, under the placing copy of the policy. */
  function PlaceOne(p: BettingPolicy, s: Plane, i: nat, a: Answers, now: Instant): Plane
    requires i < |s.proposals|
  {
    var q := s.proposals[i];
    var placing := AsPlacingPolicy(p, q.book);
    var row := RowOf(placing, IntentOf(q), a, now, s.rows);
    Plane(s.rows + [row],
          RecordOutcome(s.proposals, q.id, row.status == Placed),
          s.sent + SentFor(placing, IntentOf(q), a, now, s.rows, Some(q.id)))
  }

  /** Where, among the first `n`, the unexpired proposals in state `s` stand, in order. */
  function Live(ps: seq<Proposal>, s: State, now: Instant, n: nat): (r: seq<nat>)
    requires n <= |ps|
    ensures forall k :: 0 <= k < |r| ==> r[k] < n && ps[r[k]].state == s && !IsExpired(ps[r[k]], now)
    ensures forall i :: 0 <= i < n && ps[i].state == s && !IsExpired(ps[i], now) ==> i in r
    ensures Increasing(r)
  {
    if n == 0 then []
    else
      var front := Live(ps, s, now, n - 1);
      if ps[n - 1].state == s && !IsExpired(ps[n - 1], now) then front + [n - 1] else front
  }

  ghost predicate Increasing(selected: seq<nat>) {
    forall i, j :: 0 <= i < j < |selected| ==> selected[i] < selected[j]
  }

  predicate InRange(at: seq<nat>, n: nat) {
    forall k :: 0 <= k < |at| ==> at[k] < n
  }

  /** The selected proposals, one after the other, each at its own time. */
  function PlaceAll(p: BettingPolicy, s: Plane, selected: seq<nat>, visits: nat -> Visit): (r: Plane)
    requires InRange(selected, |s.proposals|)
    ensures |r.proposals| == |s.proposals|
    decreases |selected|
  {
    if selected == [] then s
    else
      var n := |selected| - 1;
      PlaceOne(p, PlaceAll(p, s, selected[..n], visits), selected[n], visits(n).answers, visits(n).now)
  }

  /** The candidate a scan acts on, its payload built at the policy's own size. */
  datatype Scan = Scan(
    best: Option<Candidate>, buildable: bool, repriceable: bool, checkable: bool, keepsStore: bool,
    intentId: string, proposalId: string, expiresAt: Instant)

  function ScanIntent(p: BettingPolicy, scan: Scan): Intent
    requires scan.best.Some?
  {
    var c := scan.best.value;
    Intent(scan.intentId, c.book, c.odds, c.edge, Size(p, c.edge, c.odds), scan.repriceable, scan.checkable)
  }

  function ProposalOf(p: BettingPolicy, scan: Scan, stake: real): Proposal
    requires scan.best.Some?
  {
    var c := scan.best.value;
    Proposal(scan.proposalId, c.book, c.odds, c.edge, stake, Size(p, c.edge, c.odds),
             scan.repriceable, scan.checkable, scan.expiresAt, Pending)
  }

  function RunScan(p: BettingPolicy, s: Plane, scan: Scan, a: Answers, now: Instant): Plane {
    if scan.best.None? || !scan.buildable then s
    else
      var i := ScanIntent(p, scan);
      var d := DecideOn(p, i, now, s.rows);
      Plane(s.rows + [RowOf(p, i, a, now, s.rows)],
            s.proposals + if d.verdict == ASK && scan.keepsStore then [ProposalOf(p, scan, d.stake)] else [],
            s.sent + SentFor(p, i, a, now, s.rows, None))
  }

  datatype Step =
    | ScanStep(scan: Scan, answers: Answers, now: Instant)
    | Approve(prefix: string, now: Instant)
    | Reject(prefix: string)
    | ShowPending(now: Instant)
    | PlaceApproved(visits: nat -> Visit, now: Instant)

  /** The proposals that a placement step takes up. */
  function Takes(s: Plane, now: Instant): (r: seq<nat>)
    ensures InRange(r, |s.proposals|)
  {
    Live(s.proposals, Approved, now, |s.proposals|)
  }

  function Expiring(s: Plane, now: Instant): (live: Plane)
    ensures |live.proposals| == |s.proposals|
  {
    s.(proposals := ExpireAll(s.proposals, Approved, now))
  }

  function RunPlacements(p: BettingPolicy, s: Plane, visits: nat -> Visit, now: Instant): Plane {
    PlaceAll(p, Expiring(s, now), Takes(s, now), visits)
  }

  ghost function Next(p: BettingPolicy, s: Plane, step: Step): Plane {
    match step
    case ScanStep(scan, a, now) => RunScan(p, s, scan, a, now)
    case Approve(prefix, now) => s.(proposals := ApproveIn(s.proposals, prefix, now))
    case Reject(prefix) => s.(proposals := RejectIn(s.proposals, prefix))
    case ShowPending(now) => s.(proposals := ExpireAll(s.proposals, Pending, now))
    case PlaceApproved(visits, now) =>
      RunPlacements(p, s, visits, now)
  }

  /** A run: the states it goes through, each from the one before by its step. */
  ghost predicate IsRun(p: BettingPolicy, states: seq<Plane>, steps: seq<Step>) {
    && |states| == |steps| + 1
    && forall k :: 0 <= k < |steps| ==> states[k + 1] == Next(p, states[k], steps[k])
  }

  // ----- the caps -----

  ghost predicate WithinCaps(p: BettingPolicy, rows: seq<Entry>) {
    && PositiveStakes(rows)
    && OpenExposure(rows) <= p.maxOpenExposure
    && forall day :: WithinDay(p, rows, day)
  }

  predicate WithinDay(p: BettingPolicy, rows: seq<Entry>, day: int) {
    StakedOn(rows, day) <= p.dailyCap && (BetsOn(rows, day) > 0 ==> BetsOn(rows, day) <= p.maxBetsPerDay)
  }

  /** One row of the money path, under any policy with the same caps, keeps them all. */
  lemma RowKeepsCaps(p: BettingPolicy, q: BettingPolicy, i: Intent, a: Answers, now: Instant, rows: seq<Entry>)
    requires WithinCaps(p, rows)
    requires q.dailyCap == p.dailyCap && q.maxOpenExposure == p.maxOpenExposure && q.maxBetsPerDay == p.maxBetsPerDay
    ensures WithinCaps(p, rows + [RowOf(q, i, a, now, rows)])
  {
    var row := RowOf(q, i, a, now, rows);
    var today := DayOf(now);
    StakeFits(q, i.book, i.edge, i.odds, now, StakedOn(rows, today), BetsOn(rows, today), OpenExposure(rows));
    PlacesExactly(q, i.book, i.edge, i.odds, now, StakedOn(rows, today), BetsOn(rows, today), OpenExposure(rows));
    ExposureGrowth(rows, row);
    forall day ensures WithinDay(p, rows + [row], day) {
      assert WithinDay(p, rows, day);
      Appended(rows, row, day);
    }
  }

  lemma {:induction false} PlaceAllKeepsCaps(p: BettingPolicy, s: Plane, selected: seq<nat>,
                                             visits: nat -> Visit)
    requires InRange(selected, |s.proposals|)
    requires WithinCaps(p, s.rows)
    ensures WithinCaps(p, PlaceAll(p, s, selected, visits).rows)
    decreases |selected|
  {
    if selected != [] {
      var n := |selected| - 1;
      PlaceAllKeepsCaps(p, s, selected[..n], visits);
      var before := PlaceAll(p, s, selected[..n], visits);
      var q := before.proposals[selected[n]];
      RowKeepsCaps(p, AsPlacingPolicy(p, q.book), IntentOf(q), visits(n).answers, visits(n).now, before.rows);
    }
  }

  lemma ScanKeepsCaps(p: BettingPolicy, s: Plane, scan: Scan, a: Answers, now: Instant)
    requires WithinCaps(p, s.rows)
    ensures WithinCaps(p, RunScan(p, s, scan, a, now).rows)
  {
    if scan.best.Some? && scan.buildable {
      RowKeepsCaps(p, p, ScanIntent(p, scan), a, now, s.rows);
    }
  }

  lemma StepKeepsCaps(p: BettingPolicy, s: Plane, step: Step)
    requires WithinCaps(p, s.rows)
    ensures WithinCaps(p, Next(p, s, step).rows)
  {
    match step {
      case ScanStep(scan, a, now) =>
        ScanKeepsCaps(p, s, scan, a, now);
      case PlaceApproved(visits, now) =>
        PlaceAllKeepsCaps(p, Expiring(s, now), Takes(s, now), visits);
      case _ =>
    }
  }

  /** Over any run of scans, approvals and placements: no day's stake passes the daily cap,
      no day's bets the count, and the open exposure never passes its limit. */
  lemma {:induction false} CapsHold(p: BettingPolicy, states: seq<Plane>, steps: seq<Step>, k: nat)
    requires IsRun(p, states, steps) && k < |states| && WithinCaps(p, states[0].rows)
    ensures WithinCaps(p, states[k].rows)
  {
    if k > 0 {
      CapsHold(p, states, steps, k - 1);
      StepKeepsCaps(p, states[k - 1], steps[k - 1]);
      assert states[k - 1 + 1] == Next(p, states[k - 1], steps[k - 1]);
    }
  }

  lemma NothingPlacedYet(p: BettingPolicy)
    requires ValidPolicy(p)
    ensures WithinCaps(p, [])
  {
  }

  // ----- one placement per proposal -----

  /** How often the bookmaker was asked to place proposal `id`. */
  function Calls(sent: seq<Sent>, id: string): nat {
    if sent == [] then 0
    else Calls(sent[..|sent| - 1], id) + if sent[|sent| - 1].proposal == Some(id) then 1 else 0
  }

  lemma {:induction false} CallsConcat(a: seq<Sent>, b: seq<Sent>, id: string)
    ensures Calls(a + b, id) == Calls(a, id) + Calls(b, id)
    decreases |b|
  {
    if b == [] {
      assert a + b == a;
    } else {
      assert (a + b)[..|a + b| - 1] == a + b[..|b| - 1];
      CallsConcat(a, b[..|b| - 1], id);
    }
  }

  lemma CallsOfOne(p: BettingPolicy, i: Intent, a: Answers, now: Instant, rows: seq<Entry>, source: Option<string>,
                   id: string)
    ensures Calls(SentFor(p, i, a, now, rows, source), id) <= 1
    ensures source != Some(id) ==> Calls(SentFor(p, i, a, now, rows, source), id) == 0
  {
    var d := DecideOn(p, i, now, rows);
    if Sends(p, i, a, d) {
      assert SentFor(p, i, a, now, rows, source)[..0] == [];
    }
  }

  predicate Unplaced(q: Proposal) {
    q.state == Pending || q.state == Approved
  }

  /** A proposal that may still be placed has never been sent, no other was sent twice, and
      nothing was sent for an unknown one. */
  ghost predicate SentOnce(s: Plane) {
    && UniqueIds(s.proposals)
    && (forall i :: 0 <= i < |s.proposals| ==>
          Calls(s.sent, s.proposals[i].id) <= if Unplaced(s.proposals[i]) then 0 else 1)
    && (forall id :: (forall i :: 0 <= i < |s.proposals| ==> s.proposals[i].id != id) ==> Calls(s.sent, id) == 0)
  }

  ghost predicate SameIds(ps: seq<Proposal>, qs: seq<Proposal>) {
    |ps| <= |qs| && forall i :: 0 <= i < |ps| ==> ps[i].id == qs[i].id
  }

  /** Marking expiry, approving and rejecting send nothing and make nothing sendable that
      was not. */
  lemma QuietStepsSendNothing(s: Plane, qs: seq<Proposal>)
    requires SentOnce(s) && |qs| == |s.proposals|
    requires forall i :: 0 <= i < |qs| ==>
               qs[i].id == s.proposals[i].id && (Unplaced(qs[i]) ==> Unplaced(s.proposals[i]))
    ensures SentOnce(s.(proposals := qs))
  {
    forall id | forall i :: 0 <= i < |qs| ==> qs[i].id != id
      ensures Calls(s.sent, id) == 0
    {
      assert forall i :: 0 <= i < |s.proposals| ==> s.proposals[i].id == qs[i].id;
    }
  }

  /** Among unique ids an outcome is recorded on its own proposal and on no other. */
  lemma OutcomeTouchesOne(ps: seq<Proposal>, i: nat, ok: bool)
    requires UniqueIds(ps) && i < |ps|
    ensures RecordOutcome(ps, ps[i].id, ok) == ps[i := ps[i].(state := if ok then Done else Failed)]
  {
    assert FirstWithId(ps, ps[i].id) == i;
  }

  lemma OneCallMore(p: BettingPolicy, s: Plane, i: nat, a: Answers, now: Instant, id: string)
    requires i < |s.proposals|
    ensures Calls(PlaceOne(p, s, i, a, now).sent, id) <=
            Calls(s.sent, id) + if id == s.proposals[i].id then 1 else 0
  {
    var q := s.proposals[i];
    var placing := AsPlacingPolicy(p, q.book);
    CallsConcat(s.sent, SentFor(placing, IntentOf(q), a, now, s.rows, Some(q.id)), id);
    CallsOfOne(placing, IntentOf(q), a, now, s.rows, Some(q.id), id);
  }

  /** A selected proposal is sent at most once and can then no longer be selected. */
  lemma PlaceOneSendsOnce(p: BettingPolicy, s: Plane, i: nat, a: Answers, now: Instant)
    requires SentOnce(s) && i < |s.proposals| && s.proposals[i].state == Approved
    ensures SentOnce(PlaceOne(p, s, i, a, now))
    ensures var t := PlaceOne(p, s, i, a, now);
            && |t.proposals| == |s.proposals|
            && (forall j :: 0 <= j < |s.proposals| && j != i ==> t.proposals[j] == s.proposals[j])
            && t.proposals[i].state in {Done, Failed}
            && t.proposals[i] == s.proposals[i].(state := t.proposals[i].state)
  {
    hide RowOf, SentFor, AsPlacingPolicy, FirstWithId, Calls;
    var t := PlaceOne(p, s, i, a, now);
    var ok := RowOf(AsPlacingPolicy(p, s.proposals[i].book), IntentOf(s.proposals[i]), a, now, s.rows).status == Placed;
    OutcomeTouchesOne(s.proposals, i, ok);
    forall id ensures Calls(t.sent, id) <= Calls(s.sent, id) + if id == s.proposals[i].id then 1 else 0 {
      OneCallMore(p, s, i, a, now, id);
    }
    SentOnceStep(s, t, i);
  }

  lemma SentOnceStep(s: Plane, t: Plane, i: nat)
    requires SentOnce(s) && i < |s.proposals| && s.proposals[i].state == Approved
    requires |t.proposals| == |s.proposals| && t.proposals == s.proposals[i := t.proposals[i]]
    requires t.proposals[i].id == s.proposals[i].id
    requires !Unplaced(t.proposals[i])
    requires forall id :: Calls(t.sent, id) <= Calls(s.sent, id) + if id == s.proposals[i].id then 1 else 0
    ensures SentOnce(t)
  {
    forall id | forall j :: 0 <= j < |t.proposals| ==> t.proposals[j].id != id
      ensures Calls(t.sent, id) == 0
    {
      assert t.proposals[i].id != id;
      assert forall j :: 0 <= j < |s.proposals| ==> s.proposals[j].id == t.proposals[j].id;
    }
  }

  /** Placing the selected proposals decides them and touches no other. */
  ghost predicate Decided(ps: seq<Proposal>, qs: seq<Proposal>, selected: seq<nat>) {
    && |qs| == |ps|
    && forall j :: 0 <= j < |ps| ==>
         && qs[j] == ps[j].(state := qs[j].state)
         && if j in selected then qs[j].state in {Done, Failed} else qs[j] == ps[j]
  }

  ghost predicate AllApproved(ps: seq<Proposal>, selected: seq<nat>) {
    forall k :: 0 <= k < |selected| ==> selected[k] < |ps| && ps[selected[k]].state == Approved
  }

  lemma DecidedStep(ps: seq<Proposal>, qs: seq<Proposal>, rs: seq<Proposal>, front: seq<nat>, i: nat)
    requires Decided(ps, qs, front) && i < |ps| && i !in front
    requires |rs| == |qs| && rs[i].state in {Done, Failed} && rs[i] == qs[i].(state := rs[i].state)
    requires forall j :: 0 <= j < |qs| && j != i ==> rs[j] == qs[j]
    ensures Decided(ps, rs, front + [i])
  {
  }

  lemma LastSelected(ps: seq<Proposal>, selected: seq<nat>)
    requires selected != [] && InRange(selected, |ps|) && AllApproved(ps, selected) && Increasing(selected)
    ensures var front, i := selected[..|selected| - 1], selected[|selected| - 1];
            && InRange(front, |ps|) && AllApproved(ps, front) && Increasing(front)
            && selected == front + [i] && i !in front && i < |ps| && ps[i].state == Approved
  {
  }

  lemma Untouched(ps: seq<Proposal>, qs: seq<Proposal>, selected: seq<nat>, i: nat)
    requires Decided(ps, qs, selected) && i < |ps| && i !in selected
    ensures |qs| == |ps| && qs[i] == ps[i]
  {
  }

  lemma {:induction false} PlaceAllSendsOnce(p: BettingPolicy, s: Plane, selected: seq<nat>,
                                             visits: nat -> Visit)
    requires SentOnce(s)
    requires InRange(selected, |s.proposals|) && AllApproved(s.proposals, selected) && Increasing(selected)
    ensures SentOnce(PlaceAll(p, s, selected, visits))
    ensures Decided(s.proposals, PlaceAll(p, s, selected, visits).proposals, selected)
    decreases |selected|
  {
    if selected != [] {
      hide PlaceOne, SentOnce, Decided, AllApproved, Increasing, InRange;
      var n := |selected| - 1;
      var front, i := selected[..n], selected[n];
      LastSelected(s.proposals, selected);
      PlaceAllSendsOnce(p, s, front, visits);
      var before := PlaceAll(p, s, front, visits);
      Untouched(s.proposals, before.proposals, front, i);
      PlaceOneSendsOnce(p, before, i, visits(n).answers, visits(n).now);
      var after := PlaceOne(p, before, i, visits(n).answers, visits(n).now);
      DecidedStep(s.proposals, before.proposals, after.proposals, front, i);
    }
  }

  /** The id of a new proposal, if the step makes one, is new. */
  ghost predicate FreshProposal(s: Plane, step: Step) {
    step.ScanStep? ==> forall i :: 0 <= i < |s.proposals| ==> s.proposals[i].id != step.scan.proposalId
  }

  lemma ScanSendsForNoProposal(p: BettingPolicy, s: Plane, scan: Scan, a: Answers, now: Instant)
    requires SentOnce(s) && forall i :: 0 <= i < |s.proposals| ==> s.proposals[i].id != scan.proposalId
    ensures SentOnce(RunScan(p, s, scan, a, now))
    ensures s.proposals <= RunScan(p, s, scan, a, now).proposals
  {
    var t := RunScan(p, s, scan, a, now);
    if scan.best.Some? && scan.buildable {
      var i := ScanIntent(p, scan);
      var one := SentFor(p, i, a, now, s.rows, None);
      forall id ensures Calls(t.sent, id) == Calls(s.sent, id) {
        CallsConcat(s.sent, one, id);
        CallsOfOne(p, i, a, now, s.rows, None, id);
      }
      assert Calls(s.sent, scan.proposalId) == 0;
      forall id | forall j :: 0 <= j < |t.proposals| ==> t.proposals[j].id != id
        ensures Calls(t.sent, id) == 0
      {
        assert forall j :: 0 <= j < |s.proposals| ==> s.proposals[j].id == t.proposals[j].id;
      }
    }
  }

  lemma TakenAreLive(s: Plane, now: Instant)
    ensures AllApproved(Expiring(s, now).proposals, Takes(s, now)) && Increasing(Takes(s, now))
    ensures forall k :: 0 <= k < |Takes(s, now)| ==>
              s.proposals[Takes(s, now)[k]].state == Approved && !IsExpired(s.proposals[Takes(s, now)[k]], now)
  {
    var r := Takes(s, now);
    assert forall k :: 0 <= k < |r| ==> r[k] in r;
  }

  /** A placement step sends each proposal it takes up once, and decides it. */
  lemma PlacementsSendOnce(p: BettingPolicy, s: Plane, visits: nat -> Visit, now: Instant)
    requires SentOnce(s)
    ensures SentOnce(Expiring(s, now)) && SentOnce(RunPlacements(p, s, visits, now))
    ensures Decided(Expiring(s, now).proposals, RunPlacements(p, s, visits, now).proposals, Takes(s, now))
  {
    QuietStepsSendNothing(s, Expiring(s, now).proposals);
    TakenAreLive(s, now);
    PlaceAllSendsOnce(p, Expiring(s, now), Takes(s, now), visits);
    assert Takes(s, now)[..|Takes(s, now)|] == Takes(s, now);
  }

  lemma StepSendsOnce(p: BettingPolicy, s: Plane, step: Step)
    requires FreshProposal(s, step) && SentOnce(s)
    ensures SentOnce(Next(p, s, step)) && SameIds(s.proposals, Next(p, s, step).proposals)
  {
    hide RunScan, RunPlacements, SentOnce;
    match step {
      case ScanStep(scan, a, now) =>
        ScanSendsForNoProposal(p, s, scan, a, now);
      case Approve(prefix, now) =>
        QuietStepsSendNothing(s, ApproveIn(s.proposals, prefix, now));
      case Reject(prefix) =>
        QuietStepsSendNothing(s, RejectIn(s.proposals, prefix));
      case ShowPending(now) =>
        QuietStepsSendNothing(s, ExpireAll(s.proposals, Pending, now));
      case PlaceApproved(visits, now) =>
        PlacementsSendOnce(p, s, visits, now);
    }
  }

  /** A run whose new proposals have new ids. */
  ghost predicate IsFreshRun(p: BettingPolicy, states: seq<Plane>, steps: seq<Step>) {
    && IsRun(p, states, steps)
    && SentOnce(states[0])
    && forall k :: 0 <= k < |steps| ==> FreshProposal(states[k], steps[k])
  }

  lemma {:induction false} SentOnceThroughout(p: BettingPolicy, states: seq<Plane>, steps: seq<Step>, k: nat)
    requires IsFreshRun(p, states, steps) && k < |states|
    ensures SentOnce(states[k])
  {
    if k > 0 {
      SentOnceThroughout(p, states, steps, k - 1);
      StepSendsOnce(p, states[k - 1], steps[k - 1]);
      assert states[k - 1 + 1] == Next(p, states[k - 1], steps[k - 1]);
    }
  }

  /** Over any interleaving of steps, each proposal causes at most one placement call. */
  lemma OnePlacementPerProposal(p: BettingPolicy, states: seq<Plane>, steps: seq<Step>, k: nat, id: string)
    requires IsFreshRun(p, states, steps) && k < |states|
    ensures Calls(states[k].sent, id) <= 1
  {
    SentOnceThroughout(p, states, steps, k);
    if i :| 0 <= i < |states[k].proposals| && states[k].proposals[i].id == id {
    } else {
      assert Calls(states[k].sent, id) == 0;
    }
  }

  // ----- the life of a proposal -----

  /** What one step may do to a proposal: its terms stay, it is never made pending again, and
      it becomes approved only by an approval of the pending, unexpired proposal. */
  predicate LawfulMove(before: Proposal, after: Proposal, step: Step) {
    && after == before.(state := after.state)
    && (after.state == Pending ==> before.state == Pending)
    && (after.state == Approved ==>
          || before.state == Approved
          || (step.Approve? && before.state == Pending && !IsExpired(before, step.now)))
  }

  lemma StepMoves(p: BettingPolicy, s: Plane, step: Step, i: nat)
    requires FreshProposal(s, step) && SentOnce(s) && i < |s.proposals|
    ensures i < |Next(p, s, step).proposals| && LawfulMove(s.proposals[i], Next(p, s, step).proposals[i], step)
  {
    match step {
      case PlaceApproved(visits, now) =>
        PlacementMoves(p, s, visits, now, i);
      case _ =>
    }
  }

  lemma PlacementMoves(p: BettingPolicy, s: Plane, visits: nat -> Visit, now: Instant, i: nat)
    requires SentOnce(s) && i < |s.proposals|
    ensures i < |RunPlacements(p, s, visits, now).proposals|
    ensures LawfulMove(s.proposals[i], RunPlacements(p, s, visits, now).proposals[i], PlaceApproved(visits, now))
  {
    hide PlaceAll, SentOnce;
    PlacementsSendOnce(p, s, visits, now);
    var live, t := Expiring(s, now), RunPlacements(p, s, visits, now);
    assert t.proposals[i] == live.proposals[i].(state := t.proposals[i].state);
  }

  /** A new proposal is pending. */
  lemma NewIsPending(p: BettingPolicy, s: Plane, step: Step, i: nat)
    requires |s.proposals| <= i < |Next(p, s, step).proposals|
    ensures Next(p, s, step).proposals[i].state == Pending
  {
  }

  /** Proposal `i` was approved at step `j`: pending before, unexpired then. */
  ghost predicate ApprovedAt(states: seq<Plane>, steps: seq<Step>, i: nat, j: nat)
    requires |states| == |steps| + 1 && j < |steps|
  {
    && steps[j].Approve?
    && i < |states[j].proposals| && states[j].proposals[i].state == Pending
    && !IsExpired(states[j].proposals[i], steps[j].now)
    && i < |states[j + 1].proposals| && states[j + 1].proposals[i].state == Approved
  }

  /** Whatever is approved was pending before, and was approved in time. */
  lemma {:induction false} ApprovedFromPending(p: BettingPolicy, states: seq<Plane>, steps: seq<Step>, k: nat, i: nat)
    requires IsFreshRun(p, states, steps) && k < |states|
    requires forall q :: q in states[0].proposals ==> q.state != Approved
    requires i < |states[k].proposals| && states[k].proposals[i].state == Approved
    ensures exists j :: 0 <= j < k && ApprovedAt(states, steps, i, j)
  {
    if k > 0 {
      SentOnceThroughout(p, states, steps, k - 1);
      assert states[k - 1 + 1] == Next(p, states[k - 1], steps[k - 1]);
      if i < |states[k - 1].proposals| {
        StepMoves(p, states[k - 1], steps[k - 1], i);
        if states[k - 1].proposals[i].state == Approved {
          ApprovedFromPending(p, states, steps, k - 1, i);
        } else {
          assert ApprovedAt(states, steps, i, k - 1);
        }
      } else {
        NewIsPending(p, states[k - 1], steps[k - 1], i);
      }
    }
  }

  /** A proposal that is pending now has been pending since it was made. */
  lemma {:induction false} PendingIsNeverReentered(p: BettingPolicy, states: seq<Plane>, steps: seq<Step>,
                                                   j: nat, k: nat, i: nat)
    requires IsFreshRun(p, states, steps) && j <= k < |states|
    requires i < |states[j].proposals|
    ensures i < |states[k].proposals|
    ensures states[k].proposals[i].state == Pending ==> states[j].proposals[i].state == Pending
    decreases k - j
  {
    if j < k {
      SentOnceThroughout(p, states, steps, j);
      StepMoves(p, states[j], steps[j], i);
      assert states[j + 1] == Next(p, states[j], steps[j]);
      PendingIsNeverReentered(p, states, steps, j + 1, k, i);
    }
  }

  lemma {:induction false} OnlySelectedAreSent(p: BettingPolicy, s: Plane, selected: seq<nat>,
                                               visits: nat -> Visit, id: string)
    requires SentOnce(s)
    requires InRange(selected, |s.proposals|) && AllApproved(s.proposals, selected) && Increasing(selected)
    requires forall j :: 0 <= j < |selected| ==> s.proposals[selected[j]].id != id
    ensures Calls(PlaceAll(p, s, selected, visits).sent, id) == Calls(s.sent, id)
    decreases |selected|
  {
    hide PlaceOne;
    if selected != [] {
      var n := |selected| - 1;
      OnlySelectedAreSent(p, s, selected[..n], visits, id);
      PlaceAllSendsOnce(p, s, selected[..n], visits);
      var before := PlaceAll(p, s, selected[..n], visits);
      assert before.proposals[selected[n]].id == s.proposals[selected[n]].id;
      OneSendsForItself(p, before, selected[n], visits(n).answers, visits(n).now, id);
    }
  }

  lemma OneSendsForItself(p: BettingPolicy, s: Plane, i: nat, a: Answers, now: Instant, id: string)
    requires i < |s.proposals| && s.proposals[i].id != id
    ensures Calls(PlaceOne(p, s, i, a, now).sent, id) == Calls(s.sent, id)
  {
    var q := s.proposals[i];
    var placing := AsPlacingPolicy(p, q.book);
    CallsConcat(s.sent, SentFor(placing, IntentOf(q), a, now, s.rows, Some(q.id)), id);
    CallsOfOne(placing, IntentOf(q), a, now, s.rows, Some(q.id), id);
  }

  lemma ScanSendsNoProposal(p: BettingPolicy, s: Plane, scan: Scan, a: Answers, now: Instant, id: string)
    ensures Calls(RunScan(p, s, scan, a, now).sent, id) == Calls(s.sent, id)
  {
    if scan.best.Some? && scan.buildable {
      var intent := ScanIntent(p, scan);
      CallsConcat(s.sent, SentFor(p, intent, a, now, s.rows, None), id);
      CallsOfOne(p, intent, a, now, s.rows, None, id);
    }
  }

  lemma PlacementsSendTheTaken(p: BettingPolicy, s: Plane, visits: nat -> Visit, now: Instant, i: nat)
    requires SentOnce(s) && i < |s.proposals|
    requires i !in Takes(s, now)
    ensures Calls(RunPlacements(p, s, visits, now).sent, s.proposals[i].id) == Calls(s.sent, s.proposals[i].id)
  {
    PlacementsSendOnce(p, s, visits, now);
    TakenAreLive(s, now);
    var live := Expiring(s, now);
    forall k | 0 <= k < |Takes(s, now)| ensures live.proposals[Takes(s, now)[k]].id != s.proposals[i].id {
      assert Takes(s, now)[k] in Takes(s, now);
    }
    OnlySelectedAreSent(p, live, Takes(s, now), visits, s.proposals[i].id);
  }

  /** A step that sends proposal `i` to the bookmaker finds it approved and unexpired. */
  lemma SendingStep(p: BettingPolicy, s: Plane, step: Step, i: nat)
    requires SentOnce(s) && i < |s.proposals|
    requires Calls(Next(p, s, step).sent, s.proposals[i].id) > Calls(s.sent, s.proposals[i].id)
    ensures step.PlaceApproved? && s.proposals[i].state == Approved && !IsExpired(s.proposals[i], step.now)
  {
    match step {
      case ScanStep(scan, a, now) =>
        ScanSendsNoProposal(p, s, scan, a, now, s.proposals[i].id);
      case PlaceApproved(visits, now) =>
        if i !in Takes(s, now) {
          PlacementsSendTheTaken(p, s, visits, now, i);
        }
        TakenAreLive(s, now);
      case _ =>
    }
  }

  /** Only an approval of the pending, unexpired proposal leads to its placement, and only
      while it is still unexpired when it is taken up. */
  lemma PlacedOnlyWhenApproved(p: BettingPolicy, states: seq<Plane>, steps: seq<Step>, k: nat, i: nat)
    requires IsFreshRun(p, states, steps) && k < |steps| && i < |states[k].proposals|
    requires forall q :: q in states[0].proposals ==> q.state != Approved
    requires Calls(states[k + 1].sent, states[k].proposals[i].id) > Calls(states[k].sent, states[k].proposals[i].id)
    ensures steps[k].PlaceApproved? && !IsExpired(states[k].proposals[i], steps[k].now)
    ensures exists j :: 0 <= j < k && ApprovedAt(states, steps, i, j)
  {
    SentOnceThroughout(p, states, steps, k);
    SendingStep(p, states[k], steps[k], i);
    ApprovedFromPending(p, states, steps, k, i);
  }

  // ----- what a placement is -----

  /** An intent leaves a placed row exactly when its single placement call was made and
      accepted. */
  lemma PlacedMeansAccepted(p: BettingPolicy, i: Intent, a: Answers, now: Instant, rows: seq<Entry>,
                            source: Option<string>)
    ensures RowOf(p, i, a, now, rows).status == Placed <==>
              SentFor(p, i, a, now, rows, source) == [Sent(source, now, i.payloadStake, true)]
    ensures |SentFor(p, i, a, now, rows, source)| <= 1
  {
  }

  /** A placed row's decision was to place, and its price got through the gate. */
  lemma PlacedPassed(p: BettingPolicy, i: Intent, a: Answers, now: Instant, rows: seq<Entry>)
    requires RowOf(p, i, a, now, rows).status == Placed
    ensures DecideOn(p, i, now, rows).verdict == PLACE && PriceGate(p, i, a).Clear? && i.book in KNOWN_BOOKS
    ensures RowOf(p, i, a, now, rows).odds == Recorded(PriceGate(p, i, a).price, i.odds)
  {
    hide Decide, PriceGate, StakedOn, BetsOn, OpenExposure;
  }

  /** A placed bet still has the edge that the floor and the drift tolerance leave, at the
      price at which it was placed and against the field it was scored against. */
  lemma PlacedEdge(p: BettingPolicy, i: Intent, a: Answers, now: Instant, rows: seq<Entry>, consensus: real)
    requires EdgeOf(i.odds, consensus, p.basis, p.assumedOverround) == Some(i.edge)
    requires RowOf(p, i, a, now, rows).status == Placed
    requires p.maxPriceDrift <= 1.0 || p.minEv >= -1.0
    ensures var e := EdgeOf(RowOf(p, i, a, now, rows).odds, consensus, p.basis, p.assumedOverround);
            e.Some? && e.value >= (1.0 + p.minEv) * Worst(p.maxPriceDrift) - 1.0
  {
    hide *;
    var price := PlacedPrice(p, i, a, now, rows);
    EdgeAfterDrift(i.odds, price, consensus, p.basis, p.assumedOverround, p.minEv, p.maxPriceDrift);
  }

  /** The price of a placed row got through the gate, and its intent had the edge asked for. */
  lemma PlacedPrice(p: BettingPolicy, i: Intent, a: Answers, now: Instant, rows: seq<Entry>) returns (price: real)
    requires RowOf(p, i, a, now, rows).status == Placed
    ensures RowOf(p, i, a, now, rows).odds == price && i.edge >= p.minEv
    ensures Drift(i.odds, price, p.maxPriceDrift).ok
  {
    PlacedPassed(p, i, a, now, rows);
    hide RowOf, StakedOn, BetsOn, OpenExposure;
    price := PriceGate(p, i, a).price;
    hide Drift, Worst;
    DriftExactly(i.odds, price, p.maxPriceDrift);
  }
}
