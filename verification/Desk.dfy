/** The code that takes the steps of `MoneyPlane`: the proposal store
    (`betting/approvals.py`), the single path from an intent to a placement
    (`betting/execute.py`) and the two entry points (`betting/runner.py`). Each method is
    proved to do to its objects what the state machine does to its values. */
module Desk {
  import opened Wrappers
  import opened Scanner
  import opened Policy
  import opened Ledger
  import opened MoneyPlane

  /** A proposal on file. Its terms are fixed; its state is assigned. */
  class BetProposal {
    const terms: Proposal
    var state: State

    constructor (terms: Proposal)
      ensures this.terms == terms && state == terms.state
    {
      this.terms := terms;
      this.state := terms.state;
    }

    function Value(): Proposal
      reads this
    {
      terms.(state := state)
    }
  }

  /** The first `n` proposals have been looked at. */
  ghost function Marked(ps: seq<Proposal>, s: State, now: Instant, n: nat): (r: seq<Proposal>)
    requires n <= |ps|
    ensures |r| == |ps|
    ensures forall i :: n <= i < |ps| ==> r[i] == ps[i]
    ensures forall i :: 0 <= i < n ==> r[i] == ExpireAll(ps, s, now)[i]
  {
    ExpireAll(ps, s, now)[..n] + ps[n..]
  }

  lemma MarkOne(ps: seq<Proposal>, s: State, now: Instant, i: nat)
    requires i < |ps|
    ensures Marked(ps, s, now, i)[i] == ps[i]
    ensures Marked(ps, s, now, i + 1) ==
            if ps[i].state == s && IsExpired(ps[i], now) then SetState(Marked(ps, s, now, i), i, Expired)
            else Marked(ps, s, now, i)
  {
  }

  lemma MarkedEnds(ps: seq<Proposal>, s: State, now: Instant)
    ensures Marked(ps, s, now, 0) == ps && Marked(ps, s, now, |ps|) == ExpireAll(ps, s, now)
  {
  }

  /** The objects of the live proposals among the first `n`. */
  ghost function LiveObjects(file: seq<BetProposal>, ps: seq<Proposal>, s: State, now: Instant, n: nat)
    : seq<BetProposal>
    requires n <= |file| == |ps|
  {
    if n == 0 then []
    else
      LiveObjects(file, ps, s, now, n - 1)
      + if ps[n - 1].state == s && !IsExpired(ps[n - 1], now) then [file[n - 1]] else []
  }

  lemma LiveOne(file: seq<BetProposal>, ps: seq<Proposal>, s: State, now: Instant, i: nat)
    requires i < |file| == |ps|
    ensures ps[i].state == s && !IsExpired(ps[i], now) ==>
              LiveObjects(file, ps, s, now, i + 1) == LiveObjects(file, ps, s, now, i) + [file[i]]
    ensures ps[i].state != s || IsExpired(ps[i], now) ==>
              LiveObjects(file, ps, s, now, i + 1) == LiveObjects(file, ps, s, now, i)
  {
  }

  lemma LivePosition(ps: seq<Proposal>, s: State, now: Instant, i: nat)
    requires i < |ps|
    ensures ps[i].state == s && !IsExpired(ps[i], now) ==>
              MoneyPlane.Live(ps, s, now, i + 1) == MoneyPlane.Live(ps, s, now, i) + [i]
    ensures ps[i].state != s || IsExpired(ps[i], now) ==>
              MoneyPlane.Live(ps, s, now, i + 1) == MoneyPlane.Live(ps, s, now, i)
  {
  }

  lemma NoneLive(file: seq<BetProposal>, ps: seq<Proposal>, s: State, now: Instant)
    requires |file| == |ps|
    ensures LiveObjects(file, ps, s, now, 0) == []
  {
  }

  /** `objects` are those on file at the positions `at`. */
  ghost predicate Standing(file: seq<BetProposal>, objects: seq<BetProposal>, at: seq<nat>) {
    |objects| == |at| && forall k :: 0 <= k < |at| ==> at[k] < |file| && objects[k] == file[at[k]]
  }

  lemma OneMoreStands(file: seq<BetProposal>, objects: seq<BetProposal>, at: seq<nat>, i: nat)
    requires Standing(file, objects, at) && i < |file|
    ensures Standing(file, objects + [file[i]], at + [i])
  {
  }

  lemma {:induction false} LiveObjectsAre(file: seq<BetProposal>, ps: seq<Proposal>, s: State, now: Instant, n: nat)
    requires n <= |file| == |ps|
    ensures Standing(file, LiveObjects(file, ps, s, now, n), MoneyPlane.Live(ps, s, now, n))
  {
    if n > 0 {
      hide *;
      LiveObjectsAre(file, ps, s, now, n - 1);
      LiveOne(file, ps, s, now, n - 1);
      LivePosition(ps, s, now, n - 1);
      if ps[n - 1].state == s && !IsExpired(ps[n - 1], now) {
        OneMoreStands(file, LiveObjects(file, ps, s, now, n - 1), MoneyPlane.Live(ps, s, now, n - 1), n - 1);
      }
    }
  }

  class Store {
    var proposals: seq<BetProposal>
    /** What is on file, as values. */
    ghost var view: seq<Proposal>

    constructor ()
      ensures Valid() && proposals == [] && view == []
    {
      proposals, view := [], [];
    }

    /** No proposal object is on file twice, and `view` says what each holds. */
    ghost predicate Valid()
      reads this, proposals
    {
      && |view| == |proposals|
      && (forall i, j :: 0 <= i < j < |proposals| ==> proposals[i] != proposals[j])
      && (this as object) !in (set i | 0 <= i < |proposals| :: proposals[i] as object)
      && forall i :: 0 <= i < |proposals| ==> proposals[i].Value() == view[i]
    }

    method Add(p: BetProposal)
      requires Valid() && p !in proposals
      modifies this
      ensures Valid() && proposals == old(proposals) + [p] && view == old(view) + [p.Value()]
    {
      proposals, view := proposals + [p], view + [p.Value()];
    }

    /** Sets one proposal's state. */
    method Assign(i: nat, s: State)
      requires Valid() && i < |proposals|
      modifies proposals[i], this`view
      ensures Valid() && view == SetState(old(view), i, s)
    {
      proposals[i].state := s;
      view := SetState(view, i, s);
    }

    /** The one proposal whose id starts with `prefix`; none if several do. */
    method FindOne(prefix: string) returns (hit: Option<nat>)
      requires Valid()
      ensures hit == Find(view, prefix)
    {
      var hits: seq<nat> := [];
      for i := 0 to |proposals|
        invariant forall k :: 0 <= k < |hits| ==> hits[k] < i && prefix <= view[hits[k]].id
        invariant forall k, l :: 0 <= k < l < |hits| ==> hits[k] < hits[l]
        invariant forall j :: 0 <= j < i && prefix <= view[j].id ==> j in hits
      {
        assert proposals[i].Value() == view[i];
        if prefix <= proposals[i].terms.id {
          hits := hits + [i];
        }
      }
      if |hits| == 1 {
        assert OnlyMatch(view, prefix, hits[0]);
        return Some(hits[0]);
      }
      forall i: nat ensures !OnlyMatch(view, prefix, i) {
        if |hits| >= 2 {
          assert hits[0] < hits[1];
        }
      }
      return None;
    }

    /** The loop that both readers share: proposals in state `s` that are out of time are
        marked expired, the others are returned in order. */
    method LiveIn(s: State, now: Instant) returns (out: seq<BetProposal>)
      requires Valid()
      modifies proposals, this`view
      ensures Valid() && view == ExpireAll(old(view), s, now)
      ensures out == LiveObjects(proposals, old(view), s, now, |proposals|)
    {
      hide Marked, LiveObjects, IsExpired;
      out := [];
      ghost var before := view;
      MarkedEnds(before, s, now);
      NoneLive(proposals, before, s, now);
      for i := 0 to |proposals|
        invariant Valid() && view == Marked(before, s, now, i)
        invariant out == LiveObjects(proposals, before, s, now, i)
      {
        MarkOne(before, s, now, i);
        LiveOne(proposals, before, s, now, i);
        var p := proposals[i];
        assert p.Value() == view[i] == before[i];
        if p.state == s {
          if IsExpired(p.Value(), now) {
            Assign(i, Expired);
          } else {
            out := out + [p];
          }
        }
      }
    }

    /** Pending proposals that are still live; the others are marked expired on read. */
    method PendingNow(now: Instant) returns (out: seq<BetProposal>)
      requires Valid()
      modifies proposals, this`view
      ensures Valid() && view == ExpireAll(old(view), Pending, now)
      ensures out == LiveObjects(proposals, old(view), Pending, now, |proposals|)
    {
      out := LiveIn(Pending, now);
    }

    /** Approved proposals that are still live: an approval does not stop the clock. */
    method ApprovedNow(now: Instant) returns (out: seq<BetProposal>)
      requires Valid()
      modifies proposals, this`view
      ensures Valid() && view == ExpireAll(old(view), Approved, now)
      ensures out == LiveObjects(proposals, old(view), Approved, now, |proposals|)
    {
      out := LiveIn(Approved, now);
    }

    /** A pending, unexpired proposal is approved; an expired one is marked so. */
    method Approve(prefix: string, now: Instant) returns (approved: bool)
      requires Valid()
      modifies proposals, this`view
      ensures Valid() && view == ApproveIn(old(view), prefix, now)
      ensures approved <==>
                var hit := Find(old(view), prefix);
                hit.Some? && old(view)[hit.value].state == Pending && !IsExpired(old(view)[hit.value], now)
    {
      var hit := FindOne(prefix);
      if hit.None? {
        return false;
      }
      var p := proposals[hit.value];
      assert p.Value() == view[hit.value];
      if p.state != Pending {
        return false;
      }
      if IsExpired(p.Value(), now) {
        Assign(hit.value, Expired);
        return false;
      }
      Assign(hit.value, State.Approved);
      return true;
    }

    /** Rejects whatever state the proposal is in. */
    method Reject(prefix: string) returns (found: bool)
      requires Valid()
      modifies proposals, this`view
      ensures Valid() && view == RejectIn(old(view), prefix)
      ensures found <==> Find(old(view), prefix).Some?
    {
      var hit := FindOne(prefix);
      if hit.Some? {
        Assign(hit.value, Refused);
      }
      return hit.Some?;
    }

    /** Where the first proposal with that id stands; past the end if there is none. */
    method PositionById(id: string) returns (at: nat)
      requires Valid()
      ensures at == FirstWithId(view, id)
    {
      for i := 0 to |proposals|
        invariant forall j :: 0 <= j < i ==> view[j].id != id
      {
        assert proposals[i].Value() == view[i];
        if proposals[i].terms.id == id {
          return i;
        }
      }
      return |proposals|;
    }

    /** The first proposal with that id gets its outcome. */
    method Record(id: string, ok: bool)
      requires Valid()
      modifies proposals, this`view
      ensures Valid() && view == RecordOutcome(old(view), id, ok)
    {
      var at := PositionById(id);
      if at < |proposals| {
        assert proposals[at] in proposals;
        Assign(at, if ok then Done else Failed);
      }
    }
  }

  // ----- the money path -----

  /** The bookmakers, as far as they can be seen: the placement calls made. */
  class Bookmaker {
    var sent: seq<Sent>

    constructor ()
      ensures sent == []
    {
      sent := [];
    }

    /** One placement call. Nothing ever repeats it. */
    method Place(proposal: Option<string>, at: Instant, stake: real, answer: PlaceAnswer)
      modifies this
      ensures sent == old(sent) + [Sent(proposal, at, stake, answer.Says? && answer.ok)]
    {
      sent := sent + [Sent(proposal, at, stake, answer.Says? && answer.ok)];
    }
  }

  datatype Outcome = Outcome(status: Status, stake: real, price: real)

  /** What the caller is told is what the row says. */
  predicate Tells(o: Outcome, row: Entry) {
    o == Outcome(row.status, row.stake, row.odds)
  }

  /** Writes the one row of an intent, stamped with the time it was decided at. */
  method RecordRow(ledger: LedgerFile, i: Intent, now: Instant, status: Status, stake: real, price: real, settled: bool)
    returns (o: Outcome)
    modifies ledger
    ensures ledger.rows ==
            old(ledger.rows) + [Entry(i.id, now, status, i.book, stake, Recorded(price, i.odds), i.edge, settled)]
    ensures o == Outcome(status, stake, Recorded(price, i.odds))
  {
    ledger.Append(Entry(i.id, now, status, i.book, stake, Recorded(price, i.odds), i.edge, settled));
    o := Outcome(status, stake, Recorded(price, i.odds));
  }

  /** The re-price before a placement: `None` if the bet is to be abandoned. */
  method Reprice(p: BettingPolicy, i: Intent, a: Answers) returns (price: Option<real>, last: real)
    ensures var gate := PriceGate(p, i, a);
            last == gate.price && price == if gate.Clear? then Some(gate.price) else None
  {
    last := i.odds;
    if i.book in KNOWN_BOOKS && i.repriceable {
      if a.quote.QuoteRaises? {
        return None, last;
      }
      if !a.hasReader {
        return None, last;
      }
      if a.quote.QuoteUnreadable? {
        return None, last;
      }
      last := a.quote.price;
      var gate := Drift(i.odds, last, p.maxPriceDrift);
      if !gate.ok {
        return None, last;
      }
      last := gate.price;
    }
    price := Some(last);
  }

  /** `run_intent`: decide, re-price, check, place once, record once. */
  method RunIntent(p: BettingPolicy, i: Intent, a: Answers, now: Instant, ledger: LedgerFile, book: Bookmaker,
                   proposal: Option<string>)
    returns (o: Outcome, d: Decision)
    modifies ledger, book
    ensures d == DecideOn(p, i, now, old(ledger.rows))
    ensures ledger.rows == old(ledger.rows) + [RowOf(p, i, a, now, old(ledger.rows))]
    ensures book.sent == old(book.sent) + SentFor(p, i, a, now, old(ledger.rows), proposal)
    ensures Tells(o, RowOf(p, i, a, now, old(ledger.rows)))
  {
    d := DecideOn(p, i, now, ledger.rows);
    if d.verdict == SKIP {
      o := RecordRow(ledger, i, now, Skipped, 0.0, 0.0, false);
      return;
    }
    if d.verdict == PAPER {
      o := RecordRow(ledger, i, now, Paper, d.stake, 0.0, false);
      return;
    }
    if d.verdict == ASK {
      o := RecordRow(ledger, i, now, Asked, d.stake, 0.0, false);
      return;
    }
    var price, last := Reprice(p, i, a);
    if price.None? {
      o := RecordRow(ledger, i, now, Rejected, d.stake, last, false);
      return;
    }
    if i.book == "unibet" && i.checkable && a.check != CheckSays(true) {
      o := RecordRow(ledger, i, now, Rejected, d.stake, last, false);
      return;
    }
    // the gate places at known books only, and each of those has a placement tool
    assert i.book in KNOWN_BOOKS;
    book.Place(proposal, now, i.payloadStake, a.place);
    if a.place.PlaceRaises? {
      o := RecordRow(ledger, i, now, Rejected, d.stake, last, false);
    } else if !a.place.ok {
      o := RecordRow(ledger, i, now, Rejected, d.stake, last, a.place.settled);
    } else {
      o := RecordRow(ledger, i, now, Placed, d.stake, last, a.place.settled);
    }
  }

  /** One approved proposal: the money path under the placing copy, then its outcome. */
  method PlaceProposal(p: BettingPolicy, q: BetProposal, ghost i: nat, a: Answers, now: Instant, store: Store,
                       ledger: LedgerFile, book: Bookmaker)
    returns (o: Outcome)
    requires store.Valid() && i < |store.proposals| && store.proposals[i] == q
    modifies store.proposals, store`view, ledger, book
    ensures store.Valid() && store.proposals == old(store.proposals)
    ensures Plane(ledger.rows, store.view, book.sent) ==
            PlaceOne(p, Plane(old(ledger.rows), old(store.view), old(book.sent)), i, a, now)
    ensures |ledger.rows| == |old(ledger.rows)| + 1 && old(ledger.rows) <= ledger.rows
    ensures Tells(o, ledger.rows[|old(ledger.rows)|])
  {
    assert q.Value() == store.view[i];
    var d;
    o, d := RunIntent(AsPlacingPolicy(p, q.terms.book), IntentOf(q.terms), a, now, ledger, book, Some(q.terms.id));
    assert store.Valid();
    store.Record(q.terms.id, o.status == Placed);
  }

  /** The outcomes handed back are those of the rows added, one for each. */
  ghost predicate Told(outcomes: seq<Outcome>, before: seq<Entry>, rows: seq<Entry>) {
    && |rows| == |before| + |outcomes|
    && forall k :: 0 <= k < |outcomes| ==> Tells(outcomes[k], rows[|before| + k])
  }

  /** `live` are the objects on file at the positions `at`. */
  ghost predicate Filed(file: seq<BetProposal>, live: seq<BetProposal>, at: seq<nat>) {
    && |live| == |at| && InRange(at, |file|)
    && forall k :: 0 <= k < |at| && at[k] < |file| ==> file[at[k]] == live[k]
  }

  /** The loop over the selected proposals. */
  method PlaceEach(p: BettingPolicy, live: seq<BetProposal>, ghost at: seq<nat>, visits: nat -> Visit,
                   store: Store, ledger: LedgerFile, book: Bookmaker)
    returns (outcomes: seq<Outcome>)
    requires store.Valid() && Filed(store.proposals, live, at)
    modifies store.proposals, store`view, ledger, book
    ensures store.Valid() && |outcomes| == |live|
    ensures Plane(ledger.rows, store.view, book.sent) ==
            PlaceAll(p, Plane(old(ledger.rows), old(store.view), old(book.sent)), at, visits)
    ensures Told(outcomes, old(ledger.rows), ledger.rows)
  {
    hide PlaceOne;
    outcomes := [];
    ghost var start := Plane(ledger.rows, store.view, book.sent);
    ghost var s := start;
    var file := store.proposals;
    for k := 0 to |live|
      invariant store.Valid() && store.proposals == file
      invariant |outcomes| == k
      invariant s == Plane(ledger.rows, store.view, book.sent)
      invariant s == PlaceAll(p, start, at[..k], visits)
      invariant Told(outcomes, start.rows, ledger.rows)
    {
      assert file[at[k]] == live[k];
      assert at[..k + 1][..k] == at[..k];
      var o := PlaceProposal(p, live[k], at[k], visits(k).answers, visits(k).now, store, ledger, book);
      outcomes := outcomes + [o];
      s := PlaceOne(p, s, at[k], visits(k).answers, visits(k).now);
    }
    assert at[..|at|] == at;
  }

  /** `place_approved`: every proposal that is approved and unexpired at `now`, in order, each
      at the time of its own turn. */
  method PlaceApprovedBets(p: BettingPolicy, visits: nat -> Visit, now: Instant, store: Store,
                           ledger: LedgerFile, book: Bookmaker)
    returns (outcomes: seq<Outcome>)
    requires store.Valid()
    modifies store.proposals, store`view, ledger, book
    ensures store.Valid()
    ensures var before := Plane(old(ledger.rows), old(store.view), old(book.sent));
            && Plane(ledger.rows, store.view, book.sent) == Next(p, before, PlaceApproved(visits, now))
            && |outcomes| == |Takes(before, now)|
            && Told(outcomes, before.rows, ledger.rows)
  {
    hide PlaceAll, Live, LiveObjects;
    ghost var before := Plane(ledger.rows, store.view, book.sent);
    LiveObjectsAre(store.proposals, store.view, State.Approved, now, |store.proposals|);
    var live := store.ApprovedNow(now);
    assert Plane(ledger.rows, store.view, book.sent) == Expiring(before, now);
    assert Filed(store.proposals, live, Takes(before, now));
    outcomes := PlaceEach(p, live, Takes(before, now), visits, store, ledger, book);
  }

  /** `scan_fixture`: compare, score, and act on the best candidate only. */
  method ScanFixture(p: BettingPolicy, quotes: seq<Quote>, buildable: bool, repriceable: bool, checkable: bool,
                     keepsStore: bool, intentId: string, proposalId: string, expiresAt: Instant, a: Answers,
                     now: Instant, store: Store, ledger: LedgerFile, book: Bookmaker)
    returns (candidates: seq<Candidate>, ghost step: Step)
    requires store.Valid()
    modifies store, ledger, book
    ensures store.Valid()
    ensures BestFirst(BoardOf(quotes, MIN_BOOKS_FOR_CONSENSUS), candidates, p.basis, p.assumedOverround,
                      if p.books == {} then None else Some(p.books))
    ensures var best := if candidates == [] then None else Some(candidates[0]);
            step == ScanStep(Scan(best, buildable, repriceable, checkable, keepsStore, intentId, proposalId, expiresAt),
                             a, now)
    ensures Plane(ledger.rows, store.view, book.sent) ==
            Next(p, Plane(old(ledger.rows), old(store.view), old(book.sent)), step)
  {
    candidates := CandidatesFromComparison(quotes, p.basis, p.assumedOverround, MIN_BOOKS_FOR_CONSENSUS,
                                           if p.books == {} then None else Some(p.books));
    var best := if candidates == [] then None else Some(candidates[0]);
    var scan := Scan(best, buildable, repriceable, checkable, keepsStore, intentId, proposalId, expiresAt);
    step := ScanStep(scan, a, now);
    if best.None? || !buildable {
      return;
    }
    var i := ScanIntent(p, scan);
    var o, d := RunIntent(p, i, a, now, ledger, book, None);
    if d.verdict == ASK && keepsStore {
      var proposal := new BetProposal(ProposalOf(p, scan, d.stake));
      store.Add(proposal);
    }
  }
}
