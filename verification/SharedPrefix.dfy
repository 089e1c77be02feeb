/** What happens when two proposals share the twelve characters that become a bet's intent id
    (`betting/runner.py`, `betting/ledger.py`): a run that places one and has the other
    refused, after which the ledger counts nothing as open. */
module SharedPrefix {
  import opened Wrappers
  import opened Scanner
  import opened Policy
  import opened Ledger
  import opened MoneyPlane

  /** The row of an approved proposal. */
  function PlacingRow(p: BettingPolicy, q: Proposal, v: Visit, rows: seq<Entry>): Entry {
    RowOf(AsPlacingPolicy(p, q.book), IntentOf(q), v.answers, v.now, rows)
  }

  /** Of two proposals with one prefix the second, refused, hides the first, placed and
      open. */
  lemma SharedPrefixHides(p: BettingPolicy, s: Plane, i: nat, v: Visit, j: nat, w: Visit)
    requires i < |s.proposals| && j < |s.proposals|
    requires IntentId(s.proposals[i].id) == IntentId(s.proposals[j].id)
    requires IntentId(s.proposals[i].id) !in ReceiptSettled(s.rows)
    requires var row := PlacingRow(p, s.proposals[i], v, s.rows);
             row.status == Placed && !row.settled
    requires var row := PlacingRow(p, s.proposals[j], w, PlaceOne(p, s, i, v.answers, v.now).rows);
             row.status == Rejected && !row.settled
    ensures HiddenByRefusal(PlaceOne(p, PlaceOne(p, s, i, v.answers, v.now), j, w.answers, w.now).rows)
  {
    var one := PlaceOne(p, s, i, v.answers, v.now);
    PlaceOneAdds(p, s, i, v.answers, v.now);
    assert IntentOf(one.proposals[j]) == IntentOf(s.proposals[j]) && one.proposals[j].book == s.proposals[j].book;
    PlaceOneAdds(p, one, j, w.answers, w.now);
    var placed := PlacingRow(p, s.proposals[i], v, s.rows);
    var refused := PlacingRow(p, s.proposals[j], w, one.rows);
    hide PlaceOne, IntentId, RowOf;
    HidesBehind(s.rows, placed, refused);
  }

  lemma PlaceOneAdds(p: BettingPolicy, s: Plane, i: nat, a: Answers, now: Instant)
    requires i < |s.proposals|
    ensures var t, row := PlaceOne(p, s, i, a, now),
                          RowOf(AsPlacingPolicy(p, s.proposals[i].book), IntentOf(s.proposals[i]), a, now, s.rows);
            && t.rows == s.rows + [row] && row.intentId == IntentId(s.proposals[i].id)
            && |t.proposals| == |s.proposals|
            && forall k :: 0 <= k < |s.proposals| ==> t.proposals[k] == s.proposals[k].(state := t.proposals[k].state)
  {
    hide DecideOn, SentFor, PriceGate, FirstWithId, IntentId;
  }

  lemma HidesBehind(rows: seq<Entry>, placed: Entry, refused: Entry)
    requires placed.status == Placed && refused.status == Rejected && !placed.settled && !refused.settled
    requires placed.intentId == refused.intentId && placed.intentId !in ReceiptSettled(rows)
    ensures HiddenByRefusal(rows + [placed] + [refused])
  {
    var all := rows + [placed] + [refused];
    assert placed in all && refused in all;
    assert placed.intentId !in ReceiptSettled(all);
  }

  // ----- such a run -----

  const ASKS := BettingPolicy(
    AskMode, map[], 0.0, Flat, 10.0, 0.25, 100.0, 10.0, 100.0, 100.0, 10, {}, None, 0.1, Relative, 0.0, false)

  const FIRST := "aaaaaaaaaaaa1"
  const SECOND := "aaaaaaaaaaaa2"

  const SILENT := Answers(false, QuoteRaises, CheckRaises, PlaceRaises)

  function ScanFor(intent: string, proposal: string): Scan {
    Scan(Some(Candidate("tab", 2.0, 1.8, 0.1, 3)), true, false, false, true, intent, proposal, 100)
  }

  function AskedRow(intent: string): Entry {
    Entry(intent, 0, Asked, "tab", 10.0, 2.0, 0.1, false)
  }

  function Filed(id: string, state: State): Proposal {
    Proposal(id, "tab", 2.0, 0.1, 10.0, 10.0, false, false, 100, state)
  }

  lemma {:induction false} NothingAtStake(rows: seq<Entry>, settled: set<string>)
    requires forall e :: e in rows ==> e.status == Asked
    ensures Open(rows, settled) == 0.0
    ensures forall day :: StakedOn(rows, day) == 0.0 && BetsOn(rows, day) == 0
  {
    if rows != [] {
      assert rows[|rows| - 1] in rows;
      NothingAtStake(rows[..|rows| - 1], settled);
      forall day ensures StakedOn(rows, day) == 0.0 && BetsOn(rows, day) == 0 {
        assert StakedOn(rows[..|rows| - 1], day) == 0.0;
      }
    }
  }

  /** Each scan asks, and files its proposal. */
  lemma ScanFiles(s: Plane, intent: string, proposal: string)
    requires forall e :: e in s.rows ==> e.status == Asked
    ensures RunScan(ASKS, s, ScanFor(intent, proposal), SILENT, 0) ==
            Plane(s.rows + [AskedRow(intent)], s.proposals + [Filed(proposal, Pending)], s.sent)
  {
    NothingAtStake(s.rows, SettledIds(s.rows));
    hide Open, StakedOn, BetsOn, SettledIds;
    var i := ScanIntent(ASKS, ScanFor(intent, proposal));
    assert DecideOn(ASKS, i, 0, s.rows) == Decision(ASK, SetToAsk, false, 10.0);
    assert SentFor(ASKS, i, SILENT, 0, s.rows, None) == [];
    assert s.sent + [] == s.sent;
  }

  lemma IdsDiffer()
    ensures FIRST != SECOND && !(FIRST <= SECOND) && !(SECOND <= FIRST)
    ensures IntentId(FIRST) == IntentId(SECOND)
  {
    assert FIRST[12] != SECOND[12];
    assert FIRST[..12] == SECOND[..12];
  }

  /** Each approval finds its proposal. */
  lemma ApprovesOne(ps: seq<Proposal>, i: nat)
    requires |ps| == 2 && i < 2 && ps[0].id == FIRST && ps[1].id == SECOND
    requires ps[i].state == Pending && ps[i].expiresAt == 100
    ensures ApproveIn(ps, ps[i].id, 1) == SetState(ps, i, Approved)
  {
    IdsDiffer();
    assert OnlyMatch(ps, ps[i].id, i);
  }

  lemma BothLive(ps: seq<Proposal>)
    requires ps == [Filed(FIRST, Approved), Filed(SECOND, Approved)]
    ensures Live(ps, Approved, 2, 2) == [0, 1] && ExpireAll(ps, Approved, 2) == ps
  {
    assert Live(ps, Approved, 2, 0) == [];
    assert Live(ps, Approved, 2, 1) == [0];
  }

  /** The first bet is accepted, every other refused. */
  function Turn(n: nat): Visit {
    Visit(Answers(false, QuoteRaises, CheckRaises, Says(n == 0, false)), 2)
  }

  lemma PlacesFirst(rows: seq<Entry>)
    requires forall e :: e in rows ==> e.status == Asked
    ensures PlacingRow(ASKS, Filed(FIRST, Approved), Turn(0), rows) ==
            Entry(IntentId(FIRST), 2, Placed, "tab", 10.0, 2.0, 0.1, false)
  {
    NothingAtStake(rows, SettledIds(rows));
    hide Open, StakedOn, BetsOn, SettledIds;
    var i, q := IntentOf(Filed(FIRST, Approved)), AsPlacingPolicy(ASKS, "tab");
    assert DecideOn(q, i, 2, rows) == Decision(PLACE, Inside, false, 10.0);
  }

  lemma RefusesSecond(rows: seq<Entry>, placed: Entry)
    requires forall e :: e in rows ==> e.status == Asked
    requires placed == Entry(IntentId(FIRST), 2, Placed, "tab", 10.0, 2.0, 0.1, false)
    ensures var row := PlacingRow(ASKS, Filed(SECOND, Approved), Turn(1), rows + [placed]);
            row.status == Rejected && !row.settled
  {
    var all := rows + [placed];
    NothingAtStake(rows, SettledIds(all));
    Appended(rows, placed, 0);
    OpenAppended(rows, placed, SettledIds(all));
    hide Open, StakedOn, BetsOn, SettledIds;
    var i, q := IntentOf(Filed(SECOND, Approved)), AsPlacingPolicy(ASKS, "tab");
    assert DayOf(2) == 0;
    assert DecideOn(q, i, 2, all).verdict == PLACE;
  }

  /** The steps of the run: two scans, two approvals, one batch. */
  function StepsToHiding(): seq<Step> {
    [ScanStep(ScanFor("x", FIRST), SILENT, 0), ScanStep(ScanFor("y", SECOND), SILENT, 0),
     Approve(FIRST, 1), Approve(SECOND, 1), PlaceApproved(Turn, 2)]
  }

  ghost function StatesToHiding(): seq<Plane> {
    var asked := [AskedRow("x"), AskedRow("y")];
    var pending := Plane(asked, [Filed(FIRST, Pending), Filed(SECOND, Pending)], []);
    var half := Plane(asked, [Filed(FIRST, Approved), Filed(SECOND, Pending)], []);
    var approved := Plane(asked, [Filed(FIRST, Approved), Filed(SECOND, Approved)], []);
    [Plane([], [], []), Plane([AskedRow("x")], [Filed(FIRST, Pending)], []), pending, half, approved,
     RunPlacements(ASKS, approved, Turn, 2)]
  }

  lemma StepsAreTaken()
    ensures IsRun(ASKS, StatesToHiding(), StepsToHiding())
  {
    hide RunScan, RunPlacements, ApproveIn;
    var states, steps := StatesToHiding(), StepsToHiding();
    ScanFiles(states[0], "x", FIRST);
    ScanFiles(states[1], "y", SECOND);
    assert states[2] == RunScan(ASKS, states[1], ScanFor("y", SECOND), SILENT, 0);
    ApprovesOne(states[2].proposals, 0);
    ApprovesOne(states[3].proposals, 1);
    assert states[3].proposals == SetState(states[2].proposals, 0, Approved);
    assert states[4].proposals == SetState(states[3].proposals, 1, Approved);
  }

  /** Its batch places the first proposal and has the second refused. */
  lemma BatchHides(s: Plane)
    requires s == Plane([AskedRow("x"), AskedRow("y")], [Filed(FIRST, Approved), Filed(SECOND, Approved)], [])
    ensures HiddenByRefusal(RunPlacements(ASKS, s, Turn, 2).rows)
  {
    BothLive(s.proposals);
    IdsDiffer();
    PlacesFirst(s.rows);
    var placed := PlacingRow(ASKS, s.proposals[0], Turn(0), s.rows);
    hide RowOf, SentFor, HiddenByRefusal, Live, ExpireAll, PlacingRow, IntentId;
    var one := PlaceOne(ASKS, s, 0, Turn(0).answers, Turn(0).now);
    RefusesSecond(s.rows, placed);
    PlaceOneAdds(ASKS, s, 0, Turn(0).answers, Turn(0).now);
    assert one.rows == s.rows + [placed];
    assert ReceiptSettled(s.rows) == {};
    SharedPrefixHides(ASKS, s, 0, Turn(0), 1, Turn(1));
    TwoSelected(s);
  }

  lemma TwoSelected(s: Plane)
    requires |s.proposals| == 2
    ensures PlaceAll(ASKS, s, [0, 1], Turn) ==
            PlaceOne(ASKS, PlaceOne(ASKS, s, 0, Turn(0).answers, Turn(0).now), 1, Turn(1).answers, Turn(1).now)
  {
    hide PlaceOne;
    assert [0, 1][..1] == [0] && [0][..0] == [];
    assert PlaceAll(ASKS, s, [], Turn) == s;
    assert PlaceAll(ASKS, s, [0], Turn) == PlaceOne(ASKS, s, 0, Turn(0).answers, Turn(0).now);
  }

  /** A run from the empty ledger, by scans, approvals and one batch, to a ledger whose open
      exposure misses an open placement. Its proposals have different ids. */
  lemma HidingIsReached()
    ensures var states, steps := StatesToHiding(), StepsToHiding();
            && states[0] == Plane([], [], []) && |states| == 6
            && IsFreshRun(ASKS, states, steps)
            && HiddenByRefusal(states[5].rows)
  {
    hide HiddenByRefusal, RunPlacements, IsRun;
    var states, steps := StatesToHiding(), StepsToHiding();
    StepsAreTaken();
    IdsDiffer();
    BatchHides(states[4]);
  }
}
