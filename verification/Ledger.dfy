/** The append-only betting ledger and the arithmetic the budget reads from it
    (`betting/ledger.py`). */
module Ledger {
  import opened Policy

  datatype Status = Paper | Asked | Placed | Rejected | Skipped

  /** One decision. `settled` says that the book's receipt carries a settlement. */
  datatype Entry = Entry(
    intentId: string, at: Instant, status: Status, book: string, stake: real, odds: real, edge: real, settled: bool)

  /** Only real placements consume real money. */
  predicate SpendsBudget(e: Entry) {
    e.status == Placed
  }

  predicate PlacedOn(e: Entry, day: int) {
    SpendsBudget(e) && DayOf(e.at) == day
  }

  function StakedOn(rows: seq<Entry>, day: int): real {
    if rows == [] then 0.0
    else StakedOn(rows[..|rows| - 1], day) + if PlacedOn(rows[|rows| - 1], day) then rows[|rows| - 1].stake else 0.0
  }

  function BetsOn(rows: seq<Entry>, day: int): nat {
    if rows == [] then 0
    else BetsOn(rows[..|rows| - 1], day) + if PlacedOn(rows[|rows| - 1], day) then 1 else 0
  }

  /** A row that takes its intent out of the open ones. */
  predicate Settles(e: Entry) {
    e.status == Rejected || e.settled
  }

  function SettledIds(rows: seq<Entry>): set<string> {
    set e | e in rows && Settles(e) :: e.intentId
  }

  /** The stakes of the placed rows whose intent is not in `settled`. */
  function Open(rows: seq<Entry>, settled: set<string>): real {
    if rows == [] then 0.0
    else
      var e := rows[|rows| - 1];
      Open(rows[..|rows| - 1], settled) + if SpendsBudget(e) && e.intentId !in settled then e.stake else 0.0
  }

  function OpenExposure(rows: seq<Entry>): real {
    Open(rows, SettledIds(rows))
  }

  ghost predicate PositiveStakes(rows: seq<Entry>) {
    forall e :: e in rows && SpendsBudget(e) ==> e.stake > 0.0
  }

  lemma Appended(rows: seq<Entry>, e: Entry, day: int)
    ensures StakedOn([], day) == 0.0 && BetsOn([], day) == 0
    ensures var counts := e.status == Placed && day * 86_400_000_000 <= e.at < (day + 1) * 86_400_000_000;
            && StakedOn(rows + [e], day) == StakedOn(rows, day) + (if counts then e.stake else 0.0)
            && BetsOn(rows + [e], day) == BetsOn(rows, day) + if counts then 1 else 0
  {
    assert (rows + [e])[..|rows|] == rows;
  }

  lemma OpenAppended(rows: seq<Entry>, e: Entry, settled: set<string>)
    ensures Open(rows + [e], settled) ==
            Open(rows, settled) + if e.status == Placed && e.intentId !in settled then e.stake else 0.0
    ensures Open([], settled) == 0.0
  {
    assert (rows + [e])[..|rows|] == rows;
  }

  /** The exposure counts what is placed under an id that no row refuses or settles. */
  lemma ExposureCounts(rows: seq<Entry>, ids: set<string>)
    requires forall id :: id in ids <==>
               exists e :: e in rows && e.intentId == id && (e.status == Rejected || e.settled)
    ensures OpenExposure(rows) == Open(rows, ids)
  {
    forall id ensures id in ids <==> id in SettledIds(rows) {
      if id in ids {
        var e :| e in rows && e.intentId == id && (e.status == Rejected || e.settled);
        assert Settles(e);
      }
    }
    assert ids == SettledIds(rows);
  }

  /** Settling more leaves less open. */
  lemma {:induction false} OpenShrinks(rows: seq<Entry>, fewer: set<string>, more: set<string>)
    requires PositiveStakes(rows) && fewer <= more
    ensures Open(rows, more) <= Open(rows, fewer)
  {
    if rows != [] {
      assert rows[|rows| - 1] in rows;
      forall e | e in rows[..|rows| - 1] ensures e in rows {
      }
      OpenShrinks(rows[..|rows| - 1], fewer, more);
    }
  }

  /** Two settled sets that agree on the placed rows leave the same open. */
  lemma {:induction false} OpenAgrees(rows: seq<Entry>, s: set<string>, t: set<string>)
    requires forall e :: e in rows && SpendsBudget(e) ==> (e.intentId in s <==> e.intentId in t)
    ensures Open(rows, s) == Open(rows, t)
  {
    if rows != [] {
      assert rows[|rows| - 1] in rows;
      OpenAgrees(rows[..|rows| - 1], s, t);
    }
  }

  /** One more row raises the open exposure by at most what it places. */
  lemma ExposureGrowth(rows: seq<Entry>, e: Entry)
    requires PositiveStakes(rows) && (SpendsBudget(e) ==> e.stake > 0.0)
    ensures OpenExposure(rows + [e]) <= OpenExposure(rows) + if SpendsBudget(e) then e.stake else 0.0
  {
    var after := SettledIds(rows + [e]);
    assert SettledIds(rows) <= after;
    OpenAppended(rows, e, after);
    OpenShrinks(rows, SettledIds(rows), after);
  }

  ghost predicate NewId(rows: seq<Entry>, e: Entry) {
    forall r :: r in rows ==> r.intentId != e.intentId
  }

  /** A row of a new intent without a settlement raises it by exactly that. */
  lemma ExposureOfNewIntent(rows: seq<Entry>, e: Entry)
    requires NewId(rows, e) && !e.settled
    ensures OpenExposure(rows + [e]) == OpenExposure(rows) + if SpendsBudget(e) then e.stake else 0.0
  {
    var before, after := SettledIds(rows), SettledIds(rows + [e]);
    assert after == before + if Settles(e) then {e.intentId} else {};
    OpenAppended(rows, e, after);
    OpenAgrees(rows, before, after);
    assert e.intentId !in before;
  }

  // ----- what the open exposure is meant to be -----

  /** The intents with a settlement row, leaving refusals aside. */
  function ReceiptSettled(rows: seq<Entry>): set<string> {
    set e | e in rows && e.settled :: e.intentId
  }

  /** Everything placed and not yet settled. */
  function AtRisk(rows: seq<Entry>): real {
    Open(rows, ReceiptSettled(rows))
  }

  /** An open placement shares its intent id with a refusal. */
  ghost predicate HiddenByRefusal(rows: seq<Entry>) {
    exists p, r :: p in rows && r in rows && SpendsBudget(p) && r.status == Rejected
                   && p.intentId == r.intentId && p.intentId !in ReceiptSettled(rows)
  }

  /** The exposure read from the ledger is everything placed and not settled, exactly unless
      a refusal carries the id of an open placement. */
  lemma ExposureIsAtRisk(rows: seq<Entry>)
    requires PositiveStakes(rows)
    ensures OpenExposure(rows) <= AtRisk(rows)
    ensures OpenExposure(rows) == AtRisk(rows) <==> !HiddenByRefusal(rows)
  {
    OpenShrinks(rows, ReceiptSettled(rows), SettledIds(rows));
    if HiddenByRefusal(rows) {
      var p, r :| p in rows && r in rows && SpendsBudget(p) && r.status == Rejected
                  && p.intentId == r.intentId && p.intentId !in ReceiptSettled(rows);
      assert p.intentId in SettledIds(rows);
      OpenDrops(rows, ReceiptSettled(rows), SettledIds(rows), p);
    } else {
      OpenAgrees(rows, ReceiptSettled(rows), SettledIds(rows));
    }
  }

  lemma {:induction false} OpenDrops(rows: seq<Entry>, fewer: set<string>, more: set<string>, p: Entry)
    requires PositiveStakes(rows) && fewer <= more
    requires p in rows && SpendsBudget(p) && p.intentId in more && p.intentId !in fewer
    ensures Open(rows, more) < Open(rows, fewer)
  {
    var front, last := rows[..|rows| - 1], rows[|rows| - 1];
    assert last in rows;
    forall e | e in front ensures e in rows {
    }
    if p in front {
      OpenDrops(front, fewer, more, p);
    } else {
      assert p == last;
      OpenShrinks(front, fewer, more);
    }
  }

  /** Such a ledger: ten placed and open, then refused under the same id; nothing is
      counted as open. */
  lemma RefusalHidesPlacement()
    ensures var placed := Entry("a", 0, Placed, "tab", 10.0, 2.0, 0.1, false);
            var rows := [placed, placed.(status := Rejected)];
            AtRisk(rows) == 10.0 && OpenExposure(rows) == 0.0
  {
    var placed := Entry("a", 0, Placed, "tab", 10.0, 2.0, 0.1, false);
    var rows := [placed, placed.(status := Rejected)];
    assert [] + [placed] == [placed] && [placed] + [placed.(status := Rejected)] == rows;
    assert rows[1] in rows && "a" in SettledIds(rows);
    assert ReceiptSettled(rows) == {};
    forall settled | settled == SettledIds(rows) || settled == ReceiptSettled(rows)
      ensures Open(rows, settled) == if "a" in settled then 0.0 else 10.0
    {
      OpenAppended([], placed, settled);
      OpenAppended([placed], placed.(status := Rejected), settled);
    }
  }

  /** The file: rows are appended and never rewritten, and the budget is computed on read. */
  class LedgerFile {
    var rows: seq<Entry>

    constructor ()
      ensures rows == []
    {
      rows := [];
    }

    method Append(e: Entry)
      modifies this
      ensures rows == old(rows) + [e]
    {
      rows := rows + [e];
    }
  }
}
