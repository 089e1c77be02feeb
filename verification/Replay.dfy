/** How a replay treats one prediction (`quant/backtest.py`), said of the rows themselves: by
    which result it settles, which price is its entry and which its close, and when it wins. */
module Replay {
  import opened Wrappers
  import opened Backtest

  // ----- the rows of one prediction -----

  /** The price is on the prediction's selection, at the book asked for. */
  predicate IsOn(q: Price, book: Option<string>, p: Prediction) {
    q.id == p.id && q.market == p.market && q.selection == p.selection && (book.Some? ==> q.book == book.value)
  }

  /** Where the series of a prediction stands among all prices. */
  ghost function At(prices: seq<Price>, book: Option<string>, p: Prediction): seq<nat> {
    if prices == [] then []
    else
      var n := |prices| - 1;
      At(prices[..n], book, p) + if IsOn(prices[n], book, p) then [n] else []
  }

  lemma {:induction false} AtExactly(prices: seq<Price>, book: Option<string>, p: Prediction)
    ensures var at := At(prices, book, p);
            && (forall k, l :: 0 <= k < l < |at| ==> at[k] < at[l] < |prices|)
            && (forall k :: 0 <= k < |at| ==> at[k] < |prices|)
            && forall i :: 0 <= i < |prices| ==> (i in at <==> IsOn(prices[i], book, p))
    decreases |prices|
  {
    if prices != [] {
      var n := |prices| - 1;
      AtExactly(prices[..n], book, p);
      SeriesStep(prices, book, p);
      hide IsOn, At;
      assert forall i :: 0 <= i < n ==> prices[..n][i] == prices[i];
    }
  }

  /** It is every price on the prediction's selection, in order. */
  lemma {:induction false} SeriesExactly(prices: seq<Price>, book: Option<string>, p: Prediction)
    ensures var s, at := Series(prices, book, p), At(prices, book, p);
            && |s| == |at|
            && (forall k :: 0 <= k < |at| ==> at[k] < |prices| && s[k] == prices[at[k]])
            && (forall k, l :: 0 <= k < l < |at| ==> at[k] < at[l])
            && forall i :: 0 <= i < |prices| ==> (i in at <==> IsOn(prices[i], book, p))
    decreases |prices|
  {
    AtExactly(prices, book, p);
    if prices != [] {
      var n := |prices| - 1;
      SeriesExactly(prices[..n], book, p);
      SeriesStep(prices, book, p);
      hide IsOn, Series, At;
      assert forall i :: 0 <= i < n ==> prices[..n][i] == prices[i];
    }
  }

  lemma SeriesStep(prices: seq<Price>, book: Option<string>, p: Prediction)
    requires prices != []
    ensures var n := |prices| - 1;
            var on := IsOn(prices[n], book, p);
            && Series(prices, book, p) == Series(prices[..n], book, p) + (if on then [prices[n]] else [])
            && At(prices, book, p) == At(prices[..n], book, p) + if on then [n] else []
  {
  }

  /** The first price on the selection. */
  ghost predicate IsFirst(prices: seq<Price>, book: Option<string>, p: Prediction, i: nat)
    requires i < |prices|
  {
    IsOn(prices[i], book, p) && forall j :: 0 <= j < i ==> !IsOn(prices[j], book, p)
  }

  /** The last price on the selection. */
  ghost predicate IsLast(prices: seq<Price>, book: Option<string>, p: Prediction, i: nat)
    requires i < |prices|
  {
    IsOn(prices[i], book, p) && forall j :: i < j < |prices| ==> !IsOn(prices[j], book, p)
  }

  /** The last price on the selection that stood when the prediction was made; the first of
      all if none did, or if nobody knows when that was. */
  ghost predicate IsEntry(prices: seq<Price>, book: Option<string>, p: Prediction, i: nat)
    requires i < |prices|
  {
    if p.predictedAt.Some? && exists j :: 0 <= j < |prices| && Stood(prices[j], book, p) then
      Stood(prices[i], book, p) && forall j :: i < j < |prices| ==> !Stood(prices[j], book, p)
    else IsFirst(prices, book, p, i)
  }

  predicate Stood(q: Price, book: Option<string>, p: Prediction) {
    IsOn(q, book, p) && p.predictedAt.Some? && q.changedAt <= p.predictedAt.value
  }

  lemma FirstOfSeries(prices: seq<Price>, book: Option<string>, p: Prediction, i: nat)
    requires i < |prices| && IsFirst(prices, book, p, i)
    ensures Series(prices, book, p) != [] && Series(prices, book, p)[0] == prices[i]
  {
    SeriesExactly(prices, book, p);
    hide Series, At;
    var at := At(prices, book, p);
    var k :| 0 <= k < |at| && at[k] == i;
    assert at[0] in at && at[0] <= at[k];
  }

  lemma LastOfSeries(prices: seq<Price>, book: Option<string>, p: Prediction, i: nat)
    requires i < |prices| && IsLast(prices, book, p, i)
    ensures var s := Series(prices, book, p);
            s != [] && s[|s| - 1] == prices[i]
  {
    SeriesExactly(prices, book, p);
    hide Series, At;
    var at := At(prices, book, p);
    var k :| 0 <= k < |at| && at[k] == i;
    assert at[|at| - 1] in at && at[k] <= at[|at| - 1];
  }

  /** The entry of the code is that price. */
  lemma EntryExactly(prices: seq<Price>, book: Option<string>, p: Prediction, i: nat)
    requires i < |prices| && IsEntry(prices, book, p, i)
    ensures var s := Series(prices, book, p);
            s != [] && EntryRow(s, p.predictedAt) == prices[i]
  {
    var s, at := Series(prices, book, p), At(prices, book, p);
    SeriesExactly(prices, book, p);
    hide Series, At;
    if p.predictedAt.None? {
      FirstOfSeries(prices, book, p, i);
    } else {
      var t := p.predictedAt.value;
      var k := PrevailingLast(s, t);
      if j :| 0 <= j < |prices| && Stood(prices[j], book, p) {
        var m :| 0 <= m < |at| && at[m] == i;
        assert s[m] == prices[i] && s[m].changedAt <= t && m <= k;
        assert at[k] in at && at[k] >= i && Stood(prices[at[k]], book, p);
        assert at[k] == i;
      } else {
        FirstOfSeries(prices, book, p, i);
        forall m | 0 <= m < |at| ensures s[m].changedAt > t {
          assert at[m] in at && !Stood(prices[at[m]], book, p);
        }
      }
    }
  }

  // ----- the result it settles by -----

  /** The newest result row of the event itself. */
  ghost predicate IsOwn(results: seq<EventResult>, key: Key, k: nat) {
    && k < |results| && (results[k].provider, results[k].id) == key
    && forall j :: k < j < |results| ==> (results[j].provider, results[j].id) != key
  }

  lemma {:induction false} OwnExactly(results: seq<EventResult>, key: Key, k: nat)
    ensures ResultByKey(results, key) == Some(k) <==> IsOwn(results, key, k)
    decreases |results|
  {
    if results != [] {
      var n := |results| - 1;
      OwnExactly(results[..n], key, k);
      assert forall j :: 0 <= j < n ==> results[..n][j] == results[j];
    }
  }

  /** The newest result row of any event of the fixture. */
  ghost predicate IsOfFixture(events: seq<Event>, results: seq<EventResult>, f: Fixture, k: nat) {
    && k < |results| && FixtureOf(events, (results[k].provider, results[k].id)) == Some(f)
    && forall j :: k < j < |results| ==> FixtureOf(events, (results[j].provider, results[j].id)) != Some(f)
  }

  lemma {:induction false} OfFixtureExactly(events: seq<Event>, results: seq<EventResult>, f: Fixture, k: nat)
    ensures ResultByFixture(events, results, f) == Some(k) <==> IsOfFixture(events, results, f, k)
    decreases |results|
  {
    hide FixtureOf;
    if results != [] {
      var n := |results| - 1;
      OfFixtureExactly(events, results[..n], f, k);
      assert forall j :: 0 <= j < n ==> results[..n][j] == results[j];
    }
  }

  /** The last event row of the key names the fixture; failing that, all rows of the id do. */
  ghost predicate Names(events: seq<Event>, key: Key, f: Fixture) {
    if exists i :: 0 <= i < |events| && IsLastEvent(events, key, i) && events[i].fixture.Some? then
      exists i :: 0 <= i < |events| && IsLastEvent(events, key, i) && events[i].fixture == Some(f)
    else Known(events, key.1) && Agreed(events, key.1, f)
  }

  ghost predicate IsLastEvent(events: seq<Event>, key: Key, i: nat)
    requires i < |events|
  {
    && (events[i].provider, events[i].id) == key
    && forall j :: i < j < |events| ==> (events[j].provider, events[j].id) != key
  }

  lemma {:induction false} ByKeyExactly(events: seq<Event>, key: Key, i: nat)
    requires i < |events| && IsLastEvent(events, key, i)
    ensures FixtureByKey(events, key) == Some(events[i].fixture)
    decreases |events|
  {
    var n := |events| - 1;
    if i < n {
      ByKeyExactly(events[..n], key, i);
    }
  }

  lemma {:induction false} LastEvent(events: seq<Event>, key: Key) returns (i: nat)
    requires FixtureByKey(events, key).Some?
    ensures i < |events| && IsLastEvent(events, key, i)
    decreases |events|
  {
    var n := |events| - 1;
    if (events[n].provider, events[n].id) == key {
      i := n;
    } else {
      i := LastEvent(events[..n], key);
    }
  }

  lemma FixtureExactly(events: seq<Event>, key: Key, f: Fixture)
    ensures FixtureOf(events, key) == Some(f) <==> Names(events, key, f)
  {
    hide FixtureByKey, FixtureById, IsLastEvent;
    FixtureByIdExactly(events, key.1, f);
    if FixtureByKey(events, key).Some? {
      var i := LastEvent(events, key);
      ByKeyExactly(events, key, i);
    }
    forall i | 0 <= i < |events| && IsLastEvent(events, key, i)
      ensures FixtureByKey(events, key) == Some(events[i].fixture)
    {
      ByKeyExactly(events, key, i);
    }
  }

  /** A prediction settles by the newest row of its own event; failing that by the newest row
      of its id, if one provider has all of them; failing that by the newest row of its
      fixture; and failing that by none. */
  lemma HitExactly(events: seq<Event>, results: seq<EventResult>, key: Key, k: nat)
    ensures var own := exists i :: IsOwn(results, key, i);
            var byId := exists i :: OneProvider(results, key.1) && IsNewest(results, key.1, i);
            && (HitFor(events, results, key) == Direct(k) <==>
                  IsOwn(results, key, k) || (!own && OneProvider(results, key.1) && IsNewest(results, key.1, k)))
            && (HitFor(events, results, key) == Shared(k) <==>
                  !own && !byId && FixtureOf(events, key).Some? &&
                  IsOfFixture(events, results, FixtureOf(events, key).value, k))
  {
    hide ResultByKey, ResultById, FixtureOf, ResultByFixture, IsOwn, IsNewest, OneProvider, IsOfFixture;
    forall i: nat
      ensures ResultByKey(results, key) == Some(i) <==> IsOwn(results, key, i)
      ensures ResultById(results, key.1) == Some(Some(i)) <==>
                OneProvider(results, key.1) && IsNewest(results, key.1, i)
    {
      OwnExactly(results, key, i);
      ResultByIdExactly(results, key.1, i);
    }
    if FixtureOf(events, key).Some? {
      OfFixtureExactly(events, results, FixtureOf(events, key).value, k);
    }
  }

  // ----- the winner in the prediction's own frame -----

  /** A draw is a draw everywhere. A side is kept if the two listings match in the same order
      and not in the opposite one, exchanged the other way around, and otherwise unknown. */
  lemma TranslateExactly(winner: string, p: Sides, r: Sides, sideOk: Matcher)
    requires winner in ["home", "away", "draw"]
    ensures var same := sideOk(p.home, r.home) && sideOk(p.away, r.away);
            var swapped := sideOk(p.home, r.away) && sideOk(p.away, r.home);
            Translate(winner, Some(p), Some(r), sideOk) ==
            if winner == "draw" then Some("draw")
            else if same && !swapped then Some(winner)
            else if swapped && !same then Some(if winner == "home" then "away" else "home")
            else None
    ensures Translate(winner, None, Some(r), sideOk) == Translate(winner, Some(p), None, sideOk) ==
            Translate(winner, None, None, sideOk) == if winner == "draw" then Some("draw") else None
  {
  }

  // ----- the verdict -----

  /** A prediction without a price is skipped, then one without a result it can be judged by,
      then one whose edge at the entry price is too small; every other is a bet of one unit
      at the entry price, won exactly if its selection is the winner. */
  lemma VerdictExactly(events: seq<Event>, results: seq<EventResult>, prices: seq<Price>, x: Setting, p: Prediction,
                       entry: nat, last: nat)
    requires entry < |prices| && IsEntry(prices, x.book, p, entry)
    requires last < |prices| && IsLast(prices, x.book, p, last)
    ensures var v := VerdictOf(events, results, prices, x, p);
            var winner := WinnerOf(events, results, x, p);
            var odds := prices[entry].odds;
            v == if winner.None? then NoResult
                 else if (p.prob * odds - 1.0) * 100.0 < x.minEdgePct then BelowEdge
                 else if p.selection == winner.value
                 then Placed(Bet(p.selection, odds, prices[last].odds, true, odds - 1.0))
                 else Placed(Bet(p.selection, odds, prices[last].odds, false, -1.0))
  {
    hide WinnerOf, Series, EntryRow;
    EntryExactly(prices, x.book, p, entry);
    LastOfSeries(prices, x.book, p, last);
  }

  lemma NoPriceExactly(events: seq<Event>, results: seq<EventResult>, prices: seq<Price>, x: Setting, p: Prediction)
    ensures VerdictOf(events, results, prices, x, p) == NoPrice <==>
              forall i :: 0 <= i < |prices| ==> !IsOn(prices[i], x.book, p)
  {
    hide WinnerOf, Series, EntryRow, At;
    SeriesExactly(prices, x.book, p);
    var at := At(prices, x.book, p);
    if at != [] {
      assert at[0] in at;
    }
  }

  /** The winner is the row's own for a direct hit; through the fixture it is the row's own
      unless that names a side, which is translated. */
  lemma WinnerExactly(events: seq<Event>, results: seq<EventResult>, x: Setting, p: Prediction)
    ensures var w := WinnerOf(events, results, x, p);
            match HitFor(events, results, (p.provider, p.id)) {
              case Missing => w == None
              case Direct(k) => w == Some(results[k].winner)
              case Shared(k) =>
                var r := results[k];
                w == if r.winner in ["home", "away", "draw"]
                     then Translate(r.winner, x.listing((p.provider, p.id)), x.resultListing(r), x.sideOk)
                     else Some(r.winner)
            }
  {
    hide HitFor, Translate;
  }
}
