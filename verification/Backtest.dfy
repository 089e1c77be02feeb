/** Settling predictions against results (`quant/backtest.py`): the lookup tables that are
    folded from event and result rows, and the accounting of a replay. */
module Backtest {
  import opened Wrappers
  import opened Names

  type Fixture = int
  type Key = (string, string)

  datatype Event = Event(provider: string, id: string, fixture: Option<Fixture>)

  datatype EventResult = EventResult(provider: string, id: string, winner: string)

  /** Result rows are named by their position, oldest settlement first. */
  datatype Maps = Maps(
    fixtureByKey: map<Key, Option<Fixture>>, fixtureById: map<string, Option<Fixture>>,
    resultByKey: map<Key, nat>, resultById: map<string, Option<nat>>, resultByFixture: map<Fixture, nat>)

  function Get<K, V>(m: map<K, V>, k: K): Option<V> {
    if k in m then Some(m[k]) else None
  }

  /** A lookup whose found value may itself be empty. */
  function Found<V>(hit: Option<Option<V>>): Option<V> {
    if hit.Some? then hit.value else None
  }

  // ----- what the tables hold -----

  /** The last event row of a provider and id. */
  function FixtureByKey(events: seq<Event>, key: Key): Option<Option<Fixture>> {
    if events == [] then None
    else
      var e := events[|events| - 1];
      if (e.provider, e.id) == key then Some(e.fixture) else FixtureByKey(events[..|events| - 1], key)
  }

  /** The fold by id alone: a disagreement empties the entry. */
  function FixtureById(events: seq<Event>, id: string): Option<Option<Fixture>> {
    if events == [] then None
    else
      var e, known := events[|events| - 1], FixtureById(events[..|events| - 1], id);
      if e.id != id then known
      else
        var prior := if known.Some? then known.value else e.fixture;
        Some(if prior == e.fixture then e.fixture else None)
  }

  function ResultByKey(results: seq<EventResult>, key: Key): (hit: Option<nat>)
    ensures hit.Some? ==> hit.value < |results|
  {
    if results == [] then None
    else
      var n := |results| - 1;
      if (results[n].provider, results[n].id) == key then Some(n) else ResultByKey(results[..n], key)
  }

  /** The fold by id alone: a second provider empties the entry. */
  function ResultById(results: seq<EventResult>, id: string): (hit: Option<Option<nat>>)
    ensures hit.Some? && hit.value.Some? ==> hit.value.value < |results|
  {
    if results == [] then None
    else
      var n := |results| - 1;
      var known := ResultById(results[..n], id);
      if results[n].id != id then known
      else
        var prior := if known.Some? then known.value else Some(n);
        Some(if prior.Some? && results[prior.value].provider == results[n].provider then Some(n) else None)
  }

  /** The fixture of an event: by provider and id, else by id alone. */
  function FixtureOf(events: seq<Event>, key: Key): Option<Fixture> {
    var own := Found(FixtureByKey(events, key));
    if own.Some? then own else Found(FixtureById(events, key.1))
  }

  /** The newest result of any event of the fixture. */
  function ResultByFixture(events: seq<Event>, results: seq<EventResult>, f: Fixture): (hit: Option<nat>)
    ensures hit.Some? ==> hit.value < |results|
  {
    if results == [] then None
    else
      var n := |results| - 1;
      if FixtureOf(events, (results[n].provider, results[n].id)) == Some(f) then Some(n)
      else ResultByFixture(events, results[..n], f)
  }

  // ----- what that means -----

  ghost predicate Known(events: seq<Event>, id: string) {
    exists i :: 0 <= i < |events| && events[i].id == id
  }

  ghost predicate Agreed(events: seq<Event>, id: string, f: Fixture) {
    forall i :: 0 <= i < |events| && events[i].id == id ==> events[i].fixture == Some(f)
  }

  /** The fixture table by id holds a fixture exactly when every event row of that id, under
      whatever provider, names it. */
  lemma {:induction false} FixtureByIdExactly(events: seq<Event>, id: string, f: Fixture)
    ensures FixtureById(events, id).Some? <==> Known(events, id)
    ensures FixtureById(events, id) == Some(Some(f)) <==> Known(events, id) && Agreed(events, id, f)
    decreases |events|
  {
    if events != [] {
      var n := |events| - 1;
      var front := events[..n];
      FixtureByIdExactly(front, id, f);
      assert forall i :: 0 <= i < n ==> front[i] == events[i];
      if events[n].id == id {
        assert Known(events, id);
      }
      if Known(front, id) {
        var i :| 0 <= i < n && front[i].id == id;
        assert events[i].id == id;
      }
    }
  }

  /** So the order of the rows does not matter. */
  lemma FixtureByIdIgnoresOrder(events: seq<Event>, other: seq<Event>, id: string)
    requires multiset(events) == multiset(other)
    ensures FixtureById(events, id) == FixtureById(other, id)
  {
    forall f: Fixture
      ensures FixtureById(events, id) == Some(Some(f)) <==> FixtureById(other, id) == Some(Some(f))
      ensures FixtureById(events, id).Some? <==> FixtureById(other, id).Some?
    {
      FixtureByIdExactly(events, id, f);
      FixtureByIdExactly(other, id, f);
      SameKnowledge(events, other, id, f);
      SameKnowledge(other, events, id, f);
    }
    var a, b := Found(FixtureById(events, id)), Found(FixtureById(other, id));
    var f := if a.Some? then a.value else if b.Some? then b.value else 0;
    assert FixtureById(events, id) == Some(Some(f)) <==> FixtureById(other, id) == Some(Some(f));
  }

  lemma SameKnowledge(events: seq<Event>, other: seq<Event>, id: string, f: Fixture)
    requires multiset(events) == multiset(other)
    ensures Known(events, id) ==> Known(other, id)
    ensures Agreed(events, id, f) ==> Agreed(other, id, f)
  {
    if Known(events, id) {
      var i :| 0 <= i < |events| && events[i].id == id;
      assert events[i] in multiset(other);
      var j :| 0 <= j < |other| && other[j] == events[i];
    }
    if Agreed(events, id, f) {
      forall j | 0 <= j < |other| && other[j].id == id ensures other[j].fixture == Some(f) {
        assert other[j] in multiset(events);
        var i :| 0 <= i < |events| && events[i] == other[j];
      }
    }
  }

  ghost predicate IsNewest(results: seq<EventResult>, id: string, k: nat) {
    && k < |results| && results[k].id == id
    && forall j :: k < j < |results| ==> results[j].id != id
  }

  ghost predicate OneProvider(results: seq<EventResult>, id: string) {
    forall i, j :: 0 <= i < j < |results| && results[i].id == id && results[j].id == id ==>
      results[i].provider == results[j].provider
  }

  ghost predicate Settled(results: seq<EventResult>, id: string) {
    exists k :: 0 <= k < |results| && results[k].id == id
  }

  /** The result table by id holds a row exactly when it is the newest of its id and all rows
      of that id come from one provider. */
  lemma {:induction false} ResultByIdExactly(results: seq<EventResult>, id: string, k: nat)
    ensures ResultById(results, id).Some? <==> Settled(results, id)
    ensures ResultById(results, id) == Some(Some(k)) <==> IsNewest(results, id, k) && OneProvider(results, id)
    decreases |results|
  {
    if results != [] {
      var n := |results| - 1;
      var front := results[..n];
      assert forall i :: 0 <= i < n ==> front[i] == results[i];
      ResultByIdExactly(front, id, k);
      if results[n].id == id {
        assert Settled(results, id);
        Poisoned(results, id);
      } else {
        if Settled(front, id) {
          var i :| 0 <= i < n && front[i].id == id;
          assert results[i].id == id;
        }
        assert OneProvider(results, id) <==> OneProvider(front, id);
      }
    }
  }

  lemma {:induction false} NewestExists(results: seq<EventResult>, id: string) returns (k: nat)
    requires Settled(results, id)
    ensures IsNewest(results, id, k)
    decreases |results|
  {
    var n := |results| - 1;
    if results[n].id == id {
      k := n;
    } else {
      var i :| 0 <= i < |results| && results[i].id == id;
      assert results[..n][i].id == id;
      k := NewestExists(results[..n], id);
    }
  }

  /** One more row of the id: it stays unpoisoned if it was and the provider is the same. */
  lemma Poisoned(results: seq<EventResult>, id: string)
    requires results != [] && results[|results| - 1].id == id
    ensures var n := |results| - 1;
            ResultById(results, id) == Some(Some(n)) <==> OneProvider(results, id)
    ensures ResultById(results, id).Some? && (ResultById(results, id).value.Some? ==>
              ResultById(results, id).value.value == |results| - 1)
    decreases |results|, 0
  {
    var n := |results| - 1;
    var front := results[..n];
    assert forall i :: 0 <= i < n ==> front[i] == results[i];
    ResultByIdExactly(front, id, 0);
    if Settled(front, id) {
      var k := NewestExists(front, id);
      ResultByIdExactly(front, id, k);
      var v := ResultById(front, id).value;
      if v.Some? {
        ResultByIdExactly(front, id, v.value);
      }
      assert results[k].id == id && results[n].id == id;
      assert OneProvider(results, id) ==> OneProvider(front, id) && results[k].provider == results[n].provider;
    }
  }

  lemma UnpoisonedExactly(results: seq<EventResult>, id: string)
    ensures Found(ResultById(results, id)).Some? <==> Settled(results, id) && OneProvider(results, id)
  {
    ResultByIdExactly(results, id, 0);
    if Found(ResultById(results, id)).Some? {
      ResultByIdExactly(results, id, ResultById(results, id).value.value);
    }
    if Settled(results, id) {
      var k := NewestExists(results, id);
      ResultByIdExactly(results, id, k);
    }
  }

  lemma SameProviders(results: seq<EventResult>, other: seq<EventResult>, id: string)
    requires multiset(results) == multiset(other)
    ensures Settled(results, id) ==> Settled(other, id)
    ensures OneProvider(results, id) ==> OneProvider(other, id)
  {
    if Settled(results, id) {
      var i :| 0 <= i < |results| && results[i].id == id;
      assert results[i] in multiset(other);
      var j :| 0 <= j < |other| && other[j] == results[i];
    }
    if OneProvider(results, id) {
      forall i, j | 0 <= i < j < |other| && other[i].id == id && other[j].id == id
        ensures other[i].provider == other[j].provider
      {
        assert other[i] in multiset(results) && other[j] in multiset(results);
        var k :| 0 <= k < |results| && results[k] == other[i];
        var l :| 0 <= l < |results| && results[l] == other[j];
      }
    }
  }

  /** Whether an id is poisoned does not depend on the order in which results settled. */
  lemma PoisonIgnoresOrder(results: seq<EventResult>, other: seq<EventResult>, id: string)
    requires multiset(results) == multiset(other)
    ensures Found(ResultById(results, id)).Some? <==> Found(ResultById(other, id)).Some?
  {
    UnpoisonedExactly(results, id);
    UnpoisonedExactly(other, id);
    SameProviders(results, other, id);
    SameProviders(other, results, id);
  }

  // ----- filling the tables -----

  ghost predicate FixturesByKey(m: map<Key, Option<Fixture>>, events: seq<Event>) {
    forall key :: Get(m, key) == FixtureByKey(events, key)
  }

  ghost predicate FixturesById(m: map<string, Option<Fixture>>, events: seq<Event>) {
    forall id :: Get(m, id) == FixtureById(events, id)
  }

  ghost predicate ResultsByKey(m: map<Key, nat>, results: seq<EventResult>) {
    forall key :: Get(m, key) == ResultByKey(results, key)
  }

  ghost predicate ResultsById(m: map<string, Option<nat>>, results: seq<EventResult>) {
    forall id :: Get(m, id) == ResultById(results, id)
  }

  ghost predicate ResultsByFixture(m: map<Fixture, nat>, events: seq<Event>, results: seq<EventResult>) {
    forall f :: Get(m, f) == ResultByFixture(events, results, f)
  }

  lemma KeyRow(m: map<Key, Option<Fixture>>, events: seq<Event>, n: nat)
    requires n < |events| && FixturesByKey(m, events[..n])
    ensures FixturesByKey(m[(events[n].provider, events[n].id) := events[n].fixture], events[..n + 1])
  {
    var e := events[n];
    assert events[..n + 1][..n] == events[..n];
    var next := m[(e.provider, e.id) := e.fixture];
    forall key
      ensures Get(next, key) == FixtureByKey(events[..n + 1], key)
    {
      assert Get(m, key) == FixtureByKey(events[..n], key);
    }
  }

  lemma IdRow(m: map<string, Option<Fixture>>, events: seq<Event>, n: nat, prior: Option<Fixture>)
    requires n < |events| && FixturesById(m, events[..n])
    requires prior == if events[n].id in m then m[events[n].id] else events[n].fixture
    ensures FixturesById(m[events[n].id := if prior == events[n].fixture then prior else None], events[..n + 1])
  {
    var e := events[n];
    assert events[..n + 1][..n] == events[..n];
    assert Get(m, e.id) == FixtureById(events[..n], e.id);
    var next := m[e.id := if prior == e.fixture then prior else None];
    forall id
      ensures Get(next, id) == FixtureById(events[..n + 1], id)
    {
      assert Get(m, id) == FixtureById(events[..n], id);
    }
  }

  lemma ResultKeyRow(m: map<Key, nat>, results: seq<EventResult>, n: nat)
    requires n < |results| && ResultsByKey(m, results[..n])
    ensures ResultsByKey(m[(results[n].provider, results[n].id) := n], results[..n + 1])
  {
    var r := results[n];
    assert results[..n + 1][..n] == results[..n];
    var next := m[(r.provider, r.id) := n];
    forall key ensures Get(next, key) == ResultByKey(results[..n + 1], key) {
      assert Get(m, key) == ResultByKey(results[..n], key);
    }
  }

  lemma ResultIdRow(m: map<string, Option<nat>>, results: seq<EventResult>, n: nat, known: Option<nat>)
    requires n < |results| && ResultsById(m, results[..n])
    requires known == if results[n].id in m then m[results[n].id] else Some(n)
    ensures known.Some? ==> known.value <= n
    ensures var same := known.Some? && results[known.value].provider == results[n].provider;
            ResultsById(m[results[n].id := if same then Some(n) else None], results[..n + 1])
  {
    var r := results[n];
    assert results[..n + 1][..n] == results[..n];
    assert Get(m, r.id) == ResultById(results[..n], r.id);
    var same := known.Some? && results[known.value].provider == r.provider;
    var next := m[r.id := if same then Some(n) else None];
    forall id ensures Get(next, id) == ResultById(results[..n + 1], id) {
      assert Get(m, id) == ResultById(results[..n], id);
    }
  }

  lemma ResultFixtureRow(m: map<Fixture, nat>, events: seq<Event>, results: seq<EventResult>, n: nat,
                         fixture: Option<Fixture>)
    requires n < |results| && ResultsByFixture(m, events, results[..n])
    requires fixture == FixtureOf(events, (results[n].provider, results[n].id))
    ensures ResultsByFixture(if fixture.Some? then m[fixture.value := n] else m, events, results[..n + 1])
  {
    hide FixtureOf;
    assert results[..n + 1][..n] == results[..n];
    var next := if fixture.Some? then m[fixture.value := n] else m;
    forall f ensures Get(next, f) == ResultByFixture(events, results[..n + 1], f) {
      assert Get(m, f) == ResultByFixture(events, results[..n], f);
    }
  }

  /** The lookup that both tables of fixtures serve. */
  function FixtureIn(byKey: map<Key, Option<Fixture>>, byId: map<string, Option<Fixture>>, key: Key): Option<Fixture> {
    var own := Found(Get(byKey, key));
    if own.Some? then own else Found(Get(byId, key.1))
  }

  lemma FixtureInTables(byKey: map<Key, Option<Fixture>>, byId: map<string, Option<Fixture>>, events: seq<Event>,
                        key: Key)
    requires FixturesByKey(byKey, events) && FixturesById(byId, events)
    ensures FixtureIn(byKey, byId, key) == FixtureOf(events, key)
  {
    assert Get(byKey, key) == FixtureByKey(events, key);
    assert Get(byId, key.1) == FixtureById(events, key.1);
  }

  /** The two tables of fixtures. */
  method FixtureTables(events: seq<Event>)
    returns (byKey: map<Key, Option<Fixture>>, byId: map<string, Option<Fixture>>)
    ensures FixturesByKey(byKey, events) && FixturesById(byId, events)
  {
    byKey, byId := map[], map[];
    for n := 0 to |events|
      invariant FixturesByKey(byKey, events[..n])
    {
      KeyRow(byKey, events, n);
      byKey := byKey[(events[n].provider, events[n].id) := events[n].fixture];
    }
    for n := 0 to |events|
      invariant FixturesById(byId, events[..n])
    {
      var e := events[n];
      var prior := if e.id in byId then byId[e.id] else e.fixture;
      IdRow(byId, events, n, prior);
      byId := byId[e.id := if prior == e.fixture then e.fixture else None];
    }
    assert events[..|events|] == events;
  }

  ghost predicate AreTables(m: Maps, events: seq<Event>, results: seq<EventResult>) {
    && FixturesByKey(m.fixtureByKey, events) && FixturesById(m.fixtureById, events)
    && ResultsByKey(m.resultByKey, results) && ResultsById(m.resultById, results)
    && ResultsByFixture(m.resultByFixture, events, results)
  }

  /** `_settlement_maps` */
  method SettlementMaps(events: seq<Event>, results: seq<EventResult>) returns (m: Maps)
    ensures AreTables(m, events, results)
  {
    var fixtureByKey, fixtureById := FixtureTables(events);
    hide FixturesByKey, FixturesById, FixtureOf, FixtureIn;
    var byKey: map<Key, nat> := map[];
    var byId: map<string, Option<nat>> := map[];
    var byFixture: map<Fixture, nat> := map[];
    for n := 0 to |results|
      invariant ResultsByKey(byKey, results[..n]) && ResultsById(byId, results[..n])
      invariant ResultsByFixture(byFixture, events, results[..n])
    {
      hide ResultsByKey, ResultsById, ResultsByFixture;
      var r := results[n];
      ResultKeyRow(byKey, results, n);
      byKey := byKey[(r.provider, r.id) := n];
      var known := if r.id in byId then byId[r.id] else Some(n);
      ResultIdRow(byId, results, n, known);
      byId := byId[r.id := if known.Some? && results[known.value].provider == r.provider then Some(n) else None];
      var fixture := FixtureIn(fixtureByKey, fixtureById, (r.provider, r.id));
      FixtureInTables(fixtureByKey, fixtureById, events, (r.provider, r.id));
      ResultFixtureRow(byFixture, events, results, n, fixture);
      if fixture.Some? {
        byFixture := byFixture[fixture.value := n];
      }
    }
    assert results[..|results|] == results;
    m := Maps(fixtureByKey, fixtureById, byKey, byId, byFixture);
  }

  // ----- settling a prediction -----

  datatype Prediction = Prediction(
    provider: string, id: string, market: string, selection: string, prob: real, predictedAt: Option<int>)

  datatype Price = Price(id: string, book: string, market: string, selection: string, odds: real, changedAt: int)

  /** The two sides that a book's event name lists, in its order. */
  datatype Sides = Sides(home: string, away: string)

  /** Whether two side names are one team. The matcher need not be symmetric. */
  type Matcher = (string, string) -> bool

  datatype Alignment = SameOrder | Swapped | Unclear

  /** The options of a replay, and the names that books and results publish for events. */
  datatype Setting = Setting(
    book: Option<string>, minEdgePct: real, listing: Key -> Option<Sides>, resultListing: EventResult -> Option<Sides>,
    sideOk: Matcher)

  /** How the second name lists the sides of the first: never guessed. */
  function Align(into: Option<Sides>, from: Option<Sides>, sideOk: Matcher): Alignment {
    if into.None? || from.None? then Unclear
    else
      var p, r := into.value, from.value;
      var same := sideOk(p.home, r.home) && sideOk(p.away, r.away);
      var swapped := sideOk(p.home, r.away) && sideOk(p.away, r.home);
      if same == swapped then Unclear else if same then SameOrder else Swapped
  }

  const SIDE_WINNERS := {"home", "away", "draw"}

  /** `_translate_side`: a winner in the frame of `from` put into the frame of `into`. */
  function Translate(winner: string, into: Option<Sides>, from: Option<Sides>, sideOk: Matcher): (w: Option<string>)
    requires winner in SIDE_WINNERS
    ensures w.Some? ==> w.value in SIDE_WINNERS
  {
    if winner == "draw" then Some("draw")
    else
      match Align(into, from, sideOk)
      case Unclear => None
      case SameOrder => Some(winner)
      case Swapped => Some(if winner == "home" then "away" else "home")
  }

  /** A translated side, translated back with the names exchanged, is the side again exactly
      if the names align that way around as they did the other. */
  lemma TranslateBackExactly(winner: string, into: Option<Sides>, from: Option<Sides>, sideOk: Matcher)
    requires winner in SIDE_WINNERS && Translate(winner, into, from, sideOk).Some?
    ensures Translate(Translate(winner, into, from, sideOk).value, from, into, sideOk) == Some(winner) <==>
              winner == "draw" || Align(from, into, sideOk) == Align(into, from, sideOk)
  {
  }

  /** They do, both ways, when the matcher is symmetric on these names. */
  lemma SymmetricNamesAlignBack(p: Sides, r: Sides, sideOk: Matcher)
    requires forall x, y :: x in [p.home, p.away] && y in [r.home, r.away] ==> sideOk(x, y) == sideOk(y, x)
    ensures Align(Some(r), Some(p), sideOk) == Align(Some(p), Some(r), sideOk)
  {
    assert p.home in [p.home, p.away] && p.away in [p.home, p.away];
    assert r.home in [r.home, r.away] && r.away in [r.home, r.away];
  }

  /** And need not when it is not: a name whose every word has a partner in another name of
      the same length, but not the other way around. */
  lemma OneWayNames()
    ensures var p, r := Some(Sides("Martin Martinez", "Jones")), Some(Sides("Martinez Fernando", "Jones"));
            var sideOk: Matcher := (x, y) => SideOk(PLAYERS, x, y);
            && Translate("home", p, r, sideOk) == Some("home")
            && Translate("home", r, p, sideOk) == None
  {
    hide SideOk;
    MartinIsMartinez();
    JonesIsJones();
  }

  /** The result that a prediction settles by: its own event's, else one that came through
      the shared fixture. */
  datatype Hit = Missing | Direct(row: nat) | Shared(row: nat)

  function HitFor(events: seq<Event>, results: seq<EventResult>, key: Key): (h: Hit)
    ensures !h.Missing? ==> h.row < |results|
  {
    var own := ResultByKey(results, key);
    var direct := if own.Some? then own else Found(ResultById(results, key.1));
    if direct.Some? then Direct(direct.value)
    else
      var fixture := FixtureOf(events, key);
      var shared := if fixture.Some? then ResultByFixture(events, results, fixture.value) else None;
      if shared.Some? then Shared(shared.value) else Missing
  }

  /** The winner in the prediction's own frame, if it can be told. */
  function WinnerOf(events: seq<Event>, results: seq<EventResult>, x: Setting, p: Prediction): Option<string> {
    match HitFor(events, results, (p.provider, p.id))
    case Missing => None
    case Direct(k) => Some(results[k].winner)
    case Shared(k) => InFrame(x, p, results[k])
  }

  /** A result of another event of the fixture, in the prediction's frame: side winners are
      translated, others mean the same everywhere. */
  function InFrame(x: Setting, p: Prediction, r: EventResult): Option<string> {
    if r.winner in SIDE_WINNERS then Translate(r.winner, x.listing((p.provider, p.id)), x.resultListing(r), x.sideOk)
    else Some(r.winner)
  }

  /** A direct hit is the prediction's own event, or, by id alone, the newest row of an id
      that only one provider uses; a shared one is a row of the same fixture. */
  lemma HitIsSound(events: seq<Event>, results: seq<EventResult>, key: Key)
    ensures var h := HitFor(events, results, key);
            && (h.Direct? ==>
                  && results[h.row].id == key.1
                  && (results[h.row].provider == key.0
                      || (OneProvider(results, key.1) && IsNewest(results, key.1, h.row))))
            && (h.Shared? ==>
                  var r := results[h.row];
                  FixtureOf(events, key).Some? && FixtureOf(events, (r.provider, r.id)) == FixtureOf(events, key))
  {
    OwnRow(results, key);
    var byId := Found(ResultById(results, key.1));
    if byId.Some? {
      ResultByIdExactly(results, key.1, byId.value);
    }
    hide FixtureOf;
    if FixtureOf(events, key).Some? {
      FixtureRow(events, results, FixtureOf(events, key).value);
    }
  }

  lemma {:induction false} OwnRow(results: seq<EventResult>, key: Key)
    ensures var own := ResultByKey(results, key);
            own.Some? ==> (results[own.value].provider, results[own.value].id) == key
    decreases |results|
  {
    if results != [] {
      OwnRow(results[..|results| - 1], key);
    }
  }

  lemma {:induction false} FixtureRow(events: seq<Event>, results: seq<EventResult>, f: Fixture)
    ensures var row := ResultByFixture(events, results, f);
            row.Some? ==> FixtureOf(events, (results[row.value].provider, results[row.value].id)) == Some(f)
    decreases |results|
  {
    hide FixtureOf;
    if results != [] {
      FixtureRow(events, results[..|results| - 1], f);
    }
  }

  // ----- the replay -----

  function Series(prices: seq<Price>, book: Option<string>, p: Prediction): (s: seq<Price>) {
    if prices == [] then []
    else
      var n := |prices| - 1;
      var q, front := prices[n], Series(prices[..n], book, p);
      if q.id == p.id && q.market == p.market && q.selection == p.selection && (book.Some? ==> q.book == book.value)
      then front + [q] else front
  }

  ghost predicate InTimeOrder(s: seq<Price>) {
    forall i, j :: 0 <= i < j < |s| ==> s[i].changedAt <= s[j].changedAt
  }

  lemma {:induction false} SeriesInOrder(prices: seq<Price>, book: Option<string>, p: Prediction)
    requires InTimeOrder(prices)
    ensures InTimeOrder(Series(prices, book, p))
    ensures forall q :: q in Series(prices, book, p) ==> q in prices
    decreases |prices|
  {
    if prices != [] {
      var n := |prices| - 1;
      SeriesInOrder(prices[..n], book, p);
      var front := Series(prices[..n], book, p);
      forall i | 0 <= i < |front| ensures front[i].changedAt <= prices[n].changedAt {
        assert front[i] in prices[..n];
      }
    }
  }

  /** The rows that prevailed at `t`, in order. */
  function Prevailing(s: seq<Price>, t: int): seq<Price> {
    if s == [] then []
    else
      var n := |s| - 1;
      Prevailing(s[..n], t) + if s[n].changedAt <= t then [s[n]] else []
  }

  function EntryRow(s: seq<Price>, predictedAt: Option<int>): Price
    requires s != []
  {
    if predictedAt.None? then s[0]
    else
      var prevailing := Prevailing(s, predictedAt.value);
      if prevailing != [] then prevailing[|prevailing| - 1] else s[0]
  }

  lemma {:induction false} PrevailingLast(s: seq<Price>, t: int) returns (k: int)
    ensures -1 <= k < |s| && forall j :: k < j < |s| ==> s[j].changedAt > t
    ensures k == -1 ==> Prevailing(s, t) == []
    ensures k >= 0 ==>
              Prevailing(s, t) != [] && Prevailing(s, t)[|Prevailing(s, t)| - 1] == s[k] && s[k].changedAt <= t
    decreases |s|
  {
    if s == [] {
      return -1;
    }
    var n := |s| - 1;
    var front := Prevailing(s[..n], t);
    if s[n].changedAt <= t {
      assert Prevailing(s, t) == front + [s[n]];
      return n;
    }
    k := PrevailingLast(s[..n], t);
    assert Prevailing(s, t) == front;
    assert forall j :: 0 <= j < n ==> s[j] == s[..n][j];
  }

  /** The entry price is the last that stood when the prediction was made. It is later than
      the prediction only if every price is, and is then the first. */
  lemma EntryIsPrevailing(s: seq<Price>, t: int)
    requires InTimeOrder(s) && s != []
    ensures var e := EntryRow(s, Some(t));
            && (e.changedAt > t <==> forall i :: 0 <= i < |s| ==> s[i].changedAt > t)
            && (e.changedAt > t ==> e == s[0])
            && (e.changedAt <= t ==>
                  exists k :: 0 <= k < |s| && e == s[k] && forall j :: k < j < |s| ==> s[j].changedAt > t)
            && (e.changedAt <= t ==> forall i :: 0 <= i < |s| && s[i].changedAt <= t ==> s[i].changedAt <= e.changedAt)
  {
    var k := PrevailingLast(s, t);
    var e := EntryRow(s, Some(t));
    hide Prevailing, EntryRow;
    if k >= 0 {
      assert e == s[k];
    }
  }

  datatype Bet = Bet(selection: string, entry: real, closing: real, won: bool, pnl: real)

  datatype Verdict = NoPrice | NoResult | BelowEdge | Placed(bet: Bet)

  datatype Skips = Skips(noPrice: nat, noResult: nat, belowEdge: nat)

  /** What becomes of a prediction. */
  function VerdictOf(events: seq<Event>, results: seq<EventResult>, prices: seq<Price>, x: Setting, p: Prediction)
    : Verdict
  {
    var s := Series(prices, x.book, p);
    if s == [] then NoPrice
    else
      var winner := WinnerOf(events, results, x, p);
      if winner.None? then NoResult
      else
        var entry := EntryRow(s, p.predictedAt).odds;
        if (p.prob * entry - 1.0) * 100.0 < x.minEdgePct then BelowEdge
        else
          var won := p.selection == winner.value;
          Placed(Bet(p.selection, entry, s[|s| - 1].odds, won, if won then entry - 1.0 else -1.0))
  }

  function Verdicts(events: seq<Event>, results: seq<EventResult>, prices: seq<Price>, x: Setting, ps: seq<Prediction>)
    : (vs: seq<Verdict>)
    ensures |vs| == |ps|
    ensures forall i :: 0 <= i < |ps| ==> vs[i] == VerdictOf(events, results, prices, x, ps[i])
  {
    seq(|ps|, i requires 0 <= i < |ps| => VerdictOf(events, results, prices, x, ps[i]))
  }

  function Bets(vs: seq<Verdict>): seq<Bet> {
    if vs == [] then []
    else
      var n := |vs| - 1;
      Bets(vs[..n]) + if vs[n].Placed? then [vs[n].bet] else []
  }

  function Tally(vs: seq<Verdict>, v: Verdict): nat {
    if vs == [] then 0
    else
      var n := |vs| - 1;
      Tally(vs[..n], v) + if vs[n] == v then 1 else 0
  }

  function Skipped(vs: seq<Verdict>): Skips {
    Skips(Tally(vs, NoPrice), Tally(vs, NoResult), Tally(vs, BelowEdge))
  }

  /** Every prediction is counted exactly once, as a bet or as one kind of skip. */
  lemma {:induction false} CountedOnce(vs: seq<Verdict>)
    ensures |Bets(vs)| + Skipped(vs).noPrice + Skipped(vs).noResult + Skipped(vs).belowEdge == |vs|
    decreases |vs|
  {
    if vs != [] {
      CountedOnce(vs[..|vs| - 1]);
    }
  }

  function Profit(bets: seq<Bet>): real {
    if bets == [] then 0.0 else Profit(bets[..|bets| - 1]) + bets[|bets| - 1].pnl
  }

  function Returned(bets: seq<Bet>): real {
    if bets == [] then 0.0
    else Returned(bets[..|bets| - 1]) + if bets[|bets| - 1].won then bets[|bets| - 1].entry else 0.0
  }

  lemma {:induction false} ProfitOfVerdicts(vs: seq<Verdict>, bets: seq<Bet>)
    requires forall i :: 0 <= i < |vs| && vs[i].Placed? ==>
               vs[i].bet.pnl == if vs[i].bet.won then vs[i].bet.entry - 1.0 else -1.0
    requires bets == Bets(vs)
    ensures Profit(bets) == Returned(bets) - |bets| as real
    decreases |vs|
  {
    if vs != [] {
      var n := |vs| - 1;
      ProfitOfVerdicts(vs[..n], Bets(vs[..n]));
      if vs[n].Placed? {
        assert bets[..|bets| - 1] == Bets(vs[..n]) && bets[|bets| - 1] == vs[n].bet;
        assert |bets| as real == |Bets(vs[..n])| as real + 1.0;
      } else {
        assert bets == Bets(vs[..n]);
      }
    }
  }

  /** How the report adds up, prediction by prediction. */
  lemma ReportExactly(vs: seq<Verdict>, v: Verdict)
    ensures Bets([]) == [] && Skipped([]) == Skips(0, 0, 0) && Profit([]) == 0.0 && Returned([]) == 0.0
    ensures Bets(vs + [v]) == Bets(vs) + if v.Placed? then [v.bet] else []
    ensures var s := Skipped(vs);
            Skipped(vs + [v]) == Skips(s.noPrice + (if v == NoPrice then 1 else 0),
                                       s.noResult + (if v == NoResult then 1 else 0),
                                       s.belowEdge + if v == BelowEdge then 1 else 0)
    ensures forall bets, b: Bet ::
              && Profit(bets + [b]) == Profit(bets) + b.pnl
              && Returned(bets + [b]) == Returned(bets) + if b.won then b.entry else 0.0
  {
    assert (vs + [v])[..|vs|] == vs;
    forall bets, b: Bet
      ensures Profit(bets + [b]) == Profit(bets) + b.pnl
      ensures Returned(bets + [b]) == Returned(bets) + if b.won then b.entry else 0.0
    {
      assert (bets + [b])[..|bets|] == bets;
    }
  }

  /** On flat unit stakes the profit is what the winners returned less one unit a bet. */
  lemma ProfitIsReturnLessStakes(events: seq<Event>, results: seq<EventResult>, prices: seq<Price>, x: Setting,
                                 ps: seq<Prediction>)
    ensures var bets := Bets(Verdicts(events, results, prices, x, ps));
            Profit(bets) == Returned(bets) - |bets| as real
  {
    var vs := Verdicts(events, results, prices, x, ps);
    ProfitOfVerdicts(vs, Bets(vs));
  }

  /** The row a prediction settles by, from the tables. */
  method FindHit(m: Maps, ghost events: seq<Event>, results: seq<EventResult>, key: Key) returns (h: Hit)
    requires AreTables(m, events, results)
    ensures h == HitFor(events, results, key)
  {
    assert Get(m.resultByKey, key) == ResultByKey(results, key);
    assert Get(m.resultById, key.1) == ResultById(results, key.1);
    var direct := Get(m.resultByKey, key);
    if direct.None? {
      direct := Found(Get(m.resultById, key.1));
    }
    if direct.Some? {
      return Direct(direct.value);
    }
    var fixture := FixtureIn(m.fixtureByKey, m.fixtureById, key);
    FixtureInTables(m.fixtureByKey, m.fixtureById, events, key);
    if fixture.None? || fixture.value !in m.resultByFixture {
      assert fixture.Some? ==> Get(m.resultByFixture, fixture.value) == ResultByFixture(events, results, fixture.value);
      return Missing;
    }
    assert Get(m.resultByFixture, fixture.value) == ResultByFixture(events, results, fixture.value);
    return Shared(m.resultByFixture[fixture.value]);
  }

  lemma OneVerdict(vs: seq<Verdict>, n: nat)
    requires n < |vs|
    ensures Bets(vs[..n + 1]) == Bets(vs[..n]) + if vs[n].Placed? then [vs[n].bet] else []
    ensures var s := Skipped(vs[..n]);
            Skipped(vs[..n + 1]) ==
            match vs[n]
            case NoPrice => s.(noPrice := s.noPrice + 1)
            case NoResult => s.(noResult := s.noResult + 1)
            case BelowEdge => s.(belowEdge := s.belowEdge + 1)
            case Placed(_) => s
  {
    assert vs[..n + 1][..n] == vs[..n];
  }

  /** `run_backtest`: the bets, in the order of the predictions, and the skips. */
  method RunBacktest(events: seq<Event>, results: seq<EventResult>, prices: seq<Price>, x: Setting,
                     predictions: seq<Prediction>)
    returns (bets: seq<Bet>, skipped: Skips)
    ensures bets == Bets(Verdicts(events, results, prices, x, predictions))
    ensures skipped == Skipped(Verdicts(events, results, prices, x, predictions))
    ensures |bets| + skipped.noPrice + skipped.noResult + skipped.belowEdge == |predictions|
  {
    var m := SettlementMaps(events, results);
    bets, skipped := [], Skips(0, 0, 0);
    ghost var vs := Verdicts(events, results, prices, x, predictions);
    for n := 0 to |predictions|
      invariant bets == Bets(vs[..n]) && skipped == Skipped(vs[..n])
    {
      hide AreTables, Series, EntryRow, HitFor, Bets, Skipped, Tally, InFrame;
      OneVerdict(vs, n);
      assert vs[n] == VerdictOf(events, results, prices, x, predictions[n]);
      var p := predictions[n];
      var series := Series(prices, x.book, p);
      if series == [] {
        skipped := skipped.(noPrice := skipped.noPrice + 1);
        continue;
      }
      var winner: Option<string> := None;
      var hit := FindHit(m, events, results, (p.provider, p.id));
      if hit.Direct? {
        winner := Some(results[hit.row].winner);
      } else if hit.Shared? {
        winner := InFrame(x, p, results[hit.row]);
      }
      if winner.None? {
        skipped := skipped.(noResult := skipped.noResult + 1);
        continue;
      }
      var entry, closing := EntryRow(series, p.predictedAt).odds, series[|series| - 1].odds;
      if (p.prob * entry - 1.0) * 100.0 < x.minEdgePct {
        skipped := skipped.(belowEdge := skipped.belowEdge + 1);
        continue;
      }
      var won := p.selection == winner.value;
      bets := bets + [Bet(p.selection, entry, closing, won, if won then entry - 1.0 else -1.0)];
    }
    assert vs[..|vs|] == vs;
    CountedOnce(vs);
  }
}
