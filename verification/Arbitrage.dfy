/** Arbitrage on one fixture and market (`quant/arbitrage.py`): the frame of outcomes, the
    best price for each, and what a reported arb guarantees. */
module Arbitrage {
  import opened Wrappers
  import opened Reals

  datatype Side = Home | Away

  /** Outcomes in the fixture's own frame. A total carries its line. */
  datatype Outcome = Draw | Win(side: Side) | Over(line: string) | Under(line: string)

  /** A quote is on an outcome or, at an exchange, against a side. */
  datatype Selection = On(outcome: Outcome) | No(side: Side)

  type Book = (string, string)

  /** A captured price, its selection put into the fixture's frame where that can be done. */
  datatype Row = Row(provider: string, book: string, odds: Option<real>, selection: Option<Selection>)

  datatype Entry = Entry(provider: string, book: string, odds: real, selection: Selection) {
    function Source(): Book { (provider, book) }
  }

  type Line = Option<string>

  function LineOf(s: Selection): Line {
    match s
    case On(Over(line)) => Some(line)
    case On(Under(line)) => Some(line)
    case _ => None
  }

  const LOWEST_ODDS := 1.01

  /** The entry a row makes: none for junk odds or an untranslatable selection. */
  function Admitted(row: Row): (e: Option<Entry>)
    ensures e.Some? ==> e.value.odds >= LOWEST_ODDS
  {
    if row.odds.None? || row.odds.value < LOWEST_ODDS || row.selection.None? then None
    else Some(Entry(row.provider, row.book, row.odds.value, row.selection.value))
  }

  /** The entries on one line, in row order. */
  function Board(rows: seq<Row>, line: Line): (es: seq<Entry>)
    ensures forall i :: 0 <= i < |es| ==> es[i].odds >= LOWEST_ODDS && LineOf(es[i].selection) == line
  {
    if rows == [] then []
    else
      var front, e := Board(rows[..|rows| - 1], line), Admitted(rows[|rows| - 1]);
      if e.Some? && LineOf(e.value.selection) == line then front + [e.value] else front
  }

  /** Splits the rows into one board per line, lines in order of appearance. */
  method Boards(rows: seq<Row>) returns (lines: seq<Line>, boards: map<Line, seq<Entry>>)
    ensures forall line :: line in boards <==> Board(rows, line) != []
    ensures forall line :: line in boards ==> boards[line] == Board(rows, line)
    ensures forall line :: line in lines <==> line in boards
    ensures forall i, j :: 0 <= i < j < |lines| ==> lines[i] != lines[j]
  {
    lines, boards := [], map[];
    for n := 0 to |rows|
      invariant forall line :: line in boards <==> Board(rows[..n], line) != []
      invariant forall line :: line in boards ==> boards[line] == Board(rows[..n], line)
      invariant forall line :: line in lines <==> line in boards
      invariant forall i, j :: 0 <= i < j < |lines| ==> lines[i] != lines[j]
    {
      assert rows[..n + 1][..n] == rows[..n];
      var e := Admitted(rows[n]);
      if e.Some? {
        var line := LineOf(e.value.selection);
        if line !in boards {
          lines := lines + [line];
          boards := boards[line := [e.value]];
        } else {
          boards := boards[line := boards[line] + [e.value]];
        }
      }
    }
    assert rows[..|rows|] == rows;
  }

  // ----- the frame -----

  /** What a book quotes outright. */
  function Listed(entries: seq<Entry>, b: Book): set<Outcome> {
    if entries == [] then {}
    else
      var front, e := Listed(entries[..|entries| - 1], b), entries[|entries| - 1];
      if e.Source() == b && e.selection.On? then front + {e.selection.outcome} else front
  }

  /** The books that quote something outright, in order of appearance. */
  function Books(entries: seq<Entry>): (bs: seq<Book>)
    ensures forall i, j :: 0 <= i < j < |bs| ==> bs[i] != bs[j]
    ensures forall b :: b in bs <==> Listed(entries, b) != {}
  {
    if entries == [] then []
    else
      var front, e := Books(entries[..|entries| - 1]), entries[|entries| - 1];
      if e.selection.On? && e.Source() !in front then front + [e.Source()] else front
  }

  /** The first of the largest listings of the given books. */
  function FirstWidest(entries: seq<Entry>, books: seq<Book>): set<Outcome>
    requires books != []
    decreases |books|
  {
    var n := |books| - 1;
    if n == 0 then Listed(entries, books[0])
    else
      var front := FirstWidest(entries, books[..n]);
      if |Listed(entries, books[n])| > |front| then Listed(entries, books[n]) else front
  }

  function FrameOf(entries: seq<Entry>): Option<set<Outcome>> {
    if Books(entries) == [] then None else Some(FirstWidest(entries, Books(entries)))
  }

  lemma {:induction false} FirstWidestIsWidest(entries: seq<Entry>, books: seq<Book>)
    requires books != []
    ensures exists k :: 0 <= k < |books| && FirstWidest(entries, books) == Listed(entries, books[k])
    ensures forall k :: 0 <= k < |books| ==> |Listed(entries, books[k])| <= |FirstWidest(entries, books)|
    decreases |books|
  {
    hide Listed;
    var n := |books| - 1;
    if n == 0 {
      assert FirstWidest(entries, books) == Listed(entries, books[0]);
    } else {
      var front := books[..n];
      FirstWidestIsWidest(entries, front);
      var k :| 0 <= k < n && FirstWidest(entries, front) == Listed(entries, front[k]);
      assert FirstWidest(entries, books) in [Listed(entries, books[k]), Listed(entries, books[n])];
      forall j | 0 <= j <= n ensures |Listed(entries, books[j])| <= |FirstWidest(entries, books)| {
        assert j < n ==> books[j] == front[j];
      }
    }
  }

  /** No single book lists more outcomes than the frame, and some book lists exactly it. */
  lemma FrameIsWidest(entries: seq<Entry>)
    requires FrameOf(entries).Some?
    ensures forall b :: |Listed(entries, b)| <= |FrameOf(entries).value|
    ensures exists b :: Listed(entries, b) == FrameOf(entries).value
  {
    var books := Books(entries);
    FirstWidestIsWidest(entries, books);
    forall b ensures |Listed(entries, b)| <= |FrameOf(entries).value| {
      if b in books {
        var k :| 0 <= k < |books| && books[k] == b;
      }
    }
  }

  lemma OneMore(entries: seq<Entry>, n: nat, b: Book)
    requires n < |entries|
    ensures var e, more := entries[n], entries[n].Source() == b && entries[n].selection.On?;
            && (more ==> Listed(entries[..n + 1], b) == Listed(entries[..n], b) + {e.selection.outcome})
            && (!more ==> Listed(entries[..n + 1], b) == Listed(entries[..n], b))
            && Books(entries[..n + 1]) ==
               Books(entries[..n]) + if e.selection.On? && e.Source() !in Books(entries[..n]) then [e.Source()] else []
  {
    assert entries[..n + 1][..n] == entries[..n];
  }

  method Widest(ghost entries: seq<Entry>, books: seq<Book>, byBook: map<Book, set<Outcome>>)
    returns (widest: set<Outcome>)
    requires books != [] && forall k :: 0 <= k < |books| ==> books[k] in byBook
    requires forall b :: b in byBook ==> byBook[b] == Listed(entries, b)
    ensures widest == FirstWidest(entries, books)
  {
    hide Listed;
    widest := byBook[books[0]];
    for k := 1 to |books|
      invariant widest == FirstWidest(entries, books[..k])
    {
      assert books[..k + 1][..k] == books[..k];
      if |byBook[books[k]]| > |widest| {
        widest := byBook[books[k]];
      }
    }
    assert books[..|books|] == books;
  }

  /** Collects each book's listing, then takes the largest. */
  method Frame(entries: seq<Entry>) returns (frame: Option<set<Outcome>>)
    ensures frame == FrameOf(entries)
  {
    hide Listed, Books, FirstWidest;
    var books: seq<Book> := [];
    var byBook: map<Book, set<Outcome>> := map[];
    NoBooksYet(entries);
    for n := 0 to |entries|
      invariant books == Books(entries[..n])
      invariant forall b :: b in books <==> b in byBook
      invariant forall b :: b in byBook ==> byBook[b] == Listed(entries[..n], b)
    {
      var e := entries[n];
      OneMore(entries, n, e.Source());
      forall b {
        OneMore(entries, n, b);
      }
      if e.selection.On? {
        var b := e.Source();
        if b !in byBook {
          books := books + [b];
          byBook := byBook[b := {e.selection.outcome}];
        } else {
          byBook := byBook[b := byBook[b] + {e.selection.outcome}];
        }
      }
    }
    assert entries[..|entries|] == entries;
    if books == [] {
      return None;
    }
    var widest := Widest(entries, books, byBook);
    return Some(widest);
  }

  lemma NoBooksYet(entries: seq<Entry>)
    ensures Books(entries[..0]) == []
  {
  }

  // ----- the best price for each outcome -----

  function Opposite(s: Side): Side {
    match s case Home => Away case Away => Home
  }

  /** The outcome of the frame that an entry pays on. A quote against a side is a quote on
      the other, but only where there are exactly those two. */
  function Covers(frame: set<Outcome>, s: Selection): (o: Option<Outcome>)
    ensures o.Some? ==> o.value in frame
  {
    match s
    case On(outcome) => if outcome in frame then Some(outcome) else None
    case No(side) =>
      if |frame| != 2 || Draw in frame || Win(Opposite(side)) !in frame then None
      else Some(Win(Opposite(side)))
  }

  /** On a board without totals a frame of two outcomes, neither of them the draw, is the
      two sides: the other outcome is the other side. */
  lemma TwoSides(entries: seq<Entry>, b: Book)
    requires forall i :: 0 <= i < |entries| ==> LineOf(entries[i].selection) == None
    requires |Listed(entries, b)| == 2 && Draw !in Listed(entries, b)
    ensures Listed(entries, b) == {Win(Home), Win(Away)}
  {
    var frame := Listed(entries, b);
    OnlySides(entries, b);
    assert frame <= {Win(Home), Win(Away)};
    SubsetOfSameSize(frame, {Win(Home), Win(Away)});
  }

  lemma {:induction false} OnlySides(entries: seq<Entry>, b: Book)
    requires forall i :: 0 <= i < |entries| ==> LineOf(entries[i].selection) == None
    ensures Listed(entries, b) <= {Draw, Win(Home), Win(Away)}
    decreases |entries|
  {
    if entries != [] {
      var n := |entries| - 1;
      OnlySides(entries[..n], b);
      var s := entries[n].selection;
      assert LineOf(s) == None;
      if s.On? && s.outcome.Win? {
        assert s.outcome.side == Home || s.outcome.side == Away;
      }
    }
  }

  lemma SubsetOfSameSize<T>(a: set<T>, b: set<T>)
    requires a <= b && |a| == |b|
    ensures a == b
  {
    assert |b - a| == |b| - |a|;
  }

  /** The first of the best-priced entries on `o`. */
  function Best(entries: seq<Entry>, frame: set<Outcome>, o: Outcome): (e: Option<Entry>)
    ensures e.Some? ==> e.value in entries && Covers(frame, e.value.selection) == Some(o)
    ensures forall i :: 0 <= i < |entries| && Covers(frame, entries[i].selection) == Some(o) ==>
              e.Some? && entries[i].odds <= e.value.odds
  {
    if entries == [] then None
    else
      var front, e := Best(entries[..|entries| - 1], frame, o), entries[|entries| - 1];
      if Covers(frame, e.selection) == Some(o) && (front.None? || e.odds > front.value.odds) then Some(e) else front
  }

  /** The outcomes that some entry covers, in order of appearance. */
  function Covered(entries: seq<Entry>, frame: set<Outcome>): (os: seq<Outcome>)
    ensures forall i, j :: 0 <= i < j < |os| ==> os[i] != os[j]
    ensures forall o :: o in os <==> Best(entries, frame, o).Some?
  {
    if entries == [] then []
    else
      var front, o := Covered(entries[..|entries| - 1], frame), Covers(frame, entries[|entries| - 1].selection);
      if o.Some? && o.value !in front then front + [o.value] else front
  }

  method BestPrices(entries: seq<Entry>, frame: set<Outcome>) returns (covered: seq<Outcome>, best: map<Outcome, Entry>)
    ensures covered == Covered(entries, frame)
    ensures forall o :: o in best <==> Best(entries, frame, o).Some?
    ensures forall o :: o in best ==> Some(best[o]) == Best(entries, frame, o)
  {
    covered, best := [], map[];
    for n := 0 to |entries|
      invariant covered == Covered(entries[..n], frame)
      invariant forall o :: o in best <==> Best(entries[..n], frame, o).Some?
      invariant forall o :: o in best ==> Some(best[o]) == Best(entries[..n], frame, o)
    {
      assert entries[..n + 1][..n] == entries[..n];
      var e := entries[n];
      var o := Covers(frame, e.selection);
      if o.Some? {
        if o.value !in best {
          covered := covered + [o.value];
          best := best[o.value := e];
        } else if e.odds > best[o.value].odds {
          best := best[o.value := e];
        }
      }
    }
    assert entries[..|entries|] == entries;
  }

  // ----- the arb -----

  predicate Priced(es: seq<Entry>) {
    forall i :: 0 <= i < |es| ==> es[i].odds >= LOWEST_ODDS
  }

  function SumInverse(es: seq<Entry>): real
    requires Priced(es)
  {
    if es == [] then 0.0 else SumInverse(es[..|es| - 1]) + Inverse(es[|es| - 1].odds)
  }

  /** One leg for each outcome of the frame. `shares` says how the stake is split. */
  datatype Arb = Arb(
    line: Line, outcomes: seq<Outcome>, legs: seq<Entry>, inverse: real, margin: real, shares: seq<real>)

  function Share(odds: real, inverse: real): real
    requires odds != 0.0 && inverse != 0.0
  {
    Inverse(odds) / inverse
  }

  lemma SharePays(odds: real, inverse: real)
    requires odds >= LOWEST_ODDS && inverse > 0.0
    ensures Share(odds, inverse) > 0.0 && Payout(Share(odds, inverse), odds) == Inverse(inverse)
    ensures Times(inverse, Share(odds, inverse)) == Inverse(odds)
  {
    var s := Share(odds, inverse);
    InverseIs(odds);
    InverseIs(inverse);
    QuotientTimes(Inverse(odds), inverse);
    TimesSign(inverse, s);
    assert Times(inverse, Payout(s, odds)) == 1.0 by {
      assert inverse * (s * odds) == odds * (inverse * s);
    }
    TimesOrder(inverse, Payout(s, odds), Inverse(inverse));
  }

  /** What one outcome pays per unit staked on the whole arb. */
  function Payout(share: real, odds: real): real {
    share * odds
  }

  function Sources(es: seq<Entry>): set<Book> {
    set i | 0 <= i < |es| :: es[i].Source()
  }

  function Elements<T>(s: seq<T>): set<T> {
    set i | 0 <= i < |s| :: s[i]
  }

  function Legs(entries: seq<Entry>, frame: set<Outcome>): (legs: seq<Entry>)
    ensures |legs| == |Covered(entries, frame)|
    ensures forall i :: 0 <= i < |legs| ==> Best(entries, frame, Covered(entries, frame)[i]) == Some(legs[i])
  {
    var covered := Covered(entries, frame);
    seq(|covered|, i requires 0 <= i < |covered| =>
      assert covered[i] in covered;
      Best(entries, frame, covered[i]).value)
  }

  lemma LegsArePriced(entries: seq<Entry>, frame: set<Outcome>)
    requires Priced(entries)
    ensures Priced(Legs(entries, frame))
    ensures Legs(entries, frame) != [] ==> SumInverse(Legs(entries, frame)) > 0.0
  {
    var legs := Legs(entries, frame);
    forall i | 0 <= i < |legs| ensures legs[i].odds >= LOWEST_ODDS {
      assert legs[i] in entries;
    }
    InversesArePositive(legs);
  }

  lemma {:induction false} InversesArePositive(es: seq<Entry>)
    requires Priced(es)
    ensures SumInverse(es) >= 0.0 && (es != [] ==> SumInverse(es) > 0.0)
    decreases |es|
  {
    if es != [] {
      InversesArePositive(es[..|es| - 1]);
      InverseIs(es[|es| - 1].odds);
    }
  }

  lemma NoneAtAll<T>(s: seq<T>)
    ensures Elements(s) == {} <==> s == []
  {
    if s != [] {
      assert s[0] in Elements(s);
    }
  }

  /** What is reported for one board. */
  function ArbOn(entries: seq<Entry>, line: Line, threshold: real): Option<Arb>
    requires Priced(entries)
  {
    var frame := FrameOf(entries);
    if frame.None? || |frame.value| < 2 then None
    else
      var covered, legs := Covered(entries, frame.value), Legs(entries, frame.value);
      LegsArePriced(entries, frame.value);
      NoneAtAll(covered);
      if Elements(covered) != frame.value || |Sources(legs)| < 2 then None
      else
        var inverse := SumInverse(legs);
        var margin := (1.0 - inverse) * 100.0;
        if margin < threshold then None
        else Some(Arb(line, covered, legs, inverse, margin, SharesOf(legs, inverse)))
  }

  function SharesOf(legs: seq<Entry>, inverse: real): (shares: seq<real>)
    requires Priced(legs) && inverse > 0.0
    ensures |shares| == |legs|
    ensures forall i :: 0 <= i < |legs| ==> shares[i] == Share(legs[i].odds, inverse)
  {
    seq(|legs|, i requires 0 <= i < |legs| => Share(legs[i].odds, inverse))
  }

  /** One admissible entry of the board for each of the outcomes. */
  ghost predicate IsPick(entries: seq<Entry>, frame: set<Outcome>, outcomes: seq<Outcome>, pick: seq<Entry>) {
    && |pick| == |outcomes|
    && forall i :: 0 <= i < |pick| ==> pick[i] in entries && Covers(frame, pick[i].selection) == Some(outcomes[i])
  }

  lemma {:induction false} ShorterOddsSumHigher(legs: seq<Entry>, pick: seq<Entry>)
    requires Priced(legs) && Priced(pick) && |legs| == |pick|
    requires forall i :: 0 <= i < |legs| ==> pick[i].odds <= legs[i].odds
    ensures SumInverse(legs) <= SumInverse(pick)
    decreases |legs|
  {
    if legs != [] {
      var n := |legs| - 1;
      ShorterOddsSumHigher(legs[..n], pick[..n]);
      InverseOrder(legs[n].odds, pick[n].odds);
    }
  }

  /** An arb, taken apart. */
  lemma ArbIs(entries: seq<Entry>, line: Line, threshold: real)
    requires Priced(entries) && ArbOn(entries, line, threshold).Some?
    ensures FrameOf(entries).Some?
    ensures var arb, frame := ArbOn(entries, line, threshold).value, FrameOf(entries).value;
            && arb.line == line && |frame| >= 2
            && arb.outcomes == Covered(entries, frame) && arb.legs == Legs(entries, frame)
            && Elements(arb.outcomes) == frame && |Sources(arb.legs)| >= 2
            && Priced(arb.legs) && arb.inverse == SumInverse(arb.legs) > 0.0
            && arb.margin == (1.0 - arb.inverse) * 100.0 >= threshold
            && arb.shares == SharesOf(arb.legs, arb.inverse)
  {
    hide FrameOf, Covered, Sources, SumInverse, SharesOf, Elements, Legs;
    var frame := FrameOf(entries).value;
    LegsArePriced(entries, frame);
    NoneAtAll(Covered(entries, frame));
  }

  /** No other way to take one admissible quote per outcome has a smaller inverse sum. */
  lemma ArbIsCheapest(entries: seq<Entry>, line: Line, threshold: real, pick: seq<Entry>)
    requires Priced(entries) && ArbOn(entries, line, threshold).Some?
    requires IsPick(entries, FrameOf(entries).value, ArbOn(entries, line, threshold).value.outcomes, pick)
    ensures var arb := ArbOn(entries, line, threshold).value;
            && Priced(pick) && arb.inverse <= SumInverse(pick)
            && IsPick(entries, FrameOf(entries).value, arb.outcomes, arb.legs)
            && Priced(arb.legs) && arb.inverse == SumInverse(arb.legs)
  {
    hide FrameOf, Covered, Covers, Best, Sources, SumInverse, SharesOf, Elements, Legs, ArbOn;
    ArbIs(entries, line, threshold);
    var arb := ArbOn(entries, line, threshold).value;
    var frame := FrameOf(entries).value;
    forall i | 0 <= i < |pick| ensures LOWEST_ODDS <= pick[i].odds <= arb.legs[i].odds {
      var k :| 0 <= k < |entries| && entries[k] == pick[i];
      assert Best(entries, frame, arb.outcomes[i]) == Some(arb.legs[i]);
    }
    ShorterOddsSumHigher(arb.legs, pick);
  }

  /** An arb is on one line and covers its whole frame, once each, with at least two books,
      and no single book lists more outcomes than the arb has legs. */
  lemma ArbIsComplete(entries: seq<Entry>, line: Line, threshold: real)
    requires Priced(entries) && ArbOn(entries, line, threshold).Some?
    requires forall i :: 0 <= i < |entries| ==> LineOf(entries[i].selection) == line
    ensures var arb := ArbOn(entries, line, threshold).value;
            && FrameOf(entries) == Some(Elements(arb.outcomes))
            && (forall i, j :: 0 <= i < j < |arb.outcomes| ==> arb.outcomes[i] != arb.outcomes[j])
            && |arb.legs| == |arb.outcomes| >= 2
            && (forall i :: 0 <= i < |arb.legs| ==> arb.legs[i] in entries && LineOf(arb.legs[i].selection) == line)
            && |Sources(arb.legs)| >= 2
            && arb.margin >= threshold
            && forall b :: |Listed(entries, b)| <= |arb.legs|
  {
    hide FrameOf, Covered, Covers, Best, Sources, SumInverse, SharesOf, Elements, Legs, ArbOn, Listed;
    ArbIs(entries, line, threshold);
    var arb := ArbOn(entries, line, threshold).value;
    var frame := FrameOf(entries).value;
    FrameIsWidest(entries);
    DistinctCount(arb.outcomes);
    forall i | 0 <= i < |arb.legs|
      ensures arb.legs[i] in entries && LineOf(arb.legs[i].selection) == line
    {
      assert Best(entries, frame, arb.outcomes[i]) == Some(arb.legs[i]);
    }
  }

  /** Every outcome that some book lists outright. */
  function AllListed(entries: seq<Entry>): set<Outcome> {
    set i | 0 <= i < |entries| && entries[i].selection.On? :: entries[i].selection.outcome
  }

  lemma {:induction false} ListedIsListed(entries: seq<Entry>, b: Book)
    ensures Listed(entries, b) <= AllListed(entries)
    decreases |entries|
  {
    if entries != [] {
      var n := |entries| - 1;
      ListedIsListed(entries[..n], b);
      assert forall i :: 0 <= i < n ==> entries[..n][i] == entries[i];
    }
  }

  /** An arb covers every outcome that any book lists exactly if one book lists them all. */
  lemma CoversAllExactly(entries: seq<Entry>, line: Line, threshold: real)
    requires Priced(entries) && ArbOn(entries, line, threshold).Some?
    ensures Elements(ArbOn(entries, line, threshold).value.outcomes) == AllListed(entries) <==>
              exists b :: Listed(entries, b) == AllListed(entries)
  {
    hide Listed, FrameOf, AllListed, Covered, Covers, Sources, SumInverse, SharesOf, Legs, ArbOn;
    ArbIs(entries, line, threshold);
    FrameIsWidest(entries);
    var frame := FrameOf(entries).value;
    var b :| Listed(entries, b) == frame;
    ListedIsListed(entries, b);
    if all :| Listed(entries, all) == AllListed(entries) {
      assert |Listed(entries, all)| <= |frame|;
      SubsetIsSame(frame, AllListed(entries));
    }
  }

  lemma SubsetIsSame<T>(a: set<T>, b: set<T>)
    requires a <= b && |b| <= |a|
    ensures a == b
  {
    assert |b - a| == |b| - |a|;
  }

  const TWO_WAY: seq<Entry> := [
    Entry("x", "A", 2.0, On(Win(Home))), Entry("x", "A", 3.0, On(Win(Away))),
    Entry("x", "B", 3.0, On(Win(Home))), Entry("x", "B", 3.0, On(Draw))]

  const SIDES: set<Outcome> := {Win(Home), Win(Away)}

  /** One book lists home and away, the other home and the draw; the arb reported leaves the
      draw uncovered. */
  lemma DrawUncovered()
    ensures Priced(TWO_WAY) && LeavesDrawOpen(TWO_WAY, ("x", "B"), 1.0)
  {
    hide *;
    TwoWayIs();
    TwoWayFrame();
    BothCovered();
    TwoWayLegs();
    OpenDraw(TWO_WAY, SIDES, ("x", "B"), 1.0);
  }

  /** An arb is reported that does not cover the draw, which the book lists. */
  ghost predicate LeavesDrawOpen(entries: seq<Entry>, b: Book, threshold: real)
    requires Priced(entries)
  {
    var arb := ArbOn(entries, None, threshold);
    arb.Some? && Draw !in Elements(arb.value.outcomes) && Draw in Listed(entries, b)
  }

  lemma OpenDraw(entries: seq<Entry>, frame: set<Outcome>, b: Book, threshold: real)
    requires Priced(entries) && FrameOf(entries) == Some(frame) && |frame| >= 2
    requires Elements(Covered(entries, frame)) == frame && |Sources(Legs(entries, frame))| >= 2
    requires Priced(Legs(entries, frame)) && (1.0 - SumInverse(Legs(entries, frame))) * 100.0 >= threshold
    requires Draw !in frame && Listed(entries, b) == {Win(Home), Draw}
    ensures LeavesDrawOpen(entries, b, threshold)
  {
    hide ArbOn, FrameOf, Covered, Legs, Sources, SumInverse, Elements, Listed;
    IsArb(entries, frame, None, threshold);
  }

  lemma IsArb(entries: seq<Entry>, frame: set<Outcome>, line: Line, threshold: real)
    requires Priced(entries) && FrameOf(entries) == Some(frame) && |frame| >= 2
    requires Elements(Covered(entries, frame)) == frame && |Sources(Legs(entries, frame))| >= 2
    requires Priced(Legs(entries, frame)) && (1.0 - SumInverse(Legs(entries, frame))) * 100.0 >= threshold
    ensures ArbOn(entries, line, threshold).Some?
    ensures ArbOn(entries, line, threshold).value.outcomes == Covered(entries, frame)
  {
    hide FrameOf, Covered, Legs, Sources, SumInverse, Elements;
    LegsArePriced(entries, frame);
    NoneAtAll(Covered(entries, frame));
  }

  lemma TwoWayIs()
    ensures |TWO_WAY| == 4 && Priced(TWO_WAY) && Draw !in SIDES
    ensures TWO_WAY[1].odds == TWO_WAY[2].odds == 3.0 && TWO_WAY[1].Source() != TWO_WAY[2].Source()
  {
  }

  lemma TwoWayFrame()
    ensures FrameOf(TWO_WAY) == Some(SIDES)
    ensures Listed(TWO_WAY, ("x", "B")) == {Win(Home), Draw}
  {
    var a, b := ("x", "A"), ("x", "B");
    hide Listed, Books, FirstWidest;
    NoBooksYet(TWO_WAY);
    NothingListed(TWO_WAY, a);
    NothingListed(TWO_WAY, b);
    for n := 0 to 4
      invariant Listed(TWO_WAY[..n], a) == [{}, {Win(Home)}, SIDES, SIDES, SIDES][n]
      invariant Listed(TWO_WAY[..n], b) == [{}, {}, {}, {Win(Home)}, {Win(Home), Draw}][n]
      invariant Books(TWO_WAY[..n]) == [[], [a], [a], [a, b], [a, b]][n]
    {
      OneMore(TWO_WAY, n, a);
      OneMore(TWO_WAY, n, b);
    }
    assert TWO_WAY[..4] == TWO_WAY;
    FirstOfEqual(TWO_WAY, a, b);
  }

  lemma NothingListed(entries: seq<Entry>, b: Book)
    ensures Listed(entries[..0], b) == {}
  {
  }

  lemma FirstOfEqual(entries: seq<Entry>, a: Book, b: Book)
    requires Books(entries) == [a, b] && |Listed(entries, b)| <= |Listed(entries, a)|
    ensures FrameOf(entries) == Some(Listed(entries, a))
  {
    assert [a, b][..1] == [a];
    assert FirstWidest(entries, [a]) == Listed(entries, a);
  }

  lemma BothCovered()
    ensures Elements(Covered(TWO_WAY, SIDES)) == SIDES && |Covered(TWO_WAY, SIDES)| == |SIDES| == 2
  {
    hide Best, Covered;
    assert Covers(SIDES, TWO_WAY[0].selection) == Some(Win(Home));
    assert Covers(SIDES, TWO_WAY[1].selection) == Some(Win(Away));
    var os := Covered(TWO_WAY, SIDES);
    assert Win(Home) in os && Win(Away) in os;
    forall o | o in os ensures o in SIDES {
      assert Covers(SIDES, Best(TWO_WAY, SIDES, o).value.selection) == Some(o);
    }
    assert Elements(os) == SIDES;
    DistinctCount(os);
  }

  /** The legs are home at one book and away at the other, both at 3. */
  lemma TwoWayLegs()
    requires Elements(Covered(TWO_WAY, SIDES)) == SIDES && |Covered(TWO_WAY, SIDES)| == 2
    ensures |Sources(Legs(TWO_WAY, SIDES))| >= 2
    ensures Priced(Legs(TWO_WAY, SIDES)) && (1.0 - SumInverse(Legs(TWO_WAY, SIDES))) * 100.0 >= 1.0
  {
    hide *;
    TwoWayIs();
    var home, away := TWO_WAY[2], TWO_WAY[1];
    LegsArePriced(TWO_WAY, SIDES);
    InElements(Covered(TWO_WAY, SIDES));
    var os, legs := Covered(TWO_WAY, SIDES), Legs(TWO_WAY, SIDES);
    forall i | 0 <= i < 2 ensures legs[i] == if os[i] == Win(Home) then home else away {
      BestOfTwoWay(os[i]);
    }
    InSources(legs);
    TwoOf(Sources(legs), legs[0].Source(), legs[1].Source());
    TwoThirds(legs);
  }

  lemma InElements<T>(s: seq<T>)
    ensures forall i :: 0 <= i < |s| ==> s[i] in Elements(s)
  {
  }

  lemma InSources(es: seq<Entry>)
    ensures forall i :: 0 <= i < |es| ==> es[i].Source() in Sources(es)
  {
  }

  lemma BestOfTwoWay(o: Outcome)
    requires o in SIDES
    ensures Best(TWO_WAY, SIDES, o) == Some(if o == Win(Home) then TWO_WAY[2] else TWO_WAY[1])
  {
    hide Best;
    assert Covers(SIDES, TWO_WAY[2].selection) == Some(Win(Home));
    assert Covers(SIDES, TWO_WAY[1].selection) == Some(Win(Away));
    var e := Best(TWO_WAY, SIDES, o).value;
    var k :| 0 <= k < 4 && TWO_WAY[k] == e;
  }

  lemma TwoThirds(legs: seq<Entry>)
    requires |legs| == 2 && legs[0].odds == 3.0 && legs[1].odds == 3.0
    ensures (1.0 - SumInverse(legs)) * 100.0 >= 1.0
  {
    assert legs[..1][..0] == [] && SumInverse(legs[..1]) == Inverse(3.0);
    assert SumInverse(legs) == Inverse(3.0) + Inverse(3.0);
  }

  lemma TwoOf<T>(s: set<T>, a: T, b: T)
    requires a in s && b in s && a != b
    ensures |s| >= 2
  {
    assert {a, b} <= s && |{a, b}| == 2;
    assert |s| == |s - {a, b}| + |{a, b}|;
  }

  lemma {:induction false} DistinctCount<T>(s: seq<T>)
    requires forall i, j :: 0 <= i < j < |s| ==> s[i] != s[j]
    ensures |Elements(s)| == |s|
    decreases |s|
  {
    if s != [] {
      var n := |s| - 1;
      DistinctCount(s[..n]);
      assert Elements(s) == Elements(s[..n]) + {s[n]};
      assert s[n] !in Elements(s[..n]);
    }
  }

  lemma {:induction false} SharesSum(legs: seq<Entry>, shares: seq<real>, inverse: real)
    requires Priced(legs) && inverse > 0.0 && |shares| == |legs|
    requires forall i :: 0 <= i < |legs| ==> shares[i] == Share(legs[i].odds, inverse)
    ensures Times(inverse, Sum(shares)) == SumInverse(legs)
    decreases |legs|
  {
    if legs == [] {
      assert Sum(shares) == 0.0;
    } else {
      hide Times, Share, Inverse;
      var n := |legs| - 1;
      SharesSum(legs[..n], shares[..n], inverse);
      SharePays(legs[n].odds, inverse);
      assert Sum(shares) == Sum(shares[..n]) + shares[n];
      TimesAdd(inverse, Sum(shares[..n]), shares[n], Sum(shares));
    }
  }

  lemma PaysEach(legs: seq<Entry>, inverse: real, i: nat)
    requires Priced(legs) && inverse > 0.0 && i < |legs|
    ensures SharesOf(legs, inverse)[i] > 0.0 && Payout(SharesOf(legs, inverse)[i], legs[i].odds) == Inverse(inverse)
  {
    hide Share, Payout, Inverse;
    SharePays(legs[i].odds, inverse);
  }

  lemma NothingLeftOver(legs: seq<Entry>, inverse: real)
    requires Priced(legs) && inverse == SumInverse(legs) > 0.0
    ensures Sum(SharesOf(legs, inverse)) == 1.0
  {
    hide Share, Sum, SumInverse, Times;
    var total := Sum(SharesOf(legs, inverse));
    SharesSum(legs, SharesOf(legs, inverse), inverse);
    TimesOne(inverse);
    TimesOrder(inverse, total, 1.0);
  }

  /** The stake is split without remainder, and every outcome pays the same: 1 over the
      inverse sum, which is more than was staked exactly when the margin is positive. */
  lemma ArbPaysEqually(entries: seq<Entry>, line: Line, threshold: real)
    requires Priced(entries) && ArbOn(entries, line, threshold).Some?
    ensures var arb := ArbOn(entries, line, threshold).value;
            && arb.inverse > 0.0 && |arb.shares| == |arb.legs|
            && Sum(arb.shares) == 1.0
            && (forall i :: 0 <= i < |arb.legs| ==>
                  arb.shares[i] > 0.0 && Payout(arb.shares[i], arb.legs[i].odds) == Inverse(arb.inverse))
            && (Inverse(arb.inverse) > 1.0 <==> arb.margin > 0.0)
  {
    hide FrameOf, Covered, Sources, SumInverse, Elements, Legs, ArbOn, SharesOf, Sum, Payout;
    ArbIs(entries, line, threshold);
    var arb := ArbOn(entries, line, threshold).value;
    NothingLeftOver(arb.legs, arb.inverse);
    forall i | 0 <= i < |arb.legs|
      ensures arb.shares[i] > 0.0 && Payout(arb.shares[i], arb.legs[i].odds) == Inverse(arb.inverse)
    {
      PaysEach(arb.legs, arb.inverse, i);
    }
    InverseIs(arb.inverse);
    InverseOrder(arb.inverse, 1.0);
  }

  lemma CoveredKeys(covered: seq<Outcome>, best: map<Outcome, Entry>)
    requires forall o :: o in covered <==> o in best
    ensures Elements(covered) == best.Keys
  {
    forall o | o in best ensures o in Elements(covered) {
      var i :| 0 <= i < |covered| && covered[i] == o;
    }
  }

  /** The arb on one board, if there is one. */
  method BoardArb(entries: seq<Entry>, line: Line, threshold: real) returns (arb: Option<Arb>)
    requires Priced(entries)
    ensures arb == ArbOn(entries, line, threshold)
  {
    hide FrameOf, Covered, Covers, Best, Sources, SumInverse, SharesOf;
    var frame := Frame(entries);
    if frame.None? || |frame.value| < 2 {
      return None;
    }
    var covered, best := BestPrices(entries, frame.value);
    CoveredKeys(covered, best);
    if best.Keys != frame.value {
      return None;
    }
    var legs := seq(|covered|, i requires 0 <= i < |covered| && covered[i] in best => best[covered[i]]);
    assert legs == Legs(entries, frame.value);
    LegsArePriced(entries, frame.value);
    if |Sources(legs)| < 2 {
      return None;
    }
    var inverse := SumInverse(legs);
    var margin := (1.0 - inverse) * 100.0;
    if margin < threshold {
      return None;
    }
    return Some(Arb(line, covered, legs, inverse, margin, SharesOf(legs, inverse)));
  }

  lemma ArbNeedsEntries(entries: seq<Entry>, line: Line, threshold: real)
    requires Priced(entries) && ArbOn(entries, line, threshold).Some?
    ensures entries != [] && ArbOn(entries, line, threshold).value.line == line
  {
  }

  /** `arbs` reports every one of the lines that has an arb, once. */
  ghost predicate ArbsOf(rows: seq<Row>, threshold: real, lines: seq<Line>, arbs: seq<Arb>) {
    && (forall i :: 0 <= i < |arbs| ==>
          arbs[i].line in lines && Some(arbs[i]) == ArbOn(Board(rows, arbs[i].line), arbs[i].line, threshold))
    && (forall i, j :: 0 <= i < j < |arbs| ==> arbs[i].line != arbs[j].line)
    && (forall line :: line in lines && ArbOn(Board(rows, line), line, threshold).Some? ==>
          exists i :: 0 <= i < |arbs| && arbs[i].line == line)
  }

  lemma OneMoreLine(rows: seq<Row>, threshold: real, lines: seq<Line>, n: nat, arbs: seq<Arb>)
    requires n < |lines| && lines[n] !in lines[..n] && ArbsOf(rows, threshold, lines[..n], arbs)
    ensures var arb := ArbOn(Board(rows, lines[n]), lines[n], threshold);
            ArbsOf(rows, threshold, lines[..n + 1], arbs + if arb.Some? then [arb.value] else [])
  {
    hide Board, ArbOn;
    var arb := ArbOn(Board(rows, lines[n]), lines[n], threshold);
    var more := arbs + if arb.Some? then [arb.value] else [];
    assert lines[..n + 1] == lines[..n] + [lines[n]];
    if arb.Some? {
      ArbNeedsEntries(Board(rows, lines[n]), lines[n], threshold);
    }
    forall line | line in lines[..n + 1] && ArbOn(Board(rows, line), line, threshold).Some?
      ensures exists i :: 0 <= i < |more| && more[i].line == line
    {
      if line == lines[n] {
        assert more[|arbs|].line == line;
      } else {
        var i :| 0 <= i < |arbs| && arbs[i].line == line;
        assert more[i].line == line;
      }
    }
  }

  /** `arbs_for_fixture`: the arb of every line that has one, and nothing else. */
  method ArbsForFixture(rows: seq<Row>, threshold: real) returns (arbs: seq<Arb>)
    ensures forall i :: 0 <= i < |arbs| ==> Some(arbs[i]) == ArbOn(Board(rows, arbs[i].line), arbs[i].line, threshold)
    ensures forall i, j :: 0 <= i < j < |arbs| ==> arbs[i].line != arbs[j].line
    ensures forall line :: ArbOn(Board(rows, line), line, threshold).Some? ==>
              exists i :: 0 <= i < |arbs| && arbs[i].line == line
  {
    hide Board, ArbOn;
    var lines, boards := Boards(rows);
    arbs := [];
    for n := 0 to |lines|
      invariant ArbsOf(rows, threshold, lines[..n], arbs)
    {
      var arb := BoardArb(boards[lines[n]], lines[n], threshold);
      OneMoreLine(rows, threshold, lines, n, arbs);
      arbs := arbs + if arb.Some? then [arb.value] else [];
    }
    assert lines[..|lines|] == lines;
    forall line | ArbOn(Board(rows, line), line, threshold).Some?
      ensures exists i :: 0 <= i < |arbs| && arbs[i].line == line
    {
      ArbNeedsEntries(Board(rows, line), line, threshold);
      assert line in boards;
    }
  }

  // ----- backing at a book, laying at the exchange -----

  function WinBranch(back: real, lay: real): real
    requires lay != 0.0
  {
    var layStake := back / lay;
    (back - 1.0) - layStake * (lay - 1.0)
  }

  function LoseBranch(back: real, lay: real, commission: real): real
    requires lay != 0.0
  {
    var layStake := back / lay;
    layStake * (1.0 - commission) - 1.0
  }

  /** The lay stake makes both branches the same but for the commission, so the worse branch
      is the losing one exactly when there is a commission to pay; it is a profit exactly
      when the backed price still beats the lay price after commission. */
  lemma BackLayBranches(back: real, lay: real, commission: real)
    requires lay >= LOWEST_ODDS && back > lay
    ensures lay * (WinBranch(back, lay) + 1.0) == back
    ensures lay * (LoseBranch(back, lay, commission) + 1.0) == back * (1.0 - commission)
    ensures WinBranch(back, lay) - LoseBranch(back, lay, commission) == (back / lay) * commission
    ensures LoseBranch(back, lay, commission) <= WinBranch(back, lay) <==> commission >= 0.0
    ensures WinBranch(back, lay) > 0.0
    ensures LoseBranch(back, lay, commission) > 0.0 <==> back * (1.0 - commission) > lay
  {
    var k, net := back / lay, 1.0 - commission;
    QuotientTimes(back, lay);
    TimesOne(lay);
    TimesOrder(lay, 1.0, k);
    assert Times(lay, Times(k, net)) == back * net by {
      assert lay * (k * net) == (lay * k) * net;
    }
    TimesOrder(lay, 1.0, Times(k, net));
    TimesSign(k, commission);
  }
}
