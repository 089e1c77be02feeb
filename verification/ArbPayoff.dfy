/** What an arb is made of and what it returns (`quant/arbitrage.py`), said in terms of the
    quotes on the board and of the result of the fixture. */
module ArbPayoff {
  import opened Wrappers
  import opened Reals
  import opened Arbitrage

  // ----- which quotes there are -----

  /** A row enters a board exactly with a price of at least 1.01 on a translatable selection,
      and enters the board of its own line: the line of a total, none for any other. */
  lemma BoardExactly(rows: seq<Row>, row: Row, line: Line)
    ensures Board([], line) == []
    ensures Board(rows + [row], line) == Board(rows, line) +
            if && row.odds.Some? && row.odds.value >= 1.01 && row.selection.Some?
               && line == match row.selection.value {
                            case On(Over(l)) => Some(l)
                            case On(Under(l)) => Some(l)
                            case On(_) => None
                            case No(_) => None
                          }
            then [Entry(row.provider, row.book, row.odds.value, row.selection.value)] else []
  {
    assert (rows + [row])[..|rows|] == rows;
  }

  predicate Lists(e: Entry, b: Book, o: Outcome) {
    e.provider == b.0 && e.book == b.1 && e.selection == On(o)
  }

  /** What a book lists outright. */
  lemma {:induction false} ListedExactly(entries: seq<Entry>, b: Book, o: Outcome)
    ensures o in Listed(entries, b) <==>
              exists i :: 0 <= i < |entries| && Lists(entries[i], b, o)
    decreases |entries|
  {
    if entries != [] {
      var n := |entries| - 1;
      ListedExactly(entries[..n], b, o);
      if i :| 0 <= i < |entries| && Lists(entries[i], b, o) {
        assert i == n || entries[..n][i] == entries[i];
      }
      if i :| 0 <= i < n && Lists(entries[..n][i], b, o) {
        assert entries[i] == entries[..n][i];
      }
    }
  }

  // ----- when a quote pays -----

  /** A quote on an outcome pays when that is the result, one against a side whenever that
      side does not win. */
  predicate Pays(s: Selection, result: Outcome) {
    match s
    case On(o) => result == o
    case No(side) => result != Win(side)
  }

  /** What a quote is counted for: one on an outcome of the frame for that outcome; one
      against a side for the other of two sides, and for nothing where there are more. */
  lemma CoversExactly(frame: set<Outcome>, s: Selection, o: Outcome)
    requires s.No? ==> forall x :: x in frame ==> x.Draw? || x.Win?
    ensures Covers(frame, s) == Some(o) <==>
              && o in frame
              && match s {
                 case On(x) => o == x
                 case No(side) => |frame| == 2 && Draw !in frame && o != Win(side)
                 }
  {
    if s.No? && |frame| == 2 && Draw !in frame && o in frame && o != Win(s.side) {
      assert o.Win? && o.side == Opposite(s.side) by {
        assert o.side == Home || o.side == Away;
        assert s.side == Home || s.side == Away;
      }
    }
  }

  /** A quote pays on the outcome that it is counted for. */
  lemma CoveringPays(frame: set<Outcome>, s: Selection, o: Outcome)
    requires Covers(frame, s) == Some(o)
    ensures Pays(s, o)
  {
    match s {
      case On(_) =>
      case No(side) =>
        assert Covers(frame, s).value == Win(Opposite(side));
        assert Win(Opposite(side)) != Win(side);
    }
  }

  /** And, on a frame without totals, on no other outcome of it. */
  lemma CoveringPaysOnce(frame: set<Outcome>, s: Selection, o: Outcome, result: Outcome)
    requires Covers(frame, s) == Some(o) && result in frame
    requires s.No? ==> forall x :: x in frame ==> x.Draw? || x.Win?
    ensures Pays(s, result) <==> result == o
  {
    CoversExactly(frame, s, o);
    CoveringPays(frame, s, o);
    if s.No? && Pays(s, result) {
      CoversExactly(frame, s, result);
    }
  }

  // ----- which quotes an arb takes -----

  /** The leg of an outcome is the first quote counted for it at the best price. */
  lemma {:induction false} BestIsFirst(entries: seq<Entry>, frame: set<Outcome>, o: Outcome, k: nat)
    requires k < |entries| && Covers(frame, entries[k].selection) == Some(o)
    requires forall i :: 0 <= i < |entries| && Covers(frame, entries[i].selection) == Some(o) ==>
               entries[i].odds <= entries[k].odds
    requires forall i :: 0 <= i < k && Covers(frame, entries[i].selection) == Some(o) ==>
               entries[i].odds < entries[k].odds
    ensures Best(entries, frame, o) == Some(entries[k])
    decreases |entries|
  {
    hide Covers;
    var n := |entries| - 1;
    var front := entries[..n];
    assert forall i :: 0 <= i < n ==> front[i] == entries[i];
    if k < n {
      BestIsFirst(front, frame, o, k);
    } else {
      var e := Best(front, frame, o);
      if e.Some? {
        var i :| 0 <= i < n && front[i] == e.value;
      }
    }
  }

  /** The first outright quote of its book. */
  ghost predicate Introduces(entries: seq<Entry>, i: nat)
    requires i < |entries|
  {
    && entries[i].selection.On?
    && forall j :: 0 <= j < i && entries[j].selection.On? ==> entries[j].Source() != entries[i].Source()
  }

  /** The frame is the listing of a book; every book that quotes first lists fewer outcomes,
      and every other no more. */
  lemma FrameIsFirst(entries: seq<Entry>)
    requires FrameOf(entries).Some?
    ensures exists i :: 0 <= i < |entries| && IsFrame(entries, i, FrameOf(entries).value)
  {
    var books := Books(entries);
    var k := FirstOfWidest(entries, books);
    var i := IntroducedAt(entries, k);
    hide Listed, FrameOf, FirstWidest, Introduces;
    forall j | 0 <= j < i && entries[j].selection.On?
      ensures |Listed(entries, entries[j].Source())| < |Listed(entries, books[k])|
    {
      var m := EarlierBook(entries, i, j, k);
    }
    FrameIsWidest(entries);
    assert IsFrame(entries, i, FrameOf(entries).value);
  }

  ghost predicate IsFrame(entries: seq<Entry>, i: nat, frame: set<Outcome>)
    requires i < |entries|
  {
    && entries[i].selection.On? && frame == Listed(entries, entries[i].Source())
    && (forall j :: 0 <= j < i && entries[j].selection.On? ==> |Listed(entries, entries[j].Source())| < |frame|)
    && forall b :: |Listed(entries, b)| <= |frame|
  }

  lemma {:induction false} FirstOfWidest(entries: seq<Entry>, books: seq<Book>) returns (k: nat)
    requires books != []
    ensures k < |books| && FirstWidest(entries, books) == Listed(entries, books[k])
    ensures forall m :: 0 <= m < k ==> |Listed(entries, books[m])| < |FirstWidest(entries, books)|
    decreases |books|
  {
    hide Listed;
    var n := |books| - 1;
    if n == 0 {
      k := 0;
    } else {
      FirstWidestIsWidest(entries, books[..n]);
      if |Listed(entries, books[n])| > |FirstWidest(entries, books[..n])| {
        k := n;
        forall m | 0 <= m < n ensures |Listed(entries, books[m])| < |Listed(entries, books[n])| {
          assert books[..n][m] == books[m];
        }
      } else {
        k := FirstOfWidest(entries, books[..n]);
      }
    }
  }

  /** Books are listed in the order of their first outright quotes. */
  lemma {:induction false} IntroducedAt(entries: seq<Entry>, k: nat) returns (i: nat)
    requires k < |Books(entries)|
    ensures i < |entries| && Introduces(entries, i) && entries[i].Source() == Books(entries)[k]
    ensures forall j :: 0 <= j < i && entries[j].selection.On? ==> entries[j].Source() in Books(entries)[..k]
    decreases |entries|
  {
    var n := |entries| - 1;
    var front := Books(entries[..n]);
    if k < |front| {
      i := IntroducedAt(entries[..n], k);
      assert Books(entries)[..k] == front[..k];
    } else {
      i := n;
      assert Books(entries)[..k] == front;
      forall j | 0 <= j < n && entries[j].selection.On? ensures entries[j].Source() in front {
        QuotedIsBook(entries[..n], j);
      }
    }
  }

  lemma QuotedIsBook(entries: seq<Entry>, j: nat)
    requires j < |entries| && entries[j].selection.On?
    ensures entries[j].Source() in Books(entries)
  {
    ListedExactly(entries, entries[j].Source(), entries[j].selection.outcome);
  }

  lemma EarlierBook(entries: seq<Entry>, i: nat, j: nat, k: nat) returns (m: nat)
    requires j < i < |entries| && k < |Books(entries)| && entries[j].selection.On?
    requires forall x :: 0 <= x < i && entries[x].selection.On? ==> entries[x].Source() in Books(entries)[..k]
    ensures m < k && Books(entries)[m] == entries[j].Source()
  {
    m :| 0 <= m < k && Books(entries)[..k][m] == entries[j].Source();
  }

  /** There is an arb exactly if the frame has two outcomes or more, each has a quote, the
      best ones are not all from one book, and their inverses leave the margin asked for. */
  lemma ArbExactly(entries: seq<Entry>, line: Line, threshold: real)
    requires Priced(entries)
    ensures ArbOn(entries, line, threshold).Some? <==>
              FrameOf(entries).Some? &&
              var frame := FrameOf(entries).value;
              && |frame| >= 2
              && (forall o :: o in frame ==>
                    exists i :: 0 <= i < |entries| && Covers(frame, entries[i].selection) == Some(o))
              && (exists x, y :: x in frame && y in frame && Apart(entries, frame, x, y))
              && Priced(Legs(entries, frame))
              && (1.0 - SumInverse(Legs(entries, frame))) * 100.0 >= threshold
  {
    hide FrameOf, Covers, Best, Covered, SumInverse, SharesOf;
    if FrameOf(entries).Some? {
      var frame := FrameOf(entries).value;
      LegsArePriced(entries, frame);
      AllCovered(entries, frame);
      if Elements(Covered(entries, frame)) == frame {
        TwoBooks(entries, frame);
      }
      NoneAtAll(Covered(entries, frame));
    }
  }

  /** The best quotes for the two outcomes are from different books. */
  ghost predicate Apart(entries: seq<Entry>, frame: set<Outcome>, x: Outcome, y: Outcome) {
    var e, f := Best(entries, frame, x), Best(entries, frame, y);
    e.Some? && f.Some? && (e.value.provider, e.value.book) != (f.value.provider, f.value.book)
  }

  lemma AllCovered(entries: seq<Entry>, frame: set<Outcome>)
    ensures Elements(Covered(entries, frame)) == frame <==>
              forall o :: o in frame ==>
                exists i :: 0 <= i < |entries| && Covers(frame, entries[i].selection) == Some(o)
  {
    hide Best, Covered, Covers;
    var os := Covered(entries, frame);
    forall o
      ensures o in Elements(os) <==>
                exists i :: 0 <= i < |entries| && Covers(frame, entries[i].selection) == Some(o)
    {
      if Best(entries, frame, o).Some? {
        var i :| 0 <= i < |entries| && entries[i] == Best(entries, frame, o).value;
        assert Covers(frame, entries[i].selection) == Some(o);
      }
      assert o in Elements(os) <==> o in os;
    }
    forall o | o in Elements(os) ensures o in frame {
      var i :| 0 <= i < |entries| && Covers(frame, entries[i].selection) == Some(o);
    }
  }

  lemma TwoBooks(entries: seq<Entry>, frame: set<Outcome>)
    requires Elements(Covered(entries, frame)) == frame
    ensures |Sources(Legs(entries, frame))| >= 2 <==>
              exists x, y :: x in frame && y in frame && Apart(entries, frame, x, y)
  {
    hide *;
    var os, legs := Covered(entries, frame), Legs(entries, frame);
    if x, y :| x in frame && y in frame && Apart(entries, frame, x, y) {
      var i := LegOf(entries, frame, x);
      var j := LegOf(entries, frame, y);
      ApartMeans(entries, frame, x, y);
      InSources(legs);
      TwoOf(Sources(legs), legs[i].Source(), legs[j].Source());
    }
    if |Sources(legs)| >= 2 {
      var i, j := TwoSources(legs);
      InElements(os);
      assert Best(entries, frame, os[i]) == Some(legs[i]) && Best(entries, frame, os[j]) == Some(legs[j]);
      ApartMeans(entries, frame, os[i], os[j]);
    }
  }

  lemma LegOf(entries: seq<Entry>, frame: set<Outcome>, x: Outcome) returns (i: nat)
    requires Elements(Covered(entries, frame)) == frame && x in frame
    ensures i < |Legs(entries, frame)| && Best(entries, frame, x) == Some(Legs(entries, frame)[i])
  {
    hide Best, Covered, Covers;
    var os := Covered(entries, frame);
    i :| 0 <= i < |os| && os[i] == x;
  }

  lemma ApartMeans(entries: seq<Entry>, frame: set<Outcome>, x: Outcome, y: Outcome)
    ensures Apart(entries, frame, x, y) <==>
              && Best(entries, frame, x).Some? && Best(entries, frame, y).Some?
              && Best(entries, frame, x).value.Source() != Best(entries, frame, y).value.Source()
  {
    hide Best;
  }

  lemma TwoSources(legs: seq<Entry>) returns (i: nat, j: nat)
    requires |Sources(legs)| >= 2
    ensures i < |legs| && j < |legs| && legs[i].Source() != legs[j].Source()
  {
    var books := Sources(legs);
    var a :| a in books;
    assert |books - {a}| >= 1;
    var b :| b in books - {a};
    i :| 0 <= i < |legs| && legs[i].Source() == a;
    j :| 0 <= j < |legs| && legs[j].Source() == b;
  }

  // ----- what an arb returns -----

  /** What the first `n` legs return on a result: each leg that pays, its odds on its share. */
  function Returns(legs: seq<Entry>, shares: seq<real>, n: nat, result: Outcome): real
    requires n <= |legs| == |shares|
  {
    if n == 0 then 0.0
    else Returns(legs, shares, n - 1, result)
         + if Pays(legs[n - 1].selection, result) then shares[n - 1] * legs[n - 1].odds else 0.0
  }

  /** The leg `k`, and no other, pays on the result. */
  ghost predicate OnlyPays(legs: seq<Entry>, result: Outcome, k: nat) {
    k < |legs| && forall i :: 0 <= i < |legs| ==> (Pays(legs[i].selection, result) <==> i == k)
  }

  lemma {:induction false} ReturnsOnce(legs: seq<Entry>, shares: seq<real>, n: nat, result: Outcome, k: nat, each: real)
    requires n <= |legs| == |shares| && OnlyPays(legs, result, k)
    requires Payout(shares[k], legs[k].odds) == each
    ensures Returns(legs, shares, n, result) == if k < n then each else 0.0
  {
    if n > 0 {
      ReturnsOnce(legs, shares, n - 1, result, k, each);
    }
  }

  lemma OneLegPays(entries: seq<Entry>, line: Line, threshold: real, result: Outcome) returns (k: nat)
    requires Priced(entries) && ArbOn(entries, line, threshold).Some?
    requires forall i :: 0 <= i < |entries| ==> LineOf(entries[i].selection) == line
    requires result in ArbOn(entries, line, threshold).value.outcomes
    ensures OnlyPays(ArbOn(entries, line, threshold).value.legs, result, k)
  {
    hide FrameOf, Covered, Covers, Best, Sources, SumInverse, SharesOf, Elements, Legs, ArbOn, Listed, Pays;
    ArbIs(entries, line, threshold);
    ArbIsComplete(entries, line, threshold);
    var arb, frame := ArbOn(entries, line, threshold).value, FrameOf(entries).value;
    InElements(arb.outcomes);
    k :| 0 <= k < |arb.outcomes| && arb.outcomes[k] == result;
    forall i | 0 <= i < |arb.legs| ensures Pays(arb.legs[i].selection, result) <==> i == k {
      assert Best(entries, frame, arb.outcomes[i]) == Some(arb.legs[i]);
      if arb.legs[i].selection.No? {
        NoTotals(entries, line);
      }
      CoveringPaysOnce(frame, arb.legs[i].selection, arb.outcomes[i], result);
    }
  }

  /** Whatever outcome of its frame is the result, exactly one leg of an arb pays, and the
      whole stake, split as reported, returns one over the inverse sum. */
  lemma ArbReturns(entries: seq<Entry>, line: Line, threshold: real, result: Outcome)
    requires Priced(entries) && ArbOn(entries, line, threshold).Some?
    requires forall i :: 0 <= i < |entries| ==> LineOf(entries[i].selection) == line
    requires result in ArbOn(entries, line, threshold).value.outcomes
    ensures var arb := ArbOn(entries, line, threshold).value;
            && |arb.shares| == |arb.legs| && arb.inverse > 0.0
            && (exists k :: OnlyPays(arb.legs, result, k))
            && Returns(arb.legs, arb.shares, |arb.legs|, result) * arb.inverse == 1.0
  {
    hide *;
    var k := OneLegPays(entries, line, threshold, result);
    var arb := ArbOn(entries, line, threshold).value;
    ArbPaysEqually(entries, line, threshold);
    InRangeOf(arb.legs, result, k);
    ReturnsOnce(arb.legs, arb.shares, |arb.legs|, result, k, Inverse(arb.inverse));
    InverseTimes(arb.inverse);
  }

  lemma InRangeOf(legs: seq<Entry>, result: Outcome, k: nat)
    requires OnlyPays(legs, result, k)
    ensures k < |legs|
  {
  }

  lemma InverseTimes(x: real)
    requires x > 0.0
    ensures Inverse(x) * x == 1.0
  {
    InverseIs(x);
    TimesSwap(x, Inverse(x));
    assert Inverse(x) * x == Times(Inverse(x), x);
  }

  /** A board with a quote against a side has no totals. */
  lemma NoTotals(entries: seq<Entry>, line: Line)
    requires forall i :: 0 <= i < |entries| ==> LineOf(entries[i].selection) == line
    requires FrameOf(entries).Some? && exists i :: 0 <= i < |entries| && entries[i].selection.No?
    ensures forall x :: x in FrameOf(entries).value ==> x.Draw? || x.Win?
  {
    assert line == None;
    FrameIsWidest(entries);
    var b :| Listed(entries, b) == FrameOf(entries).value;
    forall x | x in Listed(entries, b) ensures x.Draw? || x.Win? {
      ListedExactly(entries, b, x);
    }
  }
}
