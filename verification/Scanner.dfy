/** Scoring every book's price against the median of the others (`betting/scanner.py`).

    Each book is measured against a different number, its own quote being left out of the
    field. The main result is that the scores are nevertheless ordered exactly as the raw
    odds are, in both edge bases, so the candidate acted on is the best-priced one. */
module Scanner {
  import opened Wrappers
  import opened Reals

  datatype EdgeBasis = Relative | Ev

  /** A quote whose price is no number is `Unpriced`. */
  datatype Quote = Priced(book: string, odds: real) | Unpriced(book: string)

  datatype Candidate = Candidate(book: string, odds: real, consensus: real, edge: real, field: nat)

  const MIN_BOOKS_FOR_CONSENSUS: nat := 2

  // ----- order statistics -----

  predicate Ascending(s: seq<real>) {
    forall i, j :: 0 <= i < j < |s| ==> s[i] <= s[j]
  }

  function Insert(s: seq<real>, x: real): (r: seq<real>)
    ensures |r| == |s| + 1
  {
    if s == [] || x <= s[0] then [x] + s else [s[0]] + Insert(s[1..], x)
  }

  function Sort(s: seq<real>): (r: seq<real>)
    ensures |r| == |s|
  {
    if s == [] then [] else Insert(Sort(s[1..]), s[0])
  }

  /** `statistics.median`: the middle value, or the mean of the two middle values. */
  function Median(s: seq<real>): real
    requires |s| > 0
  {
    var t, n := Sort(s), |s|;
    if n % 2 == 1 then t[n / 2] else (t[n / 2 - 1] + t[n / 2]) / 2.0
  }

  /** How many elements of `s` are at most `t`. */
  ghost function AtMost(s: seq<real>, t: real): nat {
    if s == [] then 0 else (if s[0] <= t then 1 else 0) + AtMost(s[1..], t)
  }

  lemma {:induction false} AtMostConcat(a: seq<real>, b: seq<real>, t: real)
    ensures AtMost(a + b, t) == AtMost(a, t) + AtMost(b, t)
    decreases |a|
  {
    if a == [] {
      assert a + b == b;
    } else {
      assert (a + b)[1..] == a[1..] + b;
      AtMostConcat(a[1..], b, t);
    }
  }

  lemma {:induction false} AtMostBounds(s: seq<real>, t: real)
    ensures AtMost(s, t) <= |s|
    ensures (forall i :: 0 <= i < |s| ==> s[i] <= t) ==> AtMost(s, t) == |s|
    ensures (forall i :: 0 <= i < |s| ==> s[i] > t) ==> AtMost(s, t) == 0
    decreases |s|
  {
    if s != [] {
      AtMostBounds(s[1..], t);
    }
  }

  lemma {:induction false} InsertSorts(s: seq<real>, x: real, t: real)
    requires Ascending(s)
    ensures Ascending(Insert(s, x))
    ensures forall y :: y in Insert(s, x) ==> y in s || y == x
    ensures AtMost(Insert(s, x), t) == AtMost(s, t) + if x <= t then 1 else 0
    decreases |s|
  {
    if s == [] || x <= s[0] {
      assert ([x] + s)[1..] == s;
    } else {
      InsertSorts(s[1..], x, t);
      assert ([s[0]] + Insert(s[1..], x))[1..] == Insert(s[1..], x);
    }
  }

  lemma {:induction false} SortSorts(s: seq<real>, t: real)
    ensures Ascending(Sort(s)) && AtMost(Sort(s), t) == AtMost(s, t)
    ensures forall y :: y in Sort(s) ==> y in s
    decreases |s|
  {
    if s != [] {
      SortSorts(s[1..], t);
      InsertSorts(Sort(s[1..]), s[0], t);
    }
  }

  /** The element of rank `k` is at most `t` exactly when more than `k` elements are. */
  lemma Rank(s: seq<real>, k: nat, t: real)
    requires Ascending(s) && k < |s|
    ensures s[k] <= t <==> AtMost(s, t) >= k + 1
  {
    if s[k] <= t {
      assert forall i :: 0 <= i <= k ==> s[i] <= t;
      AtMostSplit(s, k + 1, t);
    } else {
      assert forall i :: k <= i < |s| ==> s[i] > t;
      AtMostSplit(s, k, t);
    }
  }

  lemma AtMostSplit(s: seq<real>, k: nat, t: real)
    requires k <= |s|
    ensures (forall i :: 0 <= i < k ==> s[i] <= t) ==> AtMost(s, t) >= k
    ensures (forall i :: k <= i < |s| ==> s[i] > t) ==> AtMost(s, t) <= k
  {
    hide AtMost;
    var low, high := s[..k], s[k..];
    assert s == low + high;
    AtMostConcat(low, high, t);
    AtMostBounds(low, t);
    AtMostBounds(high, t);
  }

  /** If at every threshold `a` has at least as many elements below it as `b`, then `a` is
      the smaller one rank by rank. */
  lemma RanksCompare(a: seq<real>, b: seq<real>, k: nat)
    requires |a| == |b| && k < |a|
    requires forall t :: AtMost(b, t) <= AtMost(a, t)
    ensures Sort(a)[k] <= Sort(b)[k]
  {
    var t := Sort(b)[k];
    SortSorts(a, t);
    SortSorts(b, t);
    Rank(Sort(b), k, t);
    Rank(Sort(a), k, t);
  }

  lemma MediansCompare(a: seq<real>, b: seq<real>)
    requires |a| == |b| > 0
    requires forall t :: AtMost(b, t) <= AtMost(a, t)
    ensures Median(a) <= Median(b)
  {
    var n := |a|;
    RanksCompare(a, b, n / 2);
    if n % 2 == 0 {
      RanksCompare(a, b, n / 2 - 1);
    }
  }

  lemma MedianWithin(s: seq<real>, lo: real, hi: real)
    requires |s| > 0 && forall x :: x in s ==> lo < x < hi
    ensures lo < Median(s) < hi
  {
    SortSorts(s, hi);
    var t, n := Sort(s), |s|;
    assert t[n / 2] in t;
    if n % 2 == 0 {
      assert t[n / 2 - 1] in t;
    }
  }

  // ----- what the median is -----

  /** How many elements of `s` are smaller than `t`. */
  ghost function Below(s: seq<real>, t: real): nat {
    if s == [] then 0 else (if s[0] < t then 1 else 0) + Below(s[1..], t)
  }

  /** `x` stands at position `k` of `s` in rising order. */
  ghost predicate IsRank(s: seq<real>, k: nat, x: real) {
    x in s && Below(s, x) <= k < AtMost(s, x)
  }

  /** `m` is the middle element, or halfway between the two middle elements. */
  ghost predicate IsMedian(s: seq<real>, m: real) {
    if |s| % 2 == 1 then IsRank(s, |s| / 2, m)
    else |s| > 0 && exists low, high :: Halfway(s, low, high, m)
  }

  ghost predicate Halfway(s: seq<real>, low: real, high: real, m: real)
    requires |s| > 0 && |s| % 2 == 0
  {
    IsRank(s, |s| / 2 - 1, low) && IsRank(s, |s| / 2, high) && m + m == low + high
  }

  lemma {:induction false} BelowInserted(s: seq<real>, x: real, t: real)
    ensures Below(Insert(s, x), t) == Below(s, t) + if x < t then 1 else 0
    ensures x in Insert(s, x) && forall y :: y in s ==> y in Insert(s, x)
    decreases |s|
  {
    if s == [] || x <= s[0] {
      assert ([x] + s)[1..] == s;
    } else {
      BelowInserted(s[1..], x, t);
      assert ([s[0]] + Insert(s[1..], x))[1..] == Insert(s[1..], x);
    }
  }

  lemma {:induction false} BelowSorted(s: seq<real>, t: real)
    ensures Below(Sort(s), t) == Below(s, t)
    decreases |s|
  {
    if s != [] {
      BelowSorted(s[1..], t);
      BelowInserted(Sort(s[1..]), s[0], t);
    }
  }

  lemma {:induction false} BelowBounds(s: seq<real>, t: real)
    ensures Below(s, t) <= AtMost(s, t)
    ensures (forall i :: 0 <= i < |s| ==> s[i] >= t) ==> Below(s, t) == 0
    decreases |s|
  {
    if s != [] {
      BelowBounds(s[1..], t);
    }
  }

  lemma {:induction false} BelowRank(s: seq<real>, k: nat)
    requires Ascending(s) && k < |s|
    ensures Below(s, s[k]) <= k
    decreases |s|
  {
    if k == 0 {
      BelowBounds(s, s[0]);
    } else {
      assert s[1..][k - 1] == s[k];
      BelowRank(s[1..], k - 1);
    }
  }

  /** Sorting puts each element at its rank. */
  lemma SortedRank(s: seq<real>, k: nat)
    requires k < |s|
    ensures IsRank(s, k, Sort(s)[k])
  {
    var x := Sort(s)[k];
    SortSorts(s, x);
    BelowSorted(s, x);
    BelowRank(Sort(s), k);
    Rank(Sort(s), k, x);
    assert x in Sort(s);
  }

  lemma {:induction false} BelowLater(s: seq<real>, x: real, y: real)
    requires x < y
    ensures AtMost(s, x) <= Below(s, y)
    decreases |s|
  {
    if s != [] {
      BelowLater(s[1..], x, y);
    }
  }

  lemma OneRank(s: seq<real>, k: nat, x: real, y: real)
    requires IsRank(s, k, x) && IsRank(s, k, y)
    ensures x == y
  {
    if x < y {
      BelowLater(s, x, y);
    } else if y < x {
      BelowLater(s, y, x);
    }
  }

  /** The median is that number, and no other is. */
  lemma MedianExactly(s: seq<real>, m: real)
    requires |s| > 0
    ensures IsMedian(s, m) <==> m == Median(s)
  {
    hide IsRank, Sort;
    var n := |s|;
    SortedRank(s, n / 2);
    if n % 2 == 1 {
      if IsMedian(s, m) {
        OneRank(s, n / 2, m, Median(s));
      }
    } else {
      SortedRank(s, n / 2 - 1);
      var low, high := Sort(s)[n / 2 - 1], Sort(s)[n / 2];
      assert Halfway(s, low, high, Median(s));
      if IsMedian(s, m) {
        var x, y :| Halfway(s, x, y, m);
        OneRank(s, n / 2 - 1, low, x);
        OneRank(s, n / 2, high, y);
      }
    }
  }

  function Without<T>(s: seq<T>, i: nat): seq<T>
    requires i < |s|
  {
    s[..i] + s[i + 1..]
  }

  lemma AtMostWithout(s: seq<real>, i: nat, t: real)
    requires i < |s|
    ensures AtMost(Without(s, i), t) == AtMost(s, t) - if s[i] <= t then 1 else 0
  {
    assert s == s[..i] + ([s[i]] + s[i + 1..]);
    AtMostConcat(s[..i], [s[i]] + s[i + 1..], t);
    AtMostConcat([s[i]], s[i + 1..], t);
    AtMostConcat(s[..i], s[i + 1..], t);
    assert AtMost([s[i]][1..], t) == 0;
  }

  /** Leaving out a smaller element leaves a larger median. */
  lemma LeaveOneOut(s: seq<real>, i: nat, j: nat)
    requires i < |s| && j < |s| && |s| >= 2 && s[i] <= s[j]
    ensures Median(Without(s, j)) <= Median(Without(s, i))
  {
    forall t
      ensures AtMost(Without(s, i), t) <= AtMost(Without(s, j), t)
    {
      AtMostWithout(s, i, t);
      AtMostWithout(s, j, t);
    }
    MediansCompare(Without(s, j), Without(s, i));
  }

  // ----- scoring -----

  /** A price that can take part in a consensus: above 1, below the payout cap. */
  predicate Usable(q: Quote) {
    q.Priced? && 1.0 < q.odds < 1001.0
  }

  function ImpliedAll(odds: seq<real>): seq<real>
    requires forall i :: 0 <= i < |odds| ==> odds[i] > 0.0
  {
    seq(|odds|, i requires 0 <= i < |odds| => Inverse(odds[i]))
  }

  /** The field's price: the median of the others' implied probabilities, as odds again.
      Fails without others. */
  function ConsensusOf(others: seq<real>): (c: Option<real>)
    requires forall i :: 0 <= i < |others| ==> others[i] > 1.0
    ensures c.None? <==> others == []
    ensures c.Some? ==> c.value > 1.0
  {
    if others == [] then None
    else
      ImpliedWithin(others);
      Some(Inverse(Median(ImpliedAll(others))))
  }

  lemma ImpliedWithin(others: seq<real>)
    requires others != [] && forall i :: 0 <= i < |others| ==> others[i] > 1.0
    ensures 0.0 < Median(ImpliedAll(others)) < 1.0
    ensures Inverse(Median(ImpliedAll(others))) > 1.0
  {
    var p := ImpliedAll(others);
    forall x | x in p ensures 0.0 < x < 1.0 {
      var i :| 0 <= i < |p| && x == p[i];
      InverseIs(others[i]);
    }
    MedianWithin(p, 0.0, 1.0);
    InverseIs(Median(p));
  }

  /** The score of one price against the field; refused for unusable prices and for a
      negative assumed margin. */
  function EdgeOf(odds: real, consensus: real, basis: EdgeBasis, overround: real): Option<real> {
    if odds <= 1.0 || consensus <= 1.0 then None
    else if basis == Relative then Some(Premium(odds, consensus))
    else if overround < 0.0 then None
    else
      Some(ExpectedValue(FairProbability(consensus, overround), odds))
  }

  /** The score says how much more the price pays than the field's: one and the edge times the
      field's price, with its assumed margin taken out, is the price. */
  lemma EdgeExactly(odds: real, consensus: real, basis: EdgeBasis, overround: real, edge: real)
    ensures EdgeOf(odds, consensus, basis, overround) == Some(edge) <==>
              && odds > 1.0 && consensus > 1.0
              && match basis {
                 case Relative => (1.0 + edge) * consensus == odds
                 case Ev => overround >= 0.0 && (1.0 + edge) * (consensus * (1.0 + overround)) == odds
                 }
  {
    if odds > 1.0 && consensus > 1.0 {
      if basis == Relative {
        QuotientExactly(odds, consensus, 1.0 + edge);
      } else if overround >= 0.0 {
        TimesSign(consensus, 1.0 + overround);
        assert Times(consensus, 1.0 + overround) == consensus * (1.0 + overround);
        FairProbIs(consensus, overround, Inverse(consensus));
        InverseIs(consensus);
        InverseIs(1.0 + overround);
        InverseOfProduct(consensus, 1.0 + overround);
        QuotientIsTimes(odds, consensus * (1.0 + overround));
        TimesSwap(odds, FairProbability(consensus, overround));
        QuotientExactly(odds, consensus * (1.0 + overround), 1.0 + edge);
      }
    }
  }

  lemma InverseOfProduct(x: real, y: real)
    requires x > 0.0 && y > 0.0 && x * y > 0.0
    ensures Inverse(x * y) == Times(Inverse(x), Inverse(y))
  {
    InverseIs(x);
    InverseIs(y);
    assert (x * y) * Times(Inverse(x), Inverse(y)) == Times(x, Inverse(x)) * Times(y, Inverse(y));
    QuotientIs(1.0, x * y, Times(Inverse(x), Inverse(y)));
  }

  /** How much more the price pays than the field's. */
  function Premium(odds: real, consensus: real): real
    requires consensus != 0.0
  {
    odds / consensus - 1.0
  }

  function ExpectedValue(prob: real, odds: real): real {
    prob * odds - 1.0
  }

  /** The field's implied probability with the assumed margin taken out. */
  function FairProbability(consensus: real, overround: real): real
    requires consensus > 0.0 && overround >= 0.0
  {
    Inverse(consensus) / (1.0 + overround)
  }

  /** The factor that the basis puts on every book's price alike. */
  function Weight(basis: EdgeBasis, overround: real): real
    requires basis == Relative || overround >= 0.0
  {
    if basis == Relative then 1.0 else Inverse(1.0 + overround)
  }

  /** What the edge is: odds times the field's implied probability times a factor that is
      the same for every book, less one. */
  lemma EdgeIsProduct(odds: real, p: real, c: real, basis: EdgeBasis, overround: real)
    requires odds > 1.0 && p > 0.0 && c == Inverse(p) && c > 1.0
    requires basis == Relative || overround >= 0.0
    ensures EdgeOf(odds, c, basis, overround) == Some(Product(odds, p, Weight(basis, overround)) - 1.0)
  {
    if basis == Relative {
      RelativeEdge(odds, p, c);
    } else {
      InverseTwice(p);
      EvEdge(odds, p, c, overround);
    }
  }

  lemma RelativeEdge(odds: real, p: real, c: real)
    requires odds > 1.0 && p > 0.0 && c == Inverse(p) && c > 1.0
    ensures Premium(odds, c) == Product(odds, p, 1.0) - 1.0
  {
    QuotientByInverse(odds, p);
    TimesSwap(p, odds);
    TimesOne(Times(odds, p));
  }

  lemma EvEdge(odds: real, p: real, c: real, overround: real)
    requires odds > 1.0 && c > 1.0 && Inverse(c) == p && overround >= 0.0
    ensures EdgeOf(odds, c, Ev, overround) == Some(Product(odds, p, Inverse(1.0 + overround)) - 1.0)
  {
    FairProbIs(c, overround, p);
    ValueOf(FairProbability(c, overround), odds, p, Inverse(1.0 + overround));
  }

  lemma FairProbIs(c: real, overround: real, p: real)
    requires c > 1.0 && Inverse(c) == p && overround >= 0.0
    ensures FairProbability(c, overround) == Times(p, Inverse(1.0 + overround))
  {
    QuotientIsTimes(p, 1.0 + overround);
  }

  lemma ValueOf(f: real, odds: real, p: real, w: real)
    requires f == Times(p, w)
    ensures ExpectedValue(f, odds) == Product(odds, p, w) - 1.0
  {
    Reorder(p, w, odds);
  }

  function Product(a: real, b: real, c: real): real { a * b * c }

  lemma Reorder(p: real, w: real, odds: real)
    ensures p * w * odds == Product(odds, p, w)
  {
  }

  // ----- the board of one comparison -----

  /** One price per book: later quotes of a book replace earlier ones in place. */
  function ByBook(quotes: seq<Quote>): (board: seq<Quote>)
    requires forall i :: 0 <= i < |quotes| ==> Usable(quotes[i])
    ensures forall i :: 0 <= i < |board| ==> Usable(board[i])
    ensures forall i, j :: 0 <= i < j < |board| ==> board[i].book != board[j].book
  {
    if quotes == [] then []
    else
      var n := |quotes| - 1;
      Put(ByBook(quotes[..n]), quotes[n])
  }

  /** The board holds the last quote of each book. */
  lemma {:induction false} LastQuoteStands(quotes: seq<Quote>, i: nat)
    requires forall k :: 0 <= k < |quotes| ==> Usable(quotes[k])
    requires i < |quotes| && forall k :: i < k < |quotes| ==> quotes[k].book != quotes[i].book
    ensures exists k :: 0 <= k < |ByBook(quotes)| && ByBook(quotes)[k] == quotes[i]
    decreases |quotes|
  {
    var n := |quotes| - 1;
    var front := quotes[..n];
    assert ByBook(quotes) == Put(ByBook(front), quotes[n]);
    if i < n {
      LastQuoteStands(front, i);
      var k :| 0 <= k < |ByBook(front)| && ByBook(front)[k] == front[i];
      assert ByBook(quotes)[k] == quotes[i];
    }
  }

  function Put(board: seq<Quote>, q: Quote): (r: seq<Quote>)
    requires forall i, j :: 0 <= i < j < |board| ==> board[i].book != board[j].book
    ensures forall i, j :: 0 <= i < j < |r| ==> r[i].book != r[j].book
    ensures |board| <= |r| <= |board| + 1
    ensures forall i :: 0 <= i < |board| ==>
              r[i].book == board[i].book && r[i] == if board[i].book == q.book then q else board[i]
    ensures exists i :: 0 <= i < |r| && r[i] == q
    ensures |r| > |board| ==> r[|board|] == q
  {
    var at := PositionOf(board, q.book);
    if at < |board| then
      var r := board[at := q];
      assert r[at] == q;
      r
    else
      assert (board + [q])[|board|] == q;
      board + [q]
  }

  function PositionOf(board: seq<Quote>, book: string): (at: nat)
    ensures at <= |board|
    ensures at < |board| ==> board[at].book == book
    ensures forall i :: 0 <= i < at ==> board[i].book != book
  {
    if board == [] || board[0].book == book then 0 else PositionOf(board[1..], book) + 1
  }

  ghost predicate Board(board: seq<Quote>) {
    && (forall i :: 0 <= i < |board| ==> Usable(board[i]))
    && forall i, j :: 0 <= i < j < |board| ==> board[i].book != board[j].book
  }

  function OddsOf(board: seq<Quote>): (odds: seq<real>)
    requires forall i :: 0 <= i < |board| ==> Usable(board[i])
    ensures |odds| == |board|
    ensures forall i :: 0 <= i < |board| ==> Usable(board[i]) && odds[i] == board[i].odds > 1.0
  {
    seq(|board|, i requires 0 <= i < |board| && Usable(board[i]) => board[i].odds)
  }

  /** Book `i`'s price scored against the field without it. */
  function Score(board: seq<Quote>, i: nat, basis: EdgeBasis, overround: real): (c: Option<Candidate>)
    requires (forall k :: 0 <= k < |board| ==> Usable(board[k])) && i < |board|
    ensures c.Some? ==> Usable(board[i]) && c.value.book == board[i].book && c.value.odds == board[i].odds
    ensures c.Some? ==> c.value.field == |board| - 1 && c.value.consensus > 1.0
    ensures c.Some? ==> EdgeOf(c.value.odds, c.value.consensus, basis, overround) == Some(c.value.edge)
    ensures c.None? <==> |board| < MIN_BOOKS_FOR_CONSENSUS || (basis == Ev && overround < 0.0)
  {
    var others := Without(OddsOf(board), i);
    var consensus := ConsensusOf(others);
    if consensus.None? then None
    else
      var edge := EdgeOf(board[i].odds, consensus.value, basis, overround);
      if edge.None? then None
      else Some(Candidate(board[i].book, board[i].odds, consensus.value, edge.value, |others|))
  }

  /** The price of the `k`-th of the other books. */
  function Other(board: seq<Quote>, i: nat, k: nat): real
    requires (forall j :: 0 <= j < |board| ==> Usable(board[j])) && i < |board| && k < |board| - 1
  {
    var at := if k < i then k else k + 1;
    assert Usable(board[at]);
    board[at].odds
  }

  /** What a candidate is scored against: its field's price is the inverse of the median of
      the other books' inverse prices. */
  lemma ConsensusIsMedian(board: seq<Quote>, i: nat, basis: EdgeBasis, overround: real, others: seq<real>, m: real)
    requires (forall k :: 0 <= k < |board| ==> Usable(board[k])) && i < |board|
    requires Score(board, i, basis, overround).Some?
    requires |others| == |board| - 1 && forall k :: 0 <= k < |others| ==> others[k] * Other(board, i, k) == 1.0
    requires IsMedian(others, m)
    ensures Score(board, i, basis, overround).value.consensus * m == 1.0
  {
    var odds := Without(OddsOf(board), i);
    OthersAreImplied(board, i, others);
    MedianExactly(others, m);
    ImpliedWithin(odds);
    hide Median, IsMedian, Without, OddsOf, ImpliedAll, EdgeOf;
    InverseIs(m);
    TimesSwap(m, Inverse(m));
    assert Times(Inverse(m), m) == Inverse(m) * m;
  }

  lemma OthersAreImplied(board: seq<Quote>, i: nat, others: seq<real>)
    requires (forall k :: 0 <= k < |board| ==> Usable(board[k])) && i < |board|
    requires |others| == |board| - 1 && forall k :: 0 <= k < |others| ==> others[k] * Other(board, i, k) == 1.0
    ensures others == ImpliedAll(Without(OddsOf(board), i))
  {
    var odds := Without(OddsOf(board), i);
    forall k | 0 <= k < |others| ensures others[k] == Inverse(odds[k]) {
      assert odds[k] == Other(board, i, k);
      InverseUnique(odds[k], others[k]);
    }
  }

  /** Two books of one board are scored in the order of their prices, though each against
      another median. */
  lemma ScoresFollowOdds(board: seq<Quote>, i: nat, j: nat, basis: EdgeBasis, overround: real)
    requires Board(board) && i < |board| && j < |board|
    requires Score(board, i, basis, overround).Some? && Score(board, j, basis, overround).Some?
    ensures Score(board, i, basis, overround).value.edge >= Score(board, j, basis, overround).value.edge
            <==> board[i].odds >= board[j].odds
  {
    if board[i].odds >= board[j].odds {
      BetterPriceScoresHigher(board, i, j, basis, overround);
    } else {
      BetterPriceScoresHigher(board, j, i, basis, overround);
    }
  }

  lemma BetterPriceScoresHigher(board: seq<Quote>, i: nat, j: nat, basis: EdgeBasis, overround: real)
    requires Board(board) && i < |board| && j < |board| && |board| >= 2
    requires basis == Relative || overround >= 0.0
    requires board[i].odds >= board[j].odds
    ensures var x, y := Score(board, i, basis, overround).value.edge, Score(board, j, basis, overround).value.edge;
            x >= y && (board[i].odds > board[j].odds ==> x > y)
  {
    var odds := OddsOf(board);
    var p := ImpliedAll(odds);
    EdgeOfBoard(board, i, basis, overround);
    EdgeOfBoard(board, j, basis, overround);
    InverseOrder(odds[i], odds[j]);
    LeaveOneOut(p, i, j);
    WeightPositive(basis, overround);
    ProductOrder(odds[i], Median(Without(p, i)), odds[j], Median(Without(p, j)), Weight(basis, overround));
  }

  lemma EdgeOfBoard(board: seq<Quote>, i: nat, basis: EdgeBasis, overround: real)
    requires Board(board) && i < |board| && |board| >= 2
    requires basis == Relative || overround >= 0.0
    ensures var m := Median(Without(ImpliedAll(OddsOf(board)), i));
            && m > 0.0
            && Score(board, i, basis, overround).value.edge ==
               Product(board[i].odds, m, Weight(basis, overround)) - 1.0
  {
    var odds := OddsOf(board);
    var others := Without(odds, i);
    assert ImpliedAll(others) == Without(ImpliedAll(odds), i);
    ImpliedWithin(others);
    EdgeIsProduct(board[i].odds, Median(ImpliedAll(others)), ConsensusOf(others).value, basis, overround);
  }

  lemma WeightPositive(basis: EdgeBasis, overround: real)
    requires basis == Relative || overround >= 0.0
    ensures Weight(basis, overround) > 0.0
  {
    if basis == Ev {
      InverseIs(1.0 + overround);
    }
  }

  lemma ProductOrder(a: real, m: real, b: real, n: real, w: real)
    requires a >= b > 0.0 && m >= n > 0.0 && w > 0.0
    ensures Product(a, m, w) >= Product(b, n, w)
    ensures a > b ==> Product(a, m, w) > Product(b, n, w)
  {
    assert a * m >= b * m >= b * n;
    TimesOrder(w, Times(a, m), Times(b, n));
  }

  // ----- candidates, best first -----

  predicate EdgeDescending(cs: seq<Candidate>) {
    forall i, j :: 0 <= i < j < |cs| ==> cs[i].edge >= cs[j].edge
  }

  /** Best edge first, candidates with equal edges in their given order. */
  function InsertByEdge(cs: seq<Candidate>, c: Candidate): (r: seq<Candidate>)
    ensures multiset(r) == multiset(cs) + multiset{c} && |r| == |cs| + 1
  {
    if cs == [] then [c]
    else if c.edge > cs[|cs| - 1].edge then
      assert cs == cs[..|cs| - 1] + [cs[|cs| - 1]];
      InsertByEdge(cs[..|cs| - 1], c) + [cs[|cs| - 1]]
    else cs + [c]
  }

  /** The candidates with that edge, in order. */
  ghost function OfEdge(cs: seq<Candidate>, edge: real): seq<Candidate> {
    if cs == [] then []
    else OfEdge(cs[..|cs| - 1], edge) + if cs[|cs| - 1].edge == edge then [cs[|cs| - 1]] else []
  }

  /** A new candidate comes after those with its edge. */
  lemma {:induction false} InsertIsStable(cs: seq<Candidate>, c: Candidate, edge: real)
    requires EdgeDescending(cs)
    ensures OfEdge(InsertByEdge(cs, c), edge) == OfEdge(cs, edge) + if c.edge == edge then [c] else []
    decreases |cs|
  {
    assert (cs + [c])[..|cs|] == cs;
    if cs == [] {
      assert [c][..0] == [];
    } else if c.edge > cs[|cs| - 1].edge {
      var front, last := cs[..|cs| - 1], cs[|cs| - 1];
      InsertIsStable(front, c, edge);
      assert (InsertByEdge(front, c) + [last])[..|cs|] == InsertByEdge(front, c);
      if c.edge == edge {
        NoneOfEdge(cs, edge);
      }
    }
  }

  lemma NoneOfEdge(cs: seq<Candidate>, edge: real)
    requires cs != [] && cs[|cs| - 1].edge != edge
    ensures OfEdge(cs, edge) == OfEdge(cs[..|cs| - 1], edge)
  {
  }

  lemma {:induction false} InsertKeepsOrder(cs: seq<Candidate>, c: Candidate)
    requires EdgeDescending(cs)
    ensures EdgeDescending(InsertByEdge(cs, c))
    decreases |cs|
  {
    if cs != [] && c.edge > cs[|cs| - 1].edge {
      var front, last := cs[..|cs| - 1], cs[|cs| - 1];
      InsertKeepsOrder(front, c);
      var r := InsertByEdge(front, c);
      forall i | 0 <= i < |r| ensures r[i].edge >= last.edge {
        assert r[i] in multiset(r);
        assert r[i] in front || r[i] == c;
      }
    }
  }

  function SortByEdge(cs: seq<Candidate>): (r: seq<Candidate>)
    ensures multiset(r) == multiset(cs) && EdgeDescending(r)
    ensures forall edge :: OfEdge(r, edge) == OfEdge(cs, edge)
  {
    if cs == [] then []
    else
      var before := SortByEdge(cs[..|cs| - 1]);
      InsertKeepsOrder(before, cs[|cs| - 1]);
      SortIsStable(before, cs);
      assert cs == cs[..|cs| - 1] + [cs[|cs| - 1]];
      InsertByEdge(before, cs[|cs| - 1])
  }

  lemma SortIsStable(before: seq<Candidate>, cs: seq<Candidate>)
    requires cs != [] && EdgeDescending(before)
    requires forall edge :: OfEdge(before, edge) == OfEdge(cs[..|cs| - 1], edge)
    ensures forall edge :: OfEdge(InsertByEdge(before, cs[|cs| - 1]), edge) == OfEdge(cs, edge)
  {
    forall edge ensures OfEdge(InsertByEdge(before, cs[|cs| - 1]), edge) == OfEdge(cs, edge) {
      InsertIsStable(before, cs[|cs| - 1], edge);
    }
  }

  function UsableQuotes(quotes: seq<Quote>): (r: seq<Quote>)
    ensures forall q :: q in r <==> q in quotes && Usable(q)
  {
    if quotes == [] then []
    else if Usable(quotes[0]) then [quotes[0]] + UsableQuotes(quotes[1..])
    else UsableQuotes(quotes[1..])
  }

  predicate Permitted(books: Option<set<string>>, book: string) {
    books.None? || book in books.value
  }

  /** `c` is the score of one of the first `n` books of the board, and may be acted on. */
  ghost predicate ScoredUpTo(board: seq<Quote>, n: nat, c: Candidate, basis: EdgeBasis, overround: real,
                             books: Option<set<string>>)
    requires n <= |board| && forall k :: 0 <= k < |board| ==> Usable(board[k])
  {
    exists i :: 0 <= i < n && (books.Some? ==> board[i].book in books.value)
                && Score(board, i, basis, overround) == Some(c)
  }

  /** The candidates of a board: every permitted book that could be scored, once, and
      nothing else; best edge first, which is best price first, and in board order where equal. */
  ghost predicate BestFirst(board: seq<Quote>, sorted: seq<Candidate>, basis: EdgeBasis, overround: real,
                            books: Option<set<string>>)
    requires forall k :: 0 <= k < |board| ==> Usable(board[k])
  {
    && (forall c :: c in sorted <==> ScoredUpTo(board, |board|, c, basis, overround, books))
    && EdgeDescending(sorted)
    && OddsDescending(sorted)
    && OncePerBook(sorted)
    && forall edge :: OfEdge(sorted, edge) == OfEdge(ScoresUpTo(board, |board|, basis, overround, books), edge)
  }

  ghost predicate OddsDescending(cs: seq<Candidate>) {
    forall i, j :: 0 <= i < j < |cs| ==> cs[i].odds >= cs[j].odds
  }

  ghost predicate OncePerBook(cs: seq<Candidate>) {
    forall i, j :: 0 <= i < j < |cs| ==> cs[i].book != cs[j].book
  }

  /** The board whose books are scored; empty if too few quotes can take part. */
  function BoardOf(quotes: seq<Quote>, minBooks: nat): (board: seq<Quote>)
    ensures Board(board)
  {
    var usable := UsableQuotes(quotes);
    if |usable| < minBooks then [] else ByBook(usable)
  }

  /** The quote at `i` takes part, and no later quote of its book does. */
  ghost predicate Stands(quotes: seq<Quote>, i: nat)
    requires i < |quotes|
  {
    && quotes[i].Priced? && 1.0 < quotes[i].odds < 1001.0
    && forall j :: i < j < |quotes| && quotes[j].Priced? && 1.0 < quotes[j].odds < 1001.0 ==>
         quotes[j].book != quotes[i].book
  }

  ghost function UsableAt(quotes: seq<Quote>): set<nat> {
    set i: nat | i < |quotes| && quotes[i].Priced? && 1.0 < quotes[i].odds < 1001.0
  }

  lemma {:induction false} UsableSplit(a: seq<Quote>, q: Quote)
    ensures UsableQuotes(a + [q]) == UsableQuotes(a) + if Usable(q) then [q] else []
    decreases |a|
  {
    if a == [] {
      assert ([] + [q])[1..] == [] && UsableQuotes([]) == [];
    } else {
      assert (a + [q])[1..] == a[1..] + [q];
      UsableSplit(a[1..], q);
    }
  }

  lemma {:induction false} UsableCount(quotes: seq<Quote>)
    ensures |UsableQuotes(quotes)| == |UsableAt(quotes)|
    decreases |quotes|
  {
    if quotes == [] {
      assert UsableAt(quotes) == {};
    } else {
      hide UsableQuotes, UsableAt;
      var n := |quotes| - 1;
      assert quotes == quotes[..n] + [quotes[n]];
      UsableCount(quotes[..n]);
      UsableSplit(quotes[..n], quotes[n]);
      UsableAtSplit(quotes[..n], quotes[n]);
    }
  }

  lemma UsableAtSplit(a: seq<Quote>, q: Quote)
    ensures |UsableAt(a + [q])| == |UsableAt(a)| + if Usable(q) then 1 else 0
  {
    UsableAtIs(a, q);
    hide UsableAt, Usable;
  }

  lemma UsableAtIs(a: seq<Quote>, q: Quote)
    ensures UsableAt(a + [q]) == UsableAt(a) + if Usable(q) then {|a|} else {}
    ensures |a| !in UsableAt(a)
  {
    var all := a + [q];
    assert all[|a|] == q;
    forall i: nat ensures i in UsableAt(all) <==> i in UsableAt(a) || (i == |a| && Usable(q)) {
      assert i < |a| ==> all[i] == a[i];
    }
  }

  /** `q` is a quote that stands. */
  ghost predicate Standing(quotes: seq<Quote>, q: Quote) {
    exists i :: 0 <= i < |quotes| && Stands(quotes, i) && quotes[i] == q
  }

  lemma {:induction false} StandingQuotes(quotes: seq<Quote>)
    ensures forall q :: q in ByBook(UsableQuotes(quotes)) <==> Standing(quotes, q)
    decreases |quotes|
  {
    if quotes != [] {
      hide ByBook, UsableQuotes, Standing, Usable;
      var n := |quotes| - 1;
      var front, q := quotes[..n], quotes[n];
      assert quotes == front + [q];
      StandingQuotes(front);
      UsableSplit(front, q);
      ByBookSplit(UsableQuotes(front), q);
      forall x ensures x in ByBook(UsableQuotes(quotes)) <==> Standing(quotes, x) {
        StandingSplit(front, q, x);
        if Usable(q) {
          InPut(ByBook(UsableQuotes(front)), q, x);
        }
      }
    }
  }

  lemma ByBookSplit(usable: seq<Quote>, q: Quote)
    requires forall i :: 0 <= i < |usable| ==> Usable(usable[i])
    ensures usable + [] == usable
    ensures Usable(q) ==> ByBook(usable + [q]) == Put(ByBook(usable), q)
  {
    assert (usable + [q])[..|usable|] == usable;
  }

  lemma StandingSplit(front: seq<Quote>, q: Quote, x: Quote)
    ensures Usable(q) ==> (Standing(front + [q], x) <==> x == q || (Standing(front, x) && x.book != q.book))
    ensures !Usable(q) ==> (Standing(front + [q], x) <==> Standing(front, x))
  {
    hide Stands;
    var all := front + [q];
    assert all[|front|] == q;
    forall i: nat | i < |front|
      ensures Stands(all, i) <==> Stands(front, i) && (Usable(q) ==> front[i].book != q.book)
    {
      LaterQuote(front, q, i);
    }
    LastStands(front, q);
    if Standing(all, x) {
      var i :| 0 <= i < |all| && Stands(all, i) && all[i] == x;
      assert i < |front| ==> all[i] == front[i];
    }
    if Standing(front, x) && (Usable(q) ==> x.book != q.book) {
      var i :| 0 <= i < |front| && Stands(front, i) && front[i] == x;
      assert all[i] == front[i] && Stands(all, i);
    }
  }

  lemma LastStands(front: seq<Quote>, q: Quote)
    ensures Stands(front + [q], |front|) <==> Usable(q)
  {
  }

  lemma LaterQuote(front: seq<Quote>, q: Quote, i: nat)
    requires i < |front|
    ensures Stands(front + [q], i) <==> Stands(front, i) && (Usable(q) ==> front[i].book != q.book)
  {
    var all := front + [q];
    assert all[|front|] == q && forall j :: 0 <= j < |front| ==> all[j] == front[j];
  }

  lemma InPut(board: seq<Quote>, q: Quote, x: Quote)
    requires forall i, j :: 0 <= i < j < |board| ==> board[i].book != board[j].book
    ensures x in Put(board, q) <==> x == q || (x in board && x.book != q.book)
  {
    var r := Put(board, q);
    if x in board && x.book != q.book {
      var i :| 0 <= i < |board| && board[i] == x;
      assert r[i] == x;
    }
    if x in r {
      var i :| 0 <= i < |r| && r[i] == x;
      if i < |board| && board[i].book != q.book {
        assert x == board[i];
      }
    }
  }

  /** The board holds, if enough quotes take part, exactly the last quote of each book that
      does, and otherwise nothing. */
  lemma BoardExactly(quotes: seq<Quote>, minBooks: nat)
    ensures |UsableAt(quotes)| < minBooks ==> BoardOf(quotes, minBooks) == []
    ensures |UsableAt(quotes)| >= minBooks ==>
              forall q :: q in BoardOf(quotes, minBooks) <==>
                          exists i :: 0 <= i < |quotes| && Stands(quotes, i) && quotes[i] == q
  {
    hide Stands, UsableQuotes, ByBook, UsableAt;
    UsableCount(quotes);
    StandingQuotes(quotes);
  }

  /** The scores of the first `n` books of the board that may be acted on. */
  ghost function ScoresUpTo(board: seq<Quote>, n: nat, basis: EdgeBasis, overround: real, books: Option<set<string>>)
    : seq<Candidate>
    requires n <= |board| && forall k :: 0 <= k < |board| ==> Usable(board[k])
  {
    if n == 0 then []
    else
      var score := Score(board, n - 1, basis, overround);
      ScoresUpTo(board, n - 1, basis, overround, books)
      + if Permitted(books, board[n - 1].book) && score.Some? then [score.value] else []
  }

  lemma {:induction false} ScoresAreAll(board: seq<Quote>, n: nat, basis: EdgeBasis, overround: real,
                                        books: Option<set<string>>)
    requires n <= |board| && Board(board)
    ensures forall c :: c in ScoresUpTo(board, n, basis, overround, books) <==>
                          ScoredUpTo(board, n, c, basis, overround, books)
  {
    if n > 0 {
      hide Score, ScoredUpTo, Permitted, Usable;
      ScoresAreAll(board, n - 1, basis, overround, books);
      forall c ensures c in ScoresUpTo(board, n, basis, overround, books) <==>
                         ScoredUpTo(board, n, c, basis, overround, books)
      {
        ScoredStep(board, n, c, basis, overround, books);
      }
    }
  }

  lemma ScoredStep(board: seq<Quote>, n: nat, c: Candidate, basis: EdgeBasis, overround: real,
                   books: Option<set<string>>)
    requires 0 < n <= |board| && forall k :: 0 <= k < |board| ==> Usable(board[k])
    ensures ScoredUpTo(board, n, c, basis, overround, books) <==>
              || ScoredUpTo(board, n - 1, c, basis, overround, books)
              || (Permitted(books, board[n - 1].book) && Score(board, n - 1, basis, overround) == Some(c))
  {
  }

  lemma {:induction false} ScoresOncePerBook(board: seq<Quote>, n: nat, basis: EdgeBasis, overround: real,
                                             books: Option<set<string>>)
    requires n <= |board| && Board(board)
    ensures OncePerBook(ScoresUpTo(board, n, basis, overround, books))
  {
    if n > 0 {
      ScoresOncePerBook(board, n - 1, basis, overround, books);
      var before := ScoresUpTo(board, n - 1, basis, overround, books);
      ScoresAreAll(board, n - 1, basis, overround, books);
      forall a | 0 <= a < |before| ensures before[a].book != board[n - 1].book {
        assert ScoredUpTo(board, n - 1, before[a], basis, overround, books);
      }
    }
  }

  lemma PricesFollowEdges(board: seq<Quote>, sorted: seq<Candidate>, basis: EdgeBasis, overround: real,
                          books: Option<set<string>>)
    requires Board(board) && EdgeDescending(sorted)
    requires forall c :: c in sorted ==> ScoredUpTo(board, |board|, c, basis, overround, books)
    ensures OddsDescending(sorted)
  {
    forall i, j | 0 <= i < j < |sorted|
      ensures sorted[i].odds >= sorted[j].odds
    {
      assert sorted[i] in sorted && sorted[j] in sorted;
      var a :| 0 <= a < |board| && Score(board, a, basis, overround) == Some(sorted[i]);
      var b :| 0 <= b < |board| && Score(board, b, basis, overround) == Some(sorted[j]);
      ScoresFollowOdds(board, a, b, basis, overround);
    }
  }

  lemma SortedScores(board: seq<Quote>, out: seq<Candidate>, basis: EdgeBasis, overround: real,
                     books: Option<set<string>>)
    requires Board(board) && out == ScoresUpTo(board, |board|, basis, overround, books)
    ensures BestFirst(board, SortByEdge(out), basis, overround, books)
  {
    ScoresAreAll(board, |board|, basis, overround, books);
    ScoresOncePerBook(board, |board|, basis, overround, books);
    var sorted := SortByEdge(out);
    forall c ensures c in sorted <==> c in out {
      assert c in sorted <==> c in multiset(sorted);
      assert c in out <==> c in multiset(out);
    }
    PricesFollowEdges(board, sorted, basis, overround, books);
    DistinctBooks(out, sorted);
  }

  /** `candidates_from_comparison`. */
  method CandidatesFromComparison(quotes: seq<Quote>, basis: EdgeBasis, overround: real, minBooks: nat,
                                  books: Option<set<string>>)
    returns (sorted: seq<Candidate>)
    ensures BestFirst(BoardOf(quotes, minBooks), sorted, basis, overround, books)
  {
    hide Score, BoardOf, SortByEdge, BestFirst;
    var board := BoardOf(quotes, minBooks);
    var out: seq<Candidate> := [];
    for i := 0 to |board|
      invariant out == ScoresUpTo(board, i, basis, overround, books)
    {
      if Permitted(books, board[i].book) {
        var score := Score(board, i, basis, overround);
        if score.Some? {
          out := out + [score.value];
        }
      }
    }
    sorted := SortByEdge(out);
    SortedScores(board, out, basis, overround, books);
  }

  /** A rearrangement of candidates of distinct books has distinct books. */
  lemma DistinctBooks(out: seq<Candidate>, sorted: seq<Candidate>)
    requires multiset(sorted) == multiset(out)
    requires OncePerBook(out)
    ensures OncePerBook(sorted)
  {
    forall i, j | 0 <= i < j < |sorted|
      ensures sorted[i].book != sorted[j].book
    {
      if sorted[i].book == sorted[j].book {
        assert sorted[i] in multiset(sorted) && sorted[j] in multiset(sorted);
        assert sorted[i] in out && sorted[j] in out;
        assert sorted[i] == sorted[j];
        TwiceIn(sorted, i, j);
        OnceIn(out, sorted[i]);
      }
    }
  }

  lemma TwiceIn(s: seq<Candidate>, i: nat, j: nat)
    requires i < j < |s| && s[i] == s[j]
    ensures multiset(s)[s[i]] >= 2
  {
    assert s == s[..i] + [s[i]] + s[i + 1..j] + [s[j]] + s[j + 1..];
  }

  lemma {:induction false} OnceIn(s: seq<Candidate>, c: Candidate)
    requires OncePerBook(s)
    ensures multiset(s)[c] <= 1
    decreases |s|
  {
    if s != [] {
      assert s == [s[0]] + s[1..];
      OnceIn(s[1..], c);
      if c == s[0] {
        assert c !in s[1..];
      }
    }
  }

  /** The candidate acted on is the first: no permitted book of the board pays more. */
  lemma FirstPaysMost(board: seq<Quote>, sorted: seq<Candidate>, basis: EdgeBasis, overround: real,
                      books: Option<set<string>>, i: nat)
    requires Board(board) && BestFirst(board, sorted, basis, overround, books)
    requires i < |board| && Permitted(books, board[i].book)
    requires |board| >= MIN_BOOKS_FOR_CONSENSUS && (basis == Relative || overround >= 0.0)
    ensures sorted != [] && sorted[0].odds >= board[i].odds
  {
    var c := Score(board, i, basis, overround).value;
    assert ScoredUpTo(board, |board|, c, basis, overround, books);
    assert c in sorted;
  }
}
