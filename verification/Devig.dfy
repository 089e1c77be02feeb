/** Removing a bookmaker's margin (`quant/devig.py`): the piecewise overround curve, its
    inverse, and what a de-vigged market is. */
module Devig {
  import opened Reals

  datatype OverroundCurve = OverroundCurve(minMargin: real, maxMargin: real, lowBreak: real, highBreak: real) {
    /** What the constructor insists on. */
    predicate Valid() {
      && 0.0 <= minMargin <= maxMargin
      && 0.0 < lowBreak < highBreak < 1.0
      && Ramp() < 1.0 - highBreak
    }

    function Ramp(): real { maxMargin - minMargin }
  }

  datatype Error = OutOfDomain | TooFewSelections | QuoteBelowMinimum | SumsUnderOne

  datatype Result<T> = Ok(value: T) | Err(error: Error)

  const TINY := 0.000000000001
  const MIN_QUOTE := 1.01

  /** The documented shape: a fair probability with its margin loaded on. */
  function Marked(c: OverroundCurve, fair: real): real
    requires c.Valid()
  {
    if fair < c.lowBreak then fair + c.minMargin + LowLoad(c, fair)
    else if fair <= c.highBreak then fair + c.maxMargin
    else fair + c.maxMargin - HighRelief(c, fair)
  }

  /** The margin that a longshot adds to the floor, in proportion to its probability. */
  function LowLoad(c: OverroundCurve, fair: real): real
    requires c.Valid()
  {
    c.Ramp() * fair / c.lowBreak
  }

  /** The margin that a favourite has no room for. */
  function HighRelief(c: OverroundCurve, fair: real): real
    requires c.Valid()
  {
    c.Ramp() * (fair - c.highBreak) / (1.0 - c.highBreak)
  }

  /** The code's three pieces, from the smallest probability it transforms. */
  function Shape(c: OverroundCurve, marked: real): real
    requires c.Valid()
  {
    if marked < c.lowBreak + c.maxMargin then AtLeastZero(LongshotPiece(c, marked))
    else if marked <= c.highBreak + c.maxMargin then marked - c.maxMargin
    else FavouritePiece(c, marked)
  }

  function LongshotPiece(c: OverroundCurve, marked: real): real
    requires c.Valid()
  {
    Over(Times(marked - c.minMargin, c.lowBreak), c.lowBreak + c.Ramp())
  }

  function FavouritePiece(c: OverroundCurve, marked: real): real
    requires c.Valid()
  {
    Over(Times(marked - c.minMargin, 1.0 - c.highBreak) - c.Ramp(), 1.0 - c.highBreak - c.Ramp())
  }

  function AtLeastZero(x: real): real { if x > 0.0 then x else 0.0 }

  /** `OverroundCurve.remove` */
  function Remove(c: OverroundCurve, marked: real): Result<real>
    requires c.Valid()
  {
    if !(0.0 <= marked <= 1.0) then Err(OutOfDomain)
    else Ok(if marked < TINY then marked else Shape(c, marked))
  }

  // ----- the pieces as lines -----

  function LowSlope(c: OverroundCurve): real
    requires c.Valid()
  {
    c.lowBreak / (c.lowBreak + c.Ramp())
  }

  function HighSlope(c: OverroundCurve): real
    requires c.Valid()
  {
    (1.0 - c.highBreak) / (1.0 - c.highBreak - c.Ramp())
  }

  lemma Slopes(c: OverroundCurve)
    requires c.Valid()
    ensures 0.0 < LowSlope(c) <= 1.0 <= HighSlope(c)
    ensures Times(LowSlope(c), c.lowBreak + c.Ramp()) == c.lowBreak
    ensures Times(HighSlope(c), 1.0 - c.highBreak - c.Ramp()) == 1.0 - c.highBreak
  {
    hide Times;
    QuotientTimes(c.lowBreak, c.lowBreak + c.Ramp());
    TimesSwap(c.lowBreak + c.Ramp(), LowSlope(c));
    QuotientTimes(1.0 - c.highBreak, 1.0 - c.highBreak - c.Ramp());
    TimesSwap(1.0 - c.highBreak - c.Ramp(), HighSlope(c));
  }

  /** The lines that the outer pieces follow; they meet the body at the breaks. */
  function LowLine(c: OverroundCurve, marked: real): real
    requires c.Valid()
  {
    Times(LowSlope(c), marked - c.minMargin)
  }

  function HighLine(c: OverroundCurve, marked: real): real
    requires c.Valid()
  {
    c.highBreak + Times(HighSlope(c), marked - c.maxMargin - c.highBreak)
  }

  lemma LowQuotient(d: real, l: real, r: real, k: real)
    requires l + r > 0.0 && Times(k, l + r) == l
    ensures Over(Times(d, l), l + r) == Times(k, d)
  {
    assert d * l == Times(l + r, Times(k, d)) by {
      assert (l + r) * (k * d) == d * (k * (l + r));
    }
    QuotientIs(d * l, l + r, Times(k, d));
  }

  /** `t` is the tail above the body, `e` what the mark has above it. */
  lemma HighQuotient(x: real, t: real, r: real, k: real, e: real)
    requires t - r > 0.0 && Times(k, t - r) == t && x == e + r + (1.0 - t)
    ensures Over(Times(x, t) - r, t - r) == (1.0 - t) + Times(k, e)
  {
    assert x * t - r == Times(t - r, (1.0 - t) + Times(k, e)) by {
      assert (t - r) * ((1.0 - t) + k * e) == (t - r) * (1.0 - t) + e * (k * (t - r));
      assert x * t == e * t + r * t + (1.0 - t) * t;
    }
    QuotientIs(x * t - r, t - r, (1.0 - t) + Times(k, e));
  }

  lemma OuterPieces(c: OverroundCurve, m: real)
    requires c.Valid()
    ensures LongshotPiece(c, m) == LowLine(c, m) && FavouritePiece(c, m) == HighLine(c, m)
  {
    hide Times, Over, LowSlope, HighSlope;
    Slopes(c);
    var low, tail, above, r := m - c.minMargin, 1.0 - c.highBreak, m - c.maxMargin - c.highBreak, c.Ramp();
    assert low == above + r + (1.0 - tail);
    LowQuotient(low, c.lowBreak, r, LowSlope(c));
    HighQuotient(low, tail, r, HighSlope(c), above);
  }

  /** The pieces as lines that meet at both breaks. */
  lemma Pieces(c: OverroundCurve, m: real)
    requires c.Valid()
    ensures m <= c.lowBreak + c.maxMargin ==> Shape(c, m) == AtLeastZero(LowLine(c, m))
    ensures c.lowBreak + c.maxMargin <= m <= c.highBreak + c.maxMargin ==> Shape(c, m) == m - c.maxMargin
    ensures c.highBreak + c.maxMargin <= m ==> Shape(c, m) == HighLine(c, m)
  {
    hide Times, LowSlope, HighSlope, LongshotPiece, FavouritePiece;
    Slopes(c);
    OuterPieces(c, m);
    TimesSign(HighSlope(c), m - c.maxMargin - c.highBreak);
    if m == c.lowBreak + c.maxMargin {
      assert m - c.minMargin == c.lowBreak + c.Ramp();
    }
  }

  /** Between two marks the result grows by no more than the steepest piece allows, and it
      grows strictly once it is positive. */
  predicate Between(c: OverroundCurve, a: real, b: real)
    requires c.Valid()
  {
    && 0.0 <= Shape(c, b) - Shape(c, a) <= Times(HighSlope(c), b - a)
    && (a < b && Shape(c, b) > 0.0 ==> Shape(c, a) < Shape(c, b))
  }

  lemma LowGrowth(c: OverroundCurve, a: real, b: real)
    requires c.Valid() && a <= b <= c.lowBreak + c.maxMargin
    ensures Between(c, a, b)
  {
    hide Times, Shape, LowSlope, HighSlope;
    Slopes(c);
    Pieces(c, a);
    Pieces(c, b);
    LineGrowth(LowSlope(c), HighSlope(c), a - c.minMargin, b - c.minMargin, b - a);
  }

  lemma BodyGrowth(c: OverroundCurve, a: real, b: real)
    requires c.Valid() && c.lowBreak + c.maxMargin <= a <= b <= c.highBreak + c.maxMargin
    ensures Between(c, a, b)
  {
    hide Times, Shape, HighSlope;
    Slopes(c);
    Pieces(c, a);
    Pieces(c, b);
    TimesUnit(HighSlope(c), b - a);
  }

  lemma HighGrowth(c: OverroundCurve, a: real, b: real)
    requires c.Valid() && c.highBreak + c.maxMargin <= a <= b
    ensures Between(c, a, b)
  {
    hide Times, Shape, HighSlope;
    Slopes(c);
    Pieces(c, a);
    Pieces(c, b);
    LineGrowth(HighSlope(c), HighSlope(c), a - c.maxMargin - c.highBreak, b - c.maxMargin - c.highBreak, b - a);
  }

  lemma Joined(c: OverroundCurve, a: real, b: real, d: real)
    requires c.Valid() && a <= b <= d && Between(c, a, b) && Between(c, b, d)
    ensures Between(c, a, d)
  {
    hide Times, Shape, HighSlope;
    TimesAdd(HighSlope(c), b - a, d - b, d - a);
  }

  lemma Growth(c: OverroundCurve, a: real, b: real)
    requires c.Valid() && a <= b
    ensures Between(c, a, b)
  {
    hide Between;
    var low := c.lowBreak + c.maxMargin;
    if b <= low {
      LowGrowth(c, a, b);
    } else if a < low {
      LowGrowth(c, a, low);
      FromBody(c, low, b);
      Joined(c, a, low, b);
    } else {
      FromBody(c, a, b);
    }
  }

  lemma FromBody(c: OverroundCurve, a: real, b: real)
    requires c.Valid() && c.lowBreak + c.maxMargin <= a <= b
    ensures Between(c, a, b)
  {
    hide Between;
    var high := c.highBreak + c.maxMargin;
    if b <= high {
      BodyGrowth(c, a, b);
    } else if a < high {
      BodyGrowth(c, a, high);
      HighGrowth(c, high, b);
      Joined(c, a, high, b);
    } else {
      HighGrowth(c, a, b);
    }
  }

  /** From the smallest transformed mark on, `Remove` is non-decreasing, strictly so where
      it is positive, and nowhere jumps: neither at the breaks nor between them does it
      grow faster than the steepest piece. */
  lemma RemoveIsMonotoneAndContinuous(c: OverroundCurve, a: real, b: real)
    requires c.Valid() && TINY <= a <= b <= 1.0
    ensures var fa, fb := Remove(c, a).value, Remove(c, b).value;
            && 0.0 <= fb - fa <= HighSlope(c) * (b - a)
            && (a < b && fb > 0.0 ==> fa < fb)
  {
    hide Shape, HighSlope;
    Growth(c, a, b);
  }

  /** A fair probability is between nothing and the marked one. */
  lemma RemoveIsBounded(c: OverroundCurve, marked: real)
    requires c.Valid()
    ensures Remove(c, marked).Ok? <==> 0.0 <= marked <= 1.0
    ensures Remove(c, marked).Ok? ==> 0.0 <= Remove(c, marked).value <= marked
  {
    hide Times, Shape, LowSlope, HighSlope;
    if TINY <= marked <= 1.0 {
      var low, above := marked - c.minMargin, marked - c.maxMargin - c.highBreak;
      Slopes(c);
      Pieces(c, marked);
      TimesSign(LowSlope(c), low);
      if low >= 0.0 {
        TimesUnit(LowSlope(c), low);
      }
      if above >= 0.0 {
        SteepWithin(HighSlope(c), 1.0 - c.highBreak - c.Ramp(), c.Ramp(), above);
      }
    }
  }

  // ----- the round trips -----

  lemma LoadIs(c: OverroundCurve, fair: real)
    requires c.Valid()
    ensures Times(c.lowBreak, LowLoad(c, fair)) == Times(c.Ramp(), fair)
    ensures Times(1.0 - c.highBreak, HighRelief(c, fair)) == Times(c.Ramp(), fair - c.highBreak)
  {
    hide OverroundCurve.Ramp;
    QuotientTimes(c.Ramp() * fair, c.lowBreak);
    QuotientTimes(c.Ramp() * (fair - c.highBreak), 1.0 - c.highBreak);
  }

  lemma MarkedPieces(c: OverroundCurve, fair: real)
    requires c.Valid()
    ensures fair < c.lowBreak ==>
              Marked(c, fair) < c.lowBreak + c.maxMargin && LowLine(c, Marked(c, fair)) == fair
    ensures c.highBreak < fair ==>
              c.highBreak + c.maxMargin < Marked(c, fair) && HighLine(c, Marked(c, fair)) == fair
  {
    hide Times, LowSlope, HighSlope, LowLoad, HighRelief;
    Slopes(c);
    LoadIs(c, fair);
    if fair < c.lowBreak {
      var q := LowLoad(c, fair);
      Part(q, fair, c.Ramp(), c.lowBreak);
      LineOfSum(LowSlope(c), c.lowBreak, c.Ramp(), fair, q);
      assert Marked(c, fair) - c.minMargin == fair + q;
    } else if c.highBreak < fair {
      var g, q := fair - c.highBreak, HighRelief(c, fair);
      Part(q, g, c.Ramp(), 1.0 - c.highBreak);
      LineOfDifference(HighSlope(c), 1.0 - c.highBreak, c.Ramp(), g, q);
      assert Marked(c, fair) - c.maxMargin - c.highBreak == g - q;
    }
  }

  /** Marking undone: on every fair probability whose mark is a probability, `Remove`
      gives it back exactly when the mark is not tiny, or carries no margin. */
  lemma RemoveInvertsMarked(c: OverroundCurve, fair: real)
    requires c.Valid() && 0.0 <= fair <= 1.0 && Marked(c, fair) <= 1.0
    ensures Remove(c, Marked(c, fair)) == Ok(fair) <==>
              || Marked(c, fair) >= TINY
              || (c.minMargin == 0.0 && (fair == 0.0 || c.maxMargin == 0.0))
  {
    hide Shape, LowLine, HighLine, LowLoad, HighRelief;
    MarkedPieces(c, fair);
    Pieces(c, Marked(c, fair));
    MarginIs(c, fair);
  }

  /** There is no margin exactly where the curve has none, or at its ends if its floor is
      zero: a certainty carries just the floor. */
  lemma MarginIs(c: OverroundCurve, fair: real)
    requires c.Valid() && 0.0 <= fair <= 1.0
    ensures Marked(c, fair) >= fair
    ensures Marked(c, fair) == fair <==>
              c.minMargin == 0.0 && (fair == 0.0 || fair == 1.0 || c.maxMargin == 0.0)
    ensures fair == 1.0 ==> Marked(c, fair) == 1.0 + c.minMargin
  {
    hide Times, LowLoad, HighRelief;
    LoadIs(c, fair);
    if fair < c.lowBreak {
      Part(LowLoad(c, fair), fair, c.Ramp(), c.lowBreak);
    } else if c.highBreak < fair {
      Part(HighRelief(c, fair), fair - c.highBreak, c.Ramp(), 1.0 - c.highBreak);
    }
  }

  /** Removing undone: marking gives a mark back exactly when it is not below the margin
      floor. */
  lemma MarkedInvertsRemove(c: OverroundCurve, marked: real)
    requires c.Valid() && TINY <= marked <= 1.0
    ensures Marked(c, Remove(c, marked).value) == marked <==> marked >= c.minMargin
  {
    hide Times, Shape, LowSlope, LowLoad, HighRelief;
    if marked < c.minMargin {
      Slopes(c);
      Pieces(c, marked);
      TimesSign(LowSlope(c), marked - c.minMargin);
      MarkOfNothing(c);
    } else {
      MarkedOfShape(c, marked);
    }
  }

  lemma MarkOfNothing(c: OverroundCurve)
    requires c.Valid()
    ensures Marked(c, 0.0) == c.minMargin
  {
    hide Times, LowLoad, HighRelief;
    LoadIs(c, 0.0);
    Part(LowLoad(c, 0.0), 0.0, c.Ramp(), c.lowBreak);
  }

  lemma MarkedOfShape(c: OverroundCurve, m: real)
    requires c.Valid() && c.minMargin <= m
    ensures Marked(c, Shape(c, m)) == m
  {
    hide Times, LowSlope, HighSlope, Shape, LowLoad, HighRelief;
    Slopes(c);
    Pieces(c, m);
    if m < c.lowBreak + c.maxMargin {
      var d := m - c.minMargin;
      TimesSign(LowSlope(c), d);
      TimesOrder(LowSlope(c), d, c.lowBreak + c.Ramp());
      PartOfLine(LowSlope(c), c.lowBreak, c.Ramp(), d);
      LoadIs(c, LowLine(c, m));
      TimesOrder(c.lowBreak, LowLoad(c, LowLine(c, m)), d - LowLine(c, m));
    } else if m > c.highBreak + c.maxMargin {
      var e, tail := m - c.maxMargin - c.highBreak, 1.0 - c.highBreak;
      TimesSign(HighSlope(c), e);
      ReliefOfLine(HighSlope(c), tail, c.Ramp(), e);
      LoadIs(c, HighLine(c, m));
      assert HighLine(c, m) - c.highBreak == Times(HighSlope(c), e);
      TimesOrder(tail, HighRelief(c, HighLine(c, m)), Times(HighSlope(c), e) - e);
    }
  }

  lemma ReliefOfLine(k: real, l: real, r: real, e: real)
    requires Times(k, l - r) == l
    ensures Times(l, Times(k, e) - e) == Times(r, Times(k, e))
  {
    PartOfLine(k, l, 0.0 - r, e);
  }

  /** The documented promise that a mark never passes 1 holds for every probability exactly
      for the curves without a margin floor: a certainty is marked 1 plus the floor. */
  lemma MarksStayProbabilities(c: OverroundCurve)
    requires c.Valid()
    ensures (forall fair :: 0.0 <= fair <= 1.0 ==> Marked(c, fair) <= 1.0) <==> c.minMargin == 0.0
  {
    hide Marked;
    MarginIs(c, 1.0);
    if c.minMargin == 0.0 {
      forall fair | 0.0 <= fair <= 1.0 ensures Marked(c, fair) <= 1.0 {
        MarkedBelow(c, fair);
      }
    } else {
      assert 0.0 <= 1.0 <= 1.0 && Marked(c, 1.0) > 1.0;
    }
  }

  lemma MarkedBelow(c: OverroundCurve, fair: real)
    requires c.Valid() && c.minMargin == 0.0 && 0.0 <= fair <= 1.0
    ensures Marked(c, fair) <= 1.0
  {
    hide Times, HighSlope, LowLoad, HighRelief;
    MarkedPieces(c, fair);
    if c.highBreak < fair {
      Slopes(c);
      // the line takes what the mark has above the body to at most the tail, as it does the room
      TimesOrder(HighSlope(c), 1.0 - c.highBreak - c.Ramp(), Marked(c, fair) - c.maxMargin - c.highBreak);
    }
  }

  // ----- markets -----

  predicate Quoted(quotes: seq<real>) {
    forall i :: 0 <= i < |quotes| ==> quotes[i] >= MIN_QUOTE
  }

  /** `_implied` */
  function Implied(quotes: seq<real>): (r: Result<seq<real>>)
    ensures r.Ok? <==> |quotes| >= 2 && Quoted(quotes)
    ensures r.Ok? ==> |r.value| == |quotes| && forall i :: 0 <= i < |quotes| ==> r.value[i] == Inverse(quotes[i])
  {
    if |quotes| < 2 then Err(TooFewSelections)
    else if !Quoted(quotes) then Err(QuoteBelowMinimum)
    else Ok(seq(|quotes|, i requires 0 <= i < |quotes| => Inverse(quotes[i])))
  }

  function Share(p: real, total: real): real
    requires total != 0.0
  {
    p / total
  }

  function Normalised(ps: seq<real>): (r: seq<real>)
    requires Sum(ps) != 0.0
    ensures |r| == |ps| && forall i :: 0 <= i < |ps| ==> r[i] == Share(ps[i], Sum(ps))
  {
    seq(|ps|, i requires 0 <= i < |ps| => Share(ps[i], Sum(ps)))
  }

  /** `proportional_fair_probabilities` */
  function Proportional(quotes: seq<real>): Result<seq<real>> {
    var implied := Implied(quotes);
    if implied.Err? then implied
    else if Sum(implied.value) <= 1.0 then Err(SumsUnderOne)
    else Ok(Normalised(implied.value))
  }

  /** The margin off every selection, unless one of them is outside the curve's domain. */
  function RemoveAll(c: OverroundCurve, ps: seq<real>): (r: Result<seq<real>>)
    requires c.Valid()
    ensures r.Ok? <==> forall i :: 0 <= i < |ps| ==> Remove(c, ps[i]).Ok?
    ensures r.Ok? ==> |r.value| == |ps| && forall i :: 0 <= i < |ps| ==> Remove(c, ps[i]) == Ok(r.value[i])
    decreases |ps|
  {
    if ps == [] then Ok([])
    else
      var n := |ps| - 1;
      var front, last := RemoveAll(c, ps[..n]), Remove(c, ps[n]);
      if front.Err? then front
      else if last.Err? then Err(last.error)
      else Ok(front.value + [last.value])
  }

  predicate AllPositive(ps: seq<real>) {
    forall i :: 0 <= i < |ps| ==> ps[i] > 0.0
  }

  /** `piecewise_fair_probabilities` */
  function Piecewise(c: OverroundCurve, quotes: seq<real>): Result<seq<real>>
    requires c.Valid()
  {
    var implied := Implied(quotes);
    if implied.Err? then implied
    else if Sum(implied.value) <= 1.0 then Err(SumsUnderOne)
    else
      var fair := RemoveAll(c, implied.value);
      if fair.Err? then fair
      else if !AllPositive(fair.value) then Proportional(quotes)
      else
        PositiveSum(fair.value);
        Ok(Normalised(fair.value))
  }

  lemma {:induction false} PositiveSum(ps: seq<real>)
    requires AllPositive(ps)
    ensures ps != [] ==> Sum(ps) > 0.0
    ensures Sum(ps) >= 0.0
    decreases |ps|
  {
    if ps != [] {
      PositiveSum(ps[..|ps| - 1]);
    }
  }

  lemma {:induction false} SumOfShares(ps: seq<real>, qs: seq<real>, total: real)
    requires total > 0.0 && |qs| == |ps|
    requires forall i :: 0 <= i < |ps| ==> qs[i] == Share(ps[i], total)
    ensures Sum(qs) == Share(Sum(ps), total)
    decreases |ps|
  {
    if ps != [] {
      var n := |ps| - 1;
      SumOfShares(ps[..n], qs[..n], total);
      ShareAdds(Sum(ps[..n]), ps[n], total);
    }
  }

  lemma ShareAdds(a: real, b: real, total: real)
    requires total > 0.0
    ensures Share(a + b, total) == Share(a, total) + Share(b, total)
  {
  }

  lemma ShareOrder(a: real, b: real, total: real)
    requires total > 0.0
    ensures a < b <==> Share(a, total) < Share(b, total)
    ensures Share(total, total) == 1.0 && Share(0.0, total) == 0.0
  {
    hide Times;
    QuotientTimes(a, total);
    QuotientTimes(b, total);
    QuotientTimes(total, total);
    QuotientTimes(0.0, total);
    TimesOrder(total, Share(a, total), Share(b, total));
    TimesSign(total, Share(0.0, total));
  }

  /** What a list of positive weights is, once normalised. */
  lemma NormalisedIsFair(ps: seq<real>)
    requires AllPositive(ps) && ps != []
    ensures Sum(ps) > 0.0
    ensures AllPositive(Normalised(ps)) && Sum(Normalised(ps)) == 1.0
    ensures forall i, j :: 0 <= i < |ps| && 0 <= j < |ps| ==> (ps[i] < ps[j] <==> Normalised(ps)[i] < Normalised(ps)[j])
  {
    PositiveSum(ps);
    var total := Sum(ps);
    SumOfShares(ps, Normalised(ps), total);
    ShareOrder(0.0, 1.0, total);
    forall i, j | 0 <= i < |ps| && 0 <= j < |ps|
      ensures Normalised(ps)[i] > 0.0 && (ps[i] < ps[j] <==> Normalised(ps)[i] < Normalised(ps)[j])
    {
      ShareOrder(0.0, ps[i], total);
      ShareOrder(ps[i], ps[j], total);
    }
  }

  ghost predicate SameOrder(quotes: seq<real>, fair: seq<real>)
    requires |fair| == |quotes|
  {
    forall i, j :: 0 <= i < |quotes| && 0 <= j < |quotes| ==> (quotes[i] < quotes[j] <==> fair[j] < fair[i])
  }

  /** A market with its margin gone. */
  ghost predicate IsFairMarket(quotes: seq<real>, fair: seq<real>) {
    |fair| == |quotes| && AllPositive(fair) && Sum(fair) == 1.0
  }

  ghost predicate FullMarket(quotes: seq<real>) {
    |quotes| >= 2 && Quoted(quotes) && Sum(Implied(quotes).value) > 1.0
  }

  /** Proportional removal answers exactly for full markets, and keeps the order of the
      quotes: the longer the odds, the smaller the probability. */
  lemma ProportionalIsFair(quotes: seq<real>)
    ensures Proportional(quotes).Ok? <==> FullMarket(quotes)
    ensures Proportional(quotes).Ok? ==>
              IsFairMarket(quotes, Proportional(quotes).value) && SameOrder(quotes, Proportional(quotes).value)
  {
    if |quotes| >= 2 && Quoted(quotes) && Sum(Implied(quotes).value) > 1.0 {
      var ps := Implied(quotes).value;
      forall i, j | 0 <= i < |quotes| && 0 <= j < |quotes|
        ensures ps[i] > 0.0 && (quotes[i] < quotes[j] <==> ps[j] < ps[i])
      {
        InverseIs(quotes[i]);
        InverseOrder(quotes[i], quotes[j]);
      }
      NormalisedIsFair(ps);
    }
  }

  /** The curve answers exactly for full markets, never leaves the domain of `Remove`, and
      always returns positive probabilities that sum to 1, by way of proportional removal if
      need be. */
  lemma PiecewiseIsFair(c: OverroundCurve, quotes: seq<real>)
    requires c.Valid()
    ensures Piecewise(c, quotes).Ok? <==> FullMarket(quotes)
    ensures Piecewise(c, quotes) != Err(OutOfDomain)
    ensures Piecewise(c, quotes).Ok? ==> IsFairMarket(quotes, Piecewise(c, quotes).value)
  {
    ProportionalIsFair(quotes);
    if FullMarket(quotes) {
      var ps := Implied(quotes).value;
      ImpliedInDomain(c, quotes);
      var fair := RemoveAll(c, ps).value;
      if AllPositive(fair) {
        NormalisedIsFair(fair);
      }
    }
  }

  lemma ImpliedInDomain(c: OverroundCurve, quotes: seq<real>)
    requires c.Valid() && |quotes| >= 2 && Quoted(quotes)
    ensures RemoveAll(c, Implied(quotes).value).Ok?
  {
    forall i | 0 <= i < |quotes| ensures Remove(c, Implied(quotes).value[i]).Ok? {
      InverseIs(quotes[i]);
    }
  }

  /** Longer odds than this are probabilities too small to transform. */
  const LONGEST_ORDERED := 1000000000000.0

  /** The curve takes everything off some selection, so that proportional removal answers. */
  ghost predicate Floored(c: OverroundCurve, quotes: seq<real>)
    requires Quoted(quotes)
  {
    exists i :: 0 <= i < |quotes| && quotes[i] <= LONGEST_ORDERED && Inverse(quotes[i]) <= c.minMargin
  }

  /** Every probability too small to transform, margin and all, is below what is left of every
      other. */
  ghost predicate Separated(c: OverroundCurve, quotes: seq<real>)
    requires c.Valid() && Quoted(quotes)
  {
    forall i, j :: 0 <= i < |quotes| && 0 <= j < |quotes| && quotes[i] <= LONGEST_ORDERED < quotes[j] ==>
      Inverse(quotes[j]) < Fair(c, quotes[i])
  }

  /** What the curve leaves of a quote, before the market is normalised. */
  function Fair(c: OverroundCurve, quote: real): real
    requires c.Valid() && quote >= MIN_QUOTE
  {
    if Inverse(quote) < TINY then Inverse(quote) else Shape(c, Inverse(quote))
  }

  lemma FairIs(c: OverroundCurve, quote: real)
    requires c.Valid() && quote >= MIN_QUOTE
    ensures Remove(c, Inverse(quote)) == Ok(Fair(c, quote))
    ensures quote > LONGEST_ORDERED ==> Fair(c, quote) == Inverse(quote) > 0.0
    ensures quote <= LONGEST_ORDERED ==> Inverse(quote) >= TINY && Fair(c, quote) == Shape(c, Inverse(quote)) >= 0.0
    ensures Fair(c, quote) == 0.0 <==> quote <= LONGEST_ORDERED && Inverse(quote) <= c.minMargin
  {
    hide Shape, Inverse;
    InverseIs(quote);
    TinyExactly(quote);
    if quote <= LONGEST_ORDERED {
      FloorsExactly(c, Inverse(quote));
    }
  }

  lemma TinyExactly(quote: real)
    requires quote >= MIN_QUOTE
    ensures Inverse(quote) < TINY <==> quote > LONGEST_ORDERED
  {
    InverseIs(quote);
    TimesOrder(quote, Inverse(quote), TINY);
    assert quote * TINY > 1.0 <==> quote > LONGEST_ORDERED;
  }

  /** The curve leaves nothing of a probability exactly if it is no more than the floor. */
  lemma FloorsExactly(c: OverroundCurve, m: real)
    requires c.Valid()
    ensures Shape(c, m) >= 0.0 && (Shape(c, m) == 0.0 <==> m <= c.minMargin)
  {
    hide Times, Shape, LowSlope, HighSlope;
    Slopes(c);
    Pieces(c, m);
    TimesSign(LowSlope(c), m - c.minMargin);
    TimesSign(HighSlope(c), m - c.maxMargin - c.highBreak);
  }

  /** Which of two quotes the curve leaves more of: the shorter one, if it leaves anything of
      both and they are on one side of a trillion. */
  lemma FairOrder(c: OverroundCurve, a: real, b: real)
    requires c.Valid() && MIN_QUOTE <= a < b && (b <= LONGEST_ORDERED || LONGEST_ORDERED < a)
    requires Fair(c, a) > 0.0
    ensures Fair(c, b) < Fair(c, a)
  {
    hide Shape, Inverse, Fair;
    FairIs(c, a);
    FairIs(c, b);
    InverseOrder(a, b);
    if b <= LONGEST_ORDERED {
      Growth(c, Inverse(b), Inverse(a));
    }
  }

  ghost predicate FairFollows(c: OverroundCurve, quotes: seq<real>)
    requires c.Valid() && Quoted(quotes)
  {
    forall i, j :: 0 <= i < |quotes| && 0 <= j < |quotes| ==>
      (quotes[i] < quotes[j] <==> Fair(c, quotes[j]) < Fair(c, quotes[i]))
  }

  lemma FairFollowsExactly(c: OverroundCurve, quotes: seq<real>)
    requires c.Valid() && Quoted(quotes) && !Floored(c, quotes)
    ensures FairFollows(c, quotes) <==> Separated(c, quotes)
  {
    hide Shape, Inverse, Fair;
    forall i | 0 <= i < |quotes|
      ensures Fair(c, quotes[i]) > 0.0
      ensures quotes[i] > LONGEST_ORDERED ==> Fair(c, quotes[i]) == Inverse(quotes[i])
    {
      FairIs(c, quotes[i]);
    }
    forall i, j | 0 <= i < |quotes| && 0 <= j < |quotes| && quotes[i] < quotes[j]
                  && !(quotes[i] <= LONGEST_ORDERED < quotes[j])
      ensures Fair(c, quotes[j]) < Fair(c, quotes[i])
    {
      FairOrder(c, quotes[i], quotes[j]);
    }
    if Separated(c, quotes) {
      forall i, j | 0 <= i < |quotes| && 0 <= j < |quotes| && quotes[i] < quotes[j]
        ensures Fair(c, quotes[j]) < Fair(c, quotes[i])
      {
      }
      forall i, j | 0 <= i < |quotes| && 0 <= j < |quotes|
        ensures quotes[i] < quotes[j] <==> Fair(c, quotes[j]) < Fair(c, quotes[i])
      {
        assert quotes[j] < quotes[i] ==> Fair(c, quotes[i]) < Fair(c, quotes[j]);
        assert quotes[j] == quotes[i] ==> Fair(c, quotes[i]) == Fair(c, quotes[j]);
      }
    }
    if FairFollows(c, quotes) {
      forall i, j | 0 <= i < |quotes| && 0 <= j < |quotes| && quotes[i] <= LONGEST_ORDERED < quotes[j]
        ensures Inverse(quotes[j]) < Fair(c, quotes[i])
      {
        assert Fair(c, quotes[j]) < Fair(c, quotes[i]);
      }
    }
  }

  /** What the curve answers for a full market, by way of `Fair`. */
  lemma PiecewiseIs(c: OverroundCurve, quotes: seq<real>)
    requires c.Valid() && FullMarket(quotes)
    ensures Piecewise(c, quotes).Ok? && |Piecewise(c, quotes).value| == |quotes|
    ensures Floored(c, quotes) ==> Piecewise(c, quotes) == Proportional(quotes)
    ensures !Floored(c, quotes) ==> (SameOrder(quotes, Piecewise(c, quotes).value) <==> FairFollows(c, quotes))
  {
    hide Sum, Remove, Inverse, Fair, Shape;
    PiecewiseIsFair(c, quotes);
    ImpliedInDomain(c, quotes);
    var ps := Implied(quotes).value;
    var fair := RemoveAll(c, ps).value;
    forall i | 0 <= i < |quotes|
      ensures fair[i] == Fair(c, quotes[i]) >= 0.0
      ensures fair[i] == 0.0 <==> quotes[i] <= LONGEST_ORDERED && Inverse(quotes[i]) <= c.minMargin
    {
      FairIs(c, quotes[i]);
      assert Remove(c, ps[i]) == Ok(fair[i]);
    }
    if !Floored(c, quotes) {
      assert AllPositive(fair);
      NormalisedIsFair(fair);
    }
  }

  /** The curve keeps the order of the quotes of a full market exactly if it falls back to
      proportional removal, or leaves more of every ordinary quote than of any past a
      trillion. */
  lemma PiecewiseOrderExactly(c: OverroundCurve, quotes: seq<real>)
    requires c.Valid() && FullMarket(quotes)
    ensures Piecewise(c, quotes).Ok? && |Piecewise(c, quotes).value| == |quotes|
    ensures SameOrder(quotes, Piecewise(c, quotes).value) <==> Floored(c, quotes) || Separated(c, quotes)
  {
    hide Floored, Separated, FairFollows, SameOrder, Piecewise, Proportional;
    PiecewiseIs(c, quotes);
    if Floored(c, quotes) {
      ProportionalIsFair(quotes);
    } else {
      FairFollowsExactly(c, quotes);
    }
  }

  /** Up to a trillion to one it keeps the order always. */
  lemma PiecewiseKeepsOrder(c: OverroundCurve, quotes: seq<real>)
    requires c.Valid() && FullMarket(quotes)
    requires forall i :: 0 <= i < |quotes| ==> quotes[i] <= LONGEST_ORDERED
    ensures Piecewise(c, quotes).Ok? && |Piecewise(c, quotes).value| == |quotes|
    ensures SameOrder(quotes, Piecewise(c, quotes).value)
  {
    hide Piecewise;
    PiecewiseOrderExactly(c, quotes);
  }

  lemma SumPlus(ps: seq<real>, x: real)
    ensures Sum(ps + [x]) == Sum(ps) + x
  {
    assert (ps + [x])[..|ps|] == ps;
  }

  lemma SumOfFour(a: real, b: real, c: real, d: real)
    ensures Sum([a, b, c, d]) == a + b + c + d
  {
    SumPlus([], a);
    SumPlus([a], b);
    SumPlus([a, b], c);
    SumPlus([a, b, c], d);
    assert [] + [a] == [a] && [a] + [b] == [a, b] && [a, b] + [c] == [a, b, c] && [a, b, c] + [d] == [a, b, c, d];
  }

  const STEEP := OverroundCurve(0.0, 0.1, 0.1, 0.8)
  const LONGSHOTS := [1.25, 1.25, 1500000000000.0, LONGEST_ORDERED]

  lemma LongshotsAreFull()
    ensures Implied(LONGSHOTS).value ==
            [Inverse(1.25), Inverse(1.25), Inverse(1500000000000.0), Inverse(LONGEST_ORDERED)]
    ensures FullMarket(LONGSHOTS)
  {
    hide Sum, Inverse;
    var ps := [Inverse(1.25), Inverse(1.25), Inverse(1500000000000.0), Inverse(LONGEST_ORDERED)];
    InverseIs(1500000000000.0);
    InverseIs(LONGEST_ORDERED);
    SumOfFour(ps[0], ps[1], ps[2], ps[3]);
    InverseValues();
    assert Implied(LONGSHOTS).value == ps;
  }

  lemma InverseValues()
    ensures Inverse(1.25) == 0.8 && Inverse(LONGEST_ORDERED) == TINY
    ensures 0.6 * TINY < Inverse(1500000000000.0) < TINY
  {
  }

  lemma RemovedFromLongshots(p: real)
    requires 0.0 < p < TINY
    ensures STEEP.Valid()
    ensures Remove(STEEP, 0.8) == Ok(0.7) && Remove(STEEP, TINY) == Ok(0.5 * TINY) && Remove(STEEP, p) == Ok(p)
  {
    hide LongshotPiece, FavouritePiece;
    TinyPiece();
  }

  lemma TinyPiece()
    ensures STEEP.Valid() && LongshotPiece(STEEP, TINY) == 0.5 * TINY
  {
    hide LongshotPiece, LowSlope, HighSlope;
    OuterPieces(STEEP, TINY);
    HalfLine(STEEP, TINY);
  }

  lemma HalfLine(c: OverroundCurve, m: real)
    requires c.Valid() && c.minMargin == 0.0 && c.lowBreak == c.Ramp()
    ensures LowLine(c, m) == 0.5 * m
  {
    hide LowSlope;
    Slopes(c);
    Halves(LowSlope(c), c.lowBreak, c.Ramp());
  }

  lemma Halves(k: real, l: real, r: real)
    requires l > 0.0 && r == l && Times(k, l + r) == l
    ensures k == 0.5
  {
    TimesSwap(k, l + r);
    TimesOrder(l + r, k, 0.5);
  }

  /** Past a trillion it need not: a probability too small to transform keeps its margin
      and overtakes one that loses it. */
  lemma OrderBreaksPastTrillion()
    ensures STEEP.Valid() && FullMarket(LONGSHOTS)
    ensures Piecewise(STEEP, LONGSHOTS).Ok? && |Piecewise(STEEP, LONGSHOTS).value| == 4
    ensures LONGSHOTS[2] > LONGSHOTS[3] && Piecewise(STEEP, LONGSHOTS).value[2] > Piecewise(STEEP, LONGSHOTS).value[3]
  {
    hide Sum, Inverse, Remove, FullMarket;
    LongshotsAreFull();
    InverseValues();
    RemovedFromLongshots(Inverse(1500000000000.0));
    PiecewiseIsFair(STEEP, LONGSHOTS);
    var ps := Implied(LONGSHOTS).value;
    var fair := RemoveAll(STEEP, ps).value;
    assert forall i :: 0 <= i < 4 ==> Remove(STEEP, ps[i]).Ok? && Remove(STEEP, ps[i]).value > 0.0;
    NormalisedIsFair(fair);
  }
}
