/** What the probabilities of a de-vigged market are in proportion to (`quant/devig.py`), and
    what the curve takes off one probability, as equations. */
module FairShares {
  import opened Reals
  import opened Devig

  /** The three pieces of the removal, multiplied out, and the probabilities too small for any
      of them. */
  lemma RemoveExactly(c: OverroundCurve, marked: real, fair: real)
    requires c.Valid()
    ensures Remove(c, marked) == Err(OutOfDomain) <==> marked < 0.0 || marked > 1.0
    ensures 0.0 <= marked <= 1.0 ==>
              (Remove(c, marked) == Ok(fair) <==>
                 if marked < 0.000000000001 then fair == marked
                 else if marked <= c.minMargin then fair == 0.0
                 else if marked < c.lowBreak + c.maxMargin then
                   fair * (c.lowBreak + c.maxMargin - c.minMargin) == (marked - c.minMargin) * c.lowBreak
                 else if marked <= c.highBreak + c.maxMargin then fair == marked - c.maxMargin
                 else
                   fair * (1.0 - c.highBreak - (c.maxMargin - c.minMargin)) ==
                   (marked - c.minMargin) * (1.0 - c.highBreak) - (c.maxMargin - c.minMargin))
  {
    if 0.000000000001 <= marked <= 1.0 {
      if marked < c.lowBreak + c.maxMargin {
        LowExactly(c, marked, fair);
        hide Shape;
      } else {
        HighExactly(c, marked, fair);
        hide Shape;
      }
    }
  }

  lemma HighExactly(c: OverroundCurve, marked: real, fair: real)
    requires c.Valid() && marked >= c.lowBreak + c.maxMargin
    ensures Shape(c, marked) == fair <==>
              if marked <= c.highBreak + c.maxMargin then fair == marked - c.maxMargin
              else
                fair * (1.0 - c.highBreak - (c.maxMargin - c.minMargin)) ==
                (marked - c.minMargin) * (1.0 - c.highBreak) - (c.maxMargin - c.minMargin)
  {
    var top := (marked - c.minMargin) * (1.0 - c.highBreak) - c.Ramp();
    QuotientExactly(top, 1.0 - c.highBreak - c.Ramp(), fair);
  }

  lemma LowExactly(c: OverroundCurve, marked: real, fair: real)
    requires c.Valid() && marked < c.lowBreak + c.maxMargin
    ensures Shape(c, marked) == fair <==>
              if marked <= c.minMargin then fair == 0.0
              else fair * (c.lowBreak + c.maxMargin - c.minMargin) == (marked - c.minMargin) * c.lowBreak
  {
    var top, whole := (marked - c.minMargin) * c.lowBreak, c.lowBreak + c.Ramp();
    var piece := LongshotPiece(c, marked);
    QuotientTimes(top, whole);
    TimesSign(whole, piece);
    TimesSign(c.lowBreak, marked - c.minMargin);
    assert top == Times(c.lowBreak, marked - c.minMargin);
    TimesOrder(whole, fair, piece);
    assert Times(whole, fair) == fair * (c.lowBreak + c.maxMargin - c.minMargin);
  }

  /** The documented load: from the floor up to the full margin in proportion to the
      probability, the full margin in the body, and down to the floor in proportion to the
      room above it. */
  lemma MarkedExactly(c: OverroundCurve, fair: real, marked: real)
    requires c.Valid()
    ensures Marked(c, fair) == marked <==>
              if fair < c.lowBreak then
                (marked - fair - c.minMargin) * c.lowBreak == (c.maxMargin - c.minMargin) * fair
              else if fair <= c.highBreak then marked == fair + c.maxMargin
              else
                (fair + c.maxMargin - marked) * (1.0 - c.highBreak) ==
                (c.maxMargin - c.minMargin) * (fair - c.highBreak)
  {
    if fair < c.lowBreak {
      LoadExactly(c, fair, marked - fair - c.minMargin);
      hide LowLoad;
    } else if fair > c.highBreak {
      ReliefExactly(c, fair, fair + c.maxMargin - marked);
      hide HighRelief;
    }
  }

  lemma LoadExactly(c: OverroundCurve, fair: real, load: real)
    requires c.Valid()
    ensures LowLoad(c, fair) == load <==> load * c.lowBreak == (c.maxMargin - c.minMargin) * fair
  {
    QuotientExactly(c.Ramp() * fair, c.lowBreak, load);
  }

  lemma ReliefExactly(c: OverroundCurve, fair: real, relief: real)
    requires c.Valid()
    ensures HighRelief(c, fair) == relief <==>
              relief * (1.0 - c.highBreak) == (c.maxMargin - c.minMargin) * (fair - c.highBreak)
  {
    QuotientExactly(c.Ramp() * (fair - c.highBreak), 1.0 - c.highBreak, relief);
  }

  // ----- markets -----

  /** What a market has to be for an answer, and what is wrong with the others. */
  lemma AnswersExactly(c: OverroundCurve, quotes: seq<real>, inverses: seq<real>)
    requires c.Valid()
    requires |inverses| == |quotes|
    requires forall i :: 0 <= i < |quotes| && quotes[i] >= 1.01 ==> inverses[i] * quotes[i] == 1.0
    ensures Proportional(quotes) == Err(TooFewSelections) <==> |quotes| < 2
    ensures Proportional(quotes) == Err(QuoteBelowMinimum) <==>
              |quotes| >= 2 && exists i :: 0 <= i < |quotes| && quotes[i] < 1.01
    ensures Proportional(quotes) == Err(SumsUnderOne) <==>
              |quotes| >= 2 && (forall i :: 0 <= i < |quotes| ==> quotes[i] >= 1.01) && Sum(inverses) <= 1.0
    ensures Piecewise(c, quotes).Err? ==> Piecewise(c, quotes) == Proportional(quotes)
    ensures Piecewise(c, quotes).Ok? <==> Proportional(quotes).Ok?
  {
    hide Sum, Remove, Inverse;
    ProportionalIsFair(quotes);
    PiecewiseIsFair(c, quotes);
    if |quotes| >= 2 && Quoted(quotes) {
      var ps := Implied(quotes).value;
      forall i | 0 <= i < |quotes| ensures inverses[i] == ps[i] {
        InverseUnique(quotes[i], inverses[i]);
      }
      assert inverses == ps;
    }
  }

  /** Normalising changes no proportion. */
  lemma NormalisedRatio(ps: seq<real>, i: nat, j: nat)
    requires Sum(ps) > 0.0 && i < |ps| && j < |ps|
    ensures Normalised(ps)[i] * ps[j] == Normalised(ps)[j] * ps[i]
  {
    hide Sum;
    var total, x, y := Sum(ps), ps[i], ps[j];
    SharedTotal(x, y, total);
  }

  lemma SharedTotal(x: real, y: real, total: real)
    requires total > 0.0
    ensures Share(x, total) * y == Share(y, total) * x
  {
    var s, t := Share(x, total), Share(y, total);
    QuotientTimes(x, total);
    QuotientTimes(y, total);
    calc {
      Times(total, s * y);
      Times(total, s) * y;
      x * Times(total, t);
      Times(total, t * x);
    }
    TimesOrder(total, s * y, t * x);
  }

  /** Proportional removal leaves each selection in proportion to the inverse of its quote: the
      same return on each. */
  lemma ProportionalExactly(quotes: seq<real>, i: nat, j: nat)
    requires Proportional(quotes).Ok? && i < |quotes| && j < |quotes|
    ensures |Proportional(quotes).value| == |quotes|
    ensures Proportional(quotes).value[i] * quotes[i] == Proportional(quotes).value[j] * quotes[j]
  {
    hide Sum, Inverse;
    var ps := Implied(quotes).value;
    NormalisedRatio(ps, i, j);
    var v := Normalised(ps);
    InverseIs(quotes[i]);
    InverseIs(quotes[j]);
    CrossInverse(v[i], quotes[i], v[j], quotes[j]);
  }

  lemma CrossInverse(x: real, q: real, y: real, r: real)
    requires q > 0.0 && r > 0.0 && x * Inverse(r) == y * Inverse(q)
    ensures x * q == y * r
  {
    InverseIs(q);
    InverseIs(r);
    var i, j := Inverse(q), Inverse(r);
    hide Inverse;
    assert q * i == 1.0 && r * j == 1.0;
    calc {
      x * q;
      (x * q) * (r * j);
      (x * j) * (q * r);
      (y * i) * (q * r);
      (y * r) * (q * i);
      y * r;
    }
  }

  /** The curve leaves something of every quote. */
  ghost predicate LeavesAll(c: OverroundCurve, quotes: seq<real>)
    requires c.Valid()
  {
    forall i :: 0 <= i < |quotes| ==>
      quotes[i] > 0.0 && Remove(c, Inverse(quotes[i])).Ok? && Remove(c, Inverse(quotes[i])).value > 0.0
  }

  /** If the curve leaves something of every quote the probabilities are in proportion to what
      it leaves, and otherwise to the inverse quotes. */
  lemma PiecewiseExactly(c: OverroundCurve, quotes: seq<real>, i: nat, j: nat)
    requires c.Valid() && Piecewise(c, quotes).Ok? && i < |quotes| && j < |quotes|
    ensures |Piecewise(c, quotes).value| == |quotes|
    ensures Remove(c, Inverse(quotes[i])).Ok? && Remove(c, Inverse(quotes[j])).Ok?
    ensures var v := Piecewise(c, quotes).value;
            if LeavesAll(c, quotes)
            then v[i] * Remove(c, Inverse(quotes[j])).value == v[j] * Remove(c, Inverse(quotes[i])).value
            else v[i] * quotes[i] == v[j] * quotes[j]
  {
    hide Sum, Remove, Inverse;
    PiecewiseIsFair(c, quotes);
    ImpliedInDomain(c, quotes);
    var ps := Implied(quotes).value;
    var fair := RemoveAll(c, ps).value;
    assert AllPositive(fair) <==> LeavesAll(c, quotes);
    if AllPositive(fair) {
      PositiveSum(fair);
      NormalisedRatio(fair, i, j);
    } else {
      ProportionalExactly(quotes, i, j);
    }
  }
}
