/** Products and quotients of reals, one small step at a time. */
module Reals {

  /** A product, as one term. */
  function Times(k: real, x: real): real { k * x }

  /** A quotient, as one term. */
  function Over(x: real, y: real): real
    requires y != 0.0
  {
    x / y
  }

  lemma TimesOrder(k: real, x: real, y: real)
    requires k > 0.0
    ensures x < y <==> Times(k, x) < Times(k, y)
    ensures x == y <==> Times(k, x) == Times(k, y)
  {
    if x < y {
      assert k * (y - x) > 0.0;
    } else if y < x {
      assert k * (x - y) > 0.0;
    }
  }

  lemma TimesSign(k: real, x: real)
    requires k > 0.0
    ensures x < 0.0 <==> Times(k, x) < 0.0
    ensures x == 0.0 <==> Times(k, x) == 0.0
  {
    TimesOrder(k, x, 0.0);
  }

  lemma TimesSwap(k: real, x: real)
    ensures Times(k, x) == Times(x, k)
  {
  }

  lemma TimesAdd(k: real, x: real, y: real, z: real)
    requires z == x + y
    ensures Times(k, z) == Times(k, x) + Times(k, y)
  {
  }

  /** With a factor no smaller than 1 a product is no smaller, and so on. */
  lemma TimesUnit(k: real, x: real)
    requires x >= 0.0
    ensures k <= 1.0 ==> Times(k, x) <= x
    ensures k >= 1.0 ==> Times(k, x) >= x
  {
    if x > 0.0 {
      TimesOrder(x, k, 1.0);
      TimesSwap(x, k);
    }
  }

  lemma QuotientIs(x: real, y: real, z: real)
    requires y > 0.0 && x == Times(y, z)
    ensures x / y == z
  {
  }

  lemma QuotientTimes(x: real, y: real)
    requires y > 0.0
    ensures Times(y, x / y) == x
    ensures x >= y ==> x / y >= 1.0
    ensures 0.0 < x <= y ==> 0.0 < x / y <= 1.0
  {
    var q := x / y;
    assert q * y == x;
    TimesSwap(y, q);
    TimesOrder(y, q, 1.0);
    TimesSign(y, q);
  }

  /** Equal products: with one positive factor each, the other factors have the same sign. */
  lemma SameSign(k: real, x: real, m: real, y: real)
    requires k > 0.0 && m >= 0.0 && Times(k, x) == Times(m, y)
    ensures m > 0.0 ==> (x < 0.0 <==> y < 0.0) && (x == 0.0 <==> y == 0.0)
    ensures m == 0.0 ==> x == 0.0
  {
    TimesSign(k, x);
    if m > 0.0 {
      TimesSign(m, y);
    } else {
      assert m * y == 0.0;
    }
  }

  /** `q` is to `f` as `r` is to `l`. */
  lemma Part(q: real, f: real, r: real, l: real)
    requires r >= 0.0 && l > 0.0 && Times(l, q) == Times(r, f)
    ensures 0.0 <= f ==> 0.0 <= q && (q == 0.0 <==> r == 0.0 || f == 0.0)
    ensures f <= l ==> q <= r && (q == r <==> r == 0.0 || f == l)
    ensures 0.0 < f && r < l ==> q < f
  {
    PartProducts(q, f, r, l);
    hide Times;
    SameSign(l, q, r, f);
    SameSign(l, r - q, r, l - f);
    if f > 0.0 {
      SameSign(l, f - q, f, l - r);
    }
  }

  lemma PartProducts(q: real, f: real, r: real, l: real)
    requires Times(l, q) == Times(r, f)
    ensures Times(l, r - q) == Times(r, l - f) && Times(l, f - q) == Times(f, l - r)
  {
  }

  /** A line of slope `k` grows by no more than a steeper one. */
  lemma LineGrowth(k: real, steeper: real, x: real, y: real, d: real)
    requires 0.0 < k <= steeper && 0.0 <= d && y == x + d
    ensures 0.0 <= Times(k, y) - Times(k, x) <= Times(steeper, d)
    ensures 0.0 < d ==> Times(k, x) < Times(k, y)
  {
    TimesAdd(k, x, d, y);
    TimesSign(k, d);
    if d > 0.0 {
      TimesOrder(d, k, steeper);
      TimesSwap(d, k);
      TimesSwap(d, steeper);
    }
  }

  /** A steep line over a room that it takes to itself and a ramp. */
  lemma SteepWithin(k: real, room: real, ramp: real, e: real)
    requires k >= 1.0 && Times(k, room) == room + ramp && 0.0 <= e <= room
    ensures 0.0 <= Times(k, e) <= e + ramp
  {
    TimesSign(k, e);
    TimesAdd(k, e, room - e, room);
    TimesUnit(k, room - e);
  }

  /** The line of slope `k` that takes `l + r` to `l` takes a number and its part to the
      number. */
  lemma LineOfSum(k: real, l: real, r: real, f: real, q: real)
    requires l > 0.0 && Times(k, l + r) == l && Times(l, q) == Times(r, f)
    ensures Times(k, f + q) == f
  {
    calc {
      Times(l, Times(k, f + q));
      k * (l * f + l * q);
      k * (l * f + r * f);
      f * (k * (l + r));
      Times(l, f);
    }
    TimesOrder(l, Times(k, f + q), f);
  }

  lemma LineOfDifference(k: real, l: real, r: real, g: real, q: real)
    requires l > 0.0 && Times(k, l - r) == l && Times(l, q) == Times(r, g)
    ensures Times(k, g - q) == g
  {
    assert Times(l, q) == Times(0.0 - r, 0.0 - g);
    assert Times(l, 0.0 - q) == Times(0.0 - r, g);
    LineOfSum(k, l, 0.0 - r, g, 0.0 - q);
  }

  /** And what such a line makes of a number is a part of it. */
  lemma PartOfLine(k: real, l: real, r: real, d: real)
    requires Times(k, l + r) == l
    ensures Times(l, d - Times(k, d)) == Times(r, Times(k, d))
  {
    calc {
      Times(l, d - Times(k, d)) - Times(r, Times(k, d));
      l * d - d * (k * (l + r));
      0.0;
    }
  }

  function Inverse(x: real): real
    requires x != 0.0
  {
    1.0 / x
  }

  lemma InverseIs(x: real)
    requires x > 0.0
    ensures Inverse(x) > 0.0 && Times(x, Inverse(x)) == 1.0
    ensures x > 1.0 ==> Inverse(x) < 1.0
  {
    hide Times;
    QuotientTimes(1.0, x);
    TimesSign(x, Inverse(x));
    TimesOne(x);
    TimesOrder(x, Inverse(x), 1.0);
  }

  lemma TimesOne(k: real)
    ensures Times(k, 1.0) == k
  {
  }

  /** Longer odds, smaller probability. */
  lemma InverseOrder(a: real, b: real)
    requires a > 0.0 && b > 0.0
    ensures a < b <==> Inverse(b) < Inverse(a)
  {
    hide Times, Inverse;
    InverseIs(a);
    InverseIs(b);
    TimesOrder(b, Inverse(b), Inverse(a));
    TimesSwap(b, Inverse(a));
    TimesSwap(a, Inverse(a));
    TimesOrder(Inverse(a), a, b);
  }

  /** Dividing is multiplying with the inverse. */
  lemma QuotientIsTimes(x: real, y: real)
    requires y > 0.0
    ensures x / y == Times(x, Inverse(y))
  {
    InverseIs(y);
    var i := Inverse(y);
    hide Inverse;
    Regroup(x, y, i);
    QuotientIs(x, y, Times(x, i));
  }

  lemma Regroup(x: real, y: real, i: real)
    requires Times(y, i) == 1.0
    ensures Times(y, Times(x, i)) == x
  {
    assert y * (x * i) == x * (y * i);
  }

  lemma InverseTwice(p: real)
    requires p > 0.0
    ensures Inverse(p) > 0.0 && Inverse(Inverse(p)) == p
  {
    InverseIs(p);
    TimesSwap(p, Inverse(p));
    QuotientIs(1.0, Inverse(p), p);
  }

  lemma QuotientByInverse(x: real, p: real)
    requires p > 0.0
    ensures Inverse(p) > 0.0 && x / Inverse(p) == Times(x, p)
  {
    InverseTwice(p);
    QuotientIsTimes(x, Inverse(p));
  }

  lemma QuotientExactly(x: real, y: real, q: real)
    requires y > 0.0
    ensures x / y == q <==> q * y == x
  {
    QuotientTimes(x, y);
    TimesOrder(y, q, x / y);
  }

  lemma InverseUnique(x: real, y: real)
    requires x > 0.0 && y * x == 1.0
    ensures y == Inverse(x)
  {
    QuotientExactly(1.0, x, y);
  }

  function Sum(xs: seq<real>): real {
    if xs == [] then 0.0 else Sum(xs[..|xs| - 1]) + xs[|xs| - 1]
  }
}
