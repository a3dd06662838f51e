/**
 * Decimal scaling with truncation, on exact reals (Go's float64 without its rounding).
 * A register that keeps k steps per unit stores Trunc(v * k) and reads it back times
 * u = 1/k; quantisation is what survives the two.
 */
module Decimal {

  function Pow10(n: nat): (p: nat)
    ensures p >= 1
  {
    if n == 0 then 1 else 10 * Pow10(n - 1)
  }

  /** math.Pow(10, s). */
  function Power(s: int): (k: real)
    ensures k > 0.0
    decreases if s < 0 then -s else s
  {
    if s == 0 then 1.0 else if s > 0 then 10.0 * Power(s - 1) else Power(s + 1) / 10.0
  }

  /** Go's conversion of an in-range float64 to an integer type: towards zero. */
  function Trunc(x: real): int {
    if x >= 0.0 then x.Floor else -((-x).Floor)
  }

  function Abs(x: real): real {
    if x < 0.0 then -x else x
  }

  /** q lies between zero and v. */
  predicate Between(q: real, v: real) {
    0.0 <= q <= v || v <= q <= 0.0
  }

  predicate Whole(x: real) {
    x == Trunc(x) as real
  }

  /** The product, named so that equal arguments give the same term. */
  function Times(a: real, b: real): real {
    a * b
  }

  /** Steps per unit and the size of one step. */
  predicate Step(k: real, u: real) {
    k > 0.0 && u > 0.0 && Times(k, u) == 1.0
  }

  function Quantised(v: real, k: real, u: real): real {
    Times(Trunc(Times(v, k)) as real, u)
  }

  lemma TruncBounds(x: real)
    ensures x >= 0.0 ==> 0.0 <= Trunc(x) as real <= x < Trunc(x) as real + 1.0
    ensures x <= 0.0 ==> Trunc(x) as real - 1.0 < x <= Trunc(x) as real <= 0.0
  {
    if x < 0.0 {
      var y := -x;
      assert y.Floor as real <= y < y.Floor as real + 1.0;
    }
  }

  lemma TruncWhole(i: int)
    ensures Trunc(i as real) == i
  {
  }

  // ---- products, one at a time ----

  lemma TimesLe(a: real, b: real, k: real)
    requires a <= b && k >= 0.0
    ensures Times(a, k) <= Times(b, k)
  {
  }

  lemma TimesLt(a: real, b: real, k: real)
    requires a < b && k > 0.0
    ensures Times(a, k) < Times(b, k)
  {
  }

  lemma CancelLe(a: real, b: real, k: real)
    requires Times(a, k) <= Times(b, k) && k > 0.0
    ensures a <= b
  {
    if b < a { TimesLt(b, a, k); }
  }

  lemma Associate(a: real, b: real, c: real)
    ensures Times(Times(a, b), c) == Times(a, Times(b, c))
  {
  }

  lemma TimesOne(a: real)
    ensures Times(a, 1.0) == a
  {
  }

  lemma Negate(x: real, u: real)
    ensures Times(-x, u) == -Times(x, u)
  {
  }

  lemma IntegerProduct(n: int, d: int)
    ensures Times(n as real, d as real) == (n * d) as real
  {
  }

  /** From steps back to units: multiplying by u undoes multiplying by k. */
  lemma FromSteps(v: real, k: real, u: real)
    requires Step(k, u)
    ensures Times(Times(v, k), u) == v
  {
    Associate(v, k, u);
    TimesOne(v);
  }

  lemma ToSteps(x: real, k: real, u: real)
    requires Step(k, u)
    ensures Times(Times(x, u), k) == x
  {
    FromSteps(x, k, u);
    Associate(x, u, k);
    Associate(x, k, u);
    assert Times(u, k) == Times(k, u);
  }

  // ---- a truncation bound 0 <= t <= x < t + 1, in steps, seen in units ----

  lemma StepBelow(x: real, t: real, u: real)
    requires u > 0.0 && 0.0 <= t <= x
    ensures 0.0 <= Times(t, u) <= Times(x, u)
  {
    TimesLe(0.0, t, u);
    TimesLe(t, x, u);
  }

  lemma StepAbove(x: real, t: real, u: real)
    requires u > 0.0 && x < t + 1.0
    ensures Times(x, u) < Times(t, u) + u
  {
    TimesLt(x, t + 1.0, u);
  }

  lemma StepExact(x: real, t: real, u: real)
    requires u > 0.0 && t <= x
    ensures Times(t, u) == Times(x, u) <==> t == x
  {
    if t < x { TimesLt(t, x, u); }
  }

  lemma QuantisedUp(v: real, k: real, u: real)
    requires Step(k, u) && v >= 0.0
    ensures 0.0 <= Quantised(v, k, u) <= v < Quantised(v, k, u) + u
    ensures Quantised(v, k, u) == v <==> Whole(Times(v, k))
  {
    var x := Times(v, k);
    var t := Trunc(x) as real;
    TimesLe(0.0, v, k);
    FromSteps(v, k, u);
    TruncBounds(x);
    StepBelow(x, t, u);
    StepAbove(x, t, u);
    StepExact(x, t, u);
  }

  lemma QuantisedOdd(v: real, k: real, u: real)
    ensures Quantised(-v, k, u) == -Quantised(v, k, u)
    ensures Whole(Times(-v, k)) == Whole(Times(v, k))
  {
    Negate(v, k);
    Negate(Trunc(Times(v, k)) as real, u);
  }

  /** Quantising never grows a value, keeps its sign, loses less than one step, and is exact on whole steps only. */
  lemma QuantisedBounds(v: real, k: real, u: real)
    requires Step(k, u)
    ensures Between(Quantised(v, k, u), v)
    ensures Abs(v - Quantised(v, k, u)) < u
    ensures Quantised(v, k, u) == v <==> Whole(Times(v, k))
  {
    if v >= 0.0 {
      QuantisedUp(v, k, u);
    } else {
      QuantisedUp(-v, k, u);
      QuantisedOdd(v, k, u);
    }
  }

  /** An integer less than one step away from v is at least as far from zero as the truncation, on the same side. */
  lemma WithinOneStep(v: real, k: real, u: real, n: int)
    requires Step(k, u)
    requires Abs(v - Times(n as real, u)) < u
    ensures 0 <= Trunc(Times(v, k)) <= n || n <= Trunc(Times(v, k)) <= 0
  {
    var x, r := Times(v, k), n as real;
    FromSteps(v, k, u);
    if x >= r + 1.0 {
      TimesLe(r + 1.0, x, u);
    }
    if x <= r - 1.0 {
      TimesLe(x, r - 1.0, u);
    }
    TruncBounds(x);
  }

  // ---- quantising twice ----

  lemma FloorBelow(y: real, x: real, q: int, d: int)
    requires d >= 1 && Times(y, d as real) == x
    ensures q as real <= y <==> q * d <= x.Floor
  {
    IntegerProduct(q, d);
    if q as real <= y {
      TimesLe(q as real, y, d as real);
    } else {
      TimesLt(y, q as real, d as real);
    }
  }

  lemma FloorIs(x: real, n: int)
    requires n as real <= x < n as real + 1.0
    ensures x.Floor == n
  {
  }

  lemma TruncTwiceUp(x: real, y: real, z: real, d: int)
    requires d >= 1
    requires Times(y, d as real) == x
    requires Times(z, d as real) == x.Floor as real
    ensures z.Floor == y.Floor
  {
    var q := y.Floor;
    FloorBelow(y, x, q, d);
    FloorBelow(y, x, q + 1, d);
    FloorBelow(z, x.Floor as real, q, d);
    FloorBelow(z, x.Floor as real, q + 1, d);
    FloorIs(z, q);
  }

  /** Truncating to a finer step first does not change the coarser truncation. */
  lemma TruncTwice(x: real, y: real, z: real, d: int)
    requires d >= 1
    requires Times(y, d as real) == x
    requires Times(z, d as real) == Trunc(x) as real
    ensures Trunc(z) == Trunc(y)
  {
    var r := d as real;
    if y >= 0.0 {
      TimesLe(0.0, y, r);
      CancelLe(0.0, z, r);
      TruncTwiceUp(x, y, z, d);
    } else {
      TimesLt(y, 0.0, r);
      CancelLe(z, 0.0, r);
      Negate(y, r);
      Negate(z, r);
      TruncTwiceUp(-x, -y, -z, d);
    }
  }

  /** Quantising finely and then coarsely is quantising coarsely. */
  lemma CoarserAfterFiner(v: real, k: real, u: real, k': real, u': real, d: int)
    requires Step(k, u) && Step(k', u')
    requires d >= 1 && k' == Times(k, d as real)
    ensures Quantised(Quantised(v, k', u'), k, u) == Quantised(v, k, u)
  {
    var w := Quantised(v, k', u');
    ToSteps(Trunc(Times(v, k')) as real, k', u');
    Associate(v, k, d as real);
    Associate(w, k, d as real);
    TruncTwice(Times(v, k'), Times(v, k), Times(w, k), d);
  }

  /** Quantising coarsely and then finely changes nothing more. */
  lemma FinerAfterCoarser(v: real, k: real, u: real, k': real, u': real, d: int)
    requires Step(k, u) && Step(k', u')
    requires d >= 1 && k' == Times(k, d as real)
    ensures Quantised(Quantised(v, k, u), k', u') == Quantised(v, k, u)
  {
    var n, q := Trunc(Times(v, k)), Quantised(v, k, u);
    ToSteps(n as real, k, u);
    Associate(q, k, d as real);
    IntegerProduct(n, d);
    TruncWhole(n * d);
    FromSteps(q, k', u');
  }

  // ---- powers of ten ----

  lemma {:induction false} PowerStep(s: int)
    requires s >= 0
    ensures Step(Power(s), Power(-s))
  {
    if s > 0 {
      PowerStep(s - 1);
      TenTimes(Power(s - 1), Power(1 - s));
      assert Power(-s) == Power(1 - s) / 10.0;
    }
  }

  /** Powers of ten in figures; the rest follow by PowerSplit and PowerStep. */
  lemma PowersInFigures()
    ensures Power(0) == 1.0 && Power(1) == 10.0 && Power(2) == 100.0 && Power(-1) == 0.1 && Power(-2) == 0.01
  {
    assert Power(1) == 10.0 * Power(0) && Power(-1) == Power(0) / 10.0;
  }

  lemma TenTimes(k: real, u: real)
    requires Times(k, u) == 1.0
    ensures Times(10.0 * k, u / 10.0) == 1.0
  {
  }

  lemma {:induction false} PowerSplit(s: int, n: nat)
    requires s >= 0
    ensures Power(s + n) == Times(Power(s), Pow10(n) as real)
  {
    if n > 0 {
      PowerSplit(s, n - 1);
      TenMore(Power(s), Pow10(n - 1));
    } else {
      TimesOne(Power(s));
    }
  }

  lemma TenMore(k: real, p: nat)
    ensures Times(k, (10 * p) as real) == 10.0 * Times(k, p as real)
  {
  }
}
