/** Congruence of integers, and cancelling odd factors modulo powers of two. */
module Congruence {
  import opened Limbs

  ghost predicate Same(x: int, y: int, d: nat)
    requires d > 0
  {
    (x - y) % d == 0
  }

  lemma MulDifference(a: int, b: int, d: int)
    ensures (a - b) * d == a * d - b * d
  {}

  lemma SameIffEqualMod(x: int, y: int, d: nat)
    requires d > 0
    ensures Same(x, y, d) <==> x % d == y % d
  {
    var k := x / d - y / d;
    assert x == d * (x / d) + x % d && y == d * (y / d) + y % d;
    assert x - y == k * d + (x % d - y % d) by { MulDifference(x / d, y / d, d); }
    if x % d >= y % d {
      DivModUnique(x - y, d, k, x % d - y % d);
    } else {
      MulDifference(k, 1, d);
      DivModUnique(x - y, d, k - 1, x % d - y % d + d);
    }
  }

  lemma SameTrans(x: int, y: int, z: int, d: nat)
    requires d > 0 && Same(x, y, d) && Same(y, z, d)
    ensures Same(x, z, d)
  {
    hide Same;
    SameIffEqualMod(x, y, d);
    SameIffEqualMod(y, z, d);
    SameIffEqualMod(x, z, d);
  }

  // Congruent numbers may be exchanged on both sides.
  lemma SameBoth(x: int, y: int, x': int, y': int, d: nat)
    requires d > 0 && Same(x, y, d) && Same(x', y', d)
    ensures Same(x, x', d) <==> Same(y, y', d)
  {
    hide Same;
    SameIffEqualMod(x, y, d);
    SameIffEqualMod(x', y', d);
    SameIffEqualMod(x, x', d);
    SameIffEqualMod(y, y', d);
  }

  lemma SmallSame(x: nat, y: nat, d: nat)
    requires x < d && y < d
    ensures Same(x, y, d) <==> x == y
  {
    SameIffEqualMod(x, y, d);
    DivModUnique(x, d, 0, x);
    DivModUnique(y, d, 0, y);
  }

  lemma SameAdd(x: int, y: int, c: int, d: nat)
    requires d > 0 && Same(x, y, d)
    ensures Same(x + c, y + c, d)
  {
    assert x + c - (y + c) == x - y;
  }

  lemma SameTimes(x: int, y: int, k: int, d: nat)
    requires d > 0 && Same(x, y, d)
    ensures Same(k * x, k * y, d)
  {
    var q := (x - y) / d;
    assert x - y == d * q;
    assert k * x - k * y == (k * q) * d by { SwapFactors(k, d, q, x - y); }
    MultipleMod(k * q, d);
  }

  // A remainder modulo a multiple of d.
  lemma SameMod(x: int, d: nat, e: nat)
    requires d > 0 && e > 0
    ensures d * e > 0 && Same(x % (d * e), x, d)
  {
    assert d * e > 0;
    var q := x / (d * e);
    assert x == (d * e) * q + x % (d * e);
    assert x % (d * e) - x == (e * -q) * d by { NegatedFactors(d, e, q); }
    MultipleMod(e * -q, d);
  }

  lemma NegatedFactors(d: int, e: int, q: int)
    ensures (e * -q) * d == -((d * e) * q)
  {}

  lemma SwapFactors(a: int, p: int, k: int, x: int)
    requires x == p * k
    ensures a * x == p * (a * k)
  {}

  // ---- odd factors ----

  lemma OddTimesOdd(a: int, x: int)
    requires a % 2 == 1 && x % 2 == 1
    ensures a * x % 2 == 1
  {
    var u, v := a / 2, x / 2;
    assert a == 2 * u + 1 && x == 2 * v + 1;
    assert a * x == 2 * (2 * (u * v) + u + v) + 1;
  }

  lemma OddTimes(a: int, x: int)
    requires a % 2 == 1 && a * x % 2 == 0
    ensures x % 2 == 0
  {
    if x % 2 == 1 {
      OddTimesOdd(a, x);
    }
  }

  lemma DoubleOut(p: int, k: int)
    ensures 2 * p * k == 2 * (p * k)
  {}

  lemma HalfOut(a: int, x: int, y: int)
    requires x == 2 * y
    ensures a * x == 2 * (a * y)
  {}

  // An odd factor does not change divisibility by a power of two.
  lemma {:induction false} OddCancels(a: int, x: int, h: nat)
    requires a % 2 == 1
    ensures a * x % Pow2(h) == 0 <==> x % Pow2(h) == 0
    decreases h
  {
    if h > 0 {
      if a * x % Pow2(h) == 0 {
        var k := a * x / Pow2(h);
        assert a * x == 2 * (Pow2(h - 1) * k) by { DoubleOut(Pow2(h - 1), k); }
        OddTimes(a, x);
        var y := x / 2;
        assert a * y == Pow2(h - 1) * k by { HalfOut(a, x, y); }
        MultipleMod(k, Pow2(h - 1));
        OddCancels(a, y, h - 1);
        assert x == Pow2(h) * (y / Pow2(h - 1)) by { DoubleOut(Pow2(h - 1), y / Pow2(h - 1)); }
        MultipleMod(y / Pow2(h - 1), Pow2(h));
      }
      if x % Pow2(h) == 0 {
        var k := x / Pow2(h);
        assert a * x == Pow2(h) * (a * k) by { SwapFactors(a, Pow2(h), k, x); }
        MultipleMod(a * k, Pow2(h));
      }
    }
  }
}
