/** The heights that skip pointers lead to, and how many steps a walk along them takes. */
module SkipList {
  import opened Limbs

  // Bitwise and of two naturals.
  function And(a: nat, b: nat): (r: nat)
    ensures r <= a && r <= b
  {
    if a == 0 || b == 0 then 0 else a % 2 * (b % 2) + 2 * And(a / 2, b / 2)
  }

  lemma {:induction false} AndSelf(n: nat)
    ensures And(n, n) == n
  {
    if n > 0 {
      AndSelf(n / 2);
    }
  }

  // n & (n - 1)
  function InvertLowestOne(n: nat): (r: nat)
    ensures n > 0 ==> r < n
  {
    if n == 0 then 0 else And(n, n - 1)
  }

  // It clears the lowest one bit: the bit itself if n is odd, one further up otherwise.
  lemma InvertLowestOneMeaning(n: nat)
    ensures InvertLowestOne(2 * n + 1) == 2 * n
    ensures InvertLowestOne(2 * n) == 2 * InvertLowestOne(n)
  {
    AndSelf(n);
    if n > 0 {
      assert (2 * n) / 2 == n && (2 * n - 1) / 2 == n - 1;
    }
  }

  // The height a block's skip pointer leads to.
  function GetSkipHeight(height: int): (r: int)
    ensures 0 <= r && (height >= 1 ==> r < height)
  {
    if height < 2 then 0
    else if height % 2 == 1 then InvertLowestOne(InvertLowestOne(height - 1)) + 1
    else InvertLowestOne(height)
  }

  // The height after one step of the walk from height w to height h, if all skip pointers are set.
  function NextHeight(w: int, h: int): (r: int)
    requires 0 <= h < w
    ensures h <= r < w
  {
    var skip, skipPrev := GetSkipHeight(w), GetSkipHeight(w - 1);
    if skip == h || (skip > h && !(skipPrev < skip - 2 && skipPrev >= h)) then skip else w - 1
  }

  ghost function WalkLength(w: int, h: int): (n: nat)
    requires 0 <= h <= w
    decreases w - h
  {
    if w == h then 0 else 1 + WalkLength(NextHeight(w, h), h)
  }

  // ---- skip heights, by halves ----

  // Even heights clear one bit, odd heights two bits, of all but the last bit.
  lemma SkipByHalves(n: nat)
    ensures n > 0 ==> GetSkipHeight(2 * n) == 2 * InvertLowestOne(n)
    ensures n > 0 ==> GetSkipHeight(2 * n + 1) == 2 * InvertLowestOne(InvertLowestOne(n)) + 1
  {
    if n > 0 {
      assert GetSkipHeight(2 * n) == InvertLowestOne(2 * n);
      assert GetSkipHeight(2 * n + 1) == InvertLowestOne(InvertLowestOne(2 * n)) + 1;
      hide InvertLowestOne, GetSkipHeight;
      InvertLowestOneMeaning(n);
      InvertLowestOneMeaning(InvertLowestOne(n));
    }
  }

  // ---- the measure of a walk ----

  // How many low bits of n must be ignored to make it equal to g.
  ghost function Level(n: nat, g: nat): (b: nat)
    decreases n + g
  {
    if n == g then 0 else 1 + Level(n / 2, g / 2)
  }

  // The ones among those bits.
  ghost function LowOnes(n: nat, g: nat): (r: nat)
    decreases n + g
  {
    if n == g then 0 else n % 2 + LowOnes(n / 2, g / 2)
  }

  lemma {:induction false} OnesWithinLevel(n: nat, g: nat)
    ensures LowOnes(n, g) <= Level(n, g)
    decreases n + g
  {
    if n != g {
      OnesWithinLevel(n / 2, g / 2);
    }
  }

  // Clearing a bit, as long as the goal is not passed, removes a one and raises no level.
  lemma {:induction false} ClearOne(n: nat, g: nat)
    requires g <= InvertLowestOne(n) && 0 < n
    ensures Level(InvertLowestOne(n), g) <= Level(n, g) && LowOnes(InvertLowestOne(n), g) + 1 <= LowOnes(n, g)
    decreases n
  {
    hide InvertLowestOne;
    InvertLowestOneMeaning(n / 2);
    if n % 2 == 0 {
      ClearOne(n / 2, g / 2);
    }
  }

  // Going below a bit that is not to be cleared lowers the level.
  lemma {:induction false} GoBelow(m: nat, g: nat)
    requires InvertLowestOne(m) <= g < m
    ensures Level(m - 1, g) + 1 <= Level(m, g)
    decreases m
  {
    hide InvertLowestOne;
    InvertLowestOneMeaning(m / 2);
    if m % 2 == 0 {
      GoBelow(m / 2, g / 2);
      assert (m - 1) / 2 == m / 2 - 1;
    }
  }

  // From ...10 to ...01, below the goal's bits or above them.
  lemma SwapLowPair(t: nat, g: nat)
    requires g <= 4 * t
    ensures Level(4 * t + 1, g) <= Level(4 * t + 2, g) && LowOnes(4 * t + 1, g) <= LowOnes(4 * t + 2, g)
  {
    var m := 4 * t + 2;
    assert m / 2 / 2 == t && (m - 1) / 2 == 2 * t && (m - 1) / 2 / 2 == t;
    assert Level(m, g) == 1 + Level(m / 2, g / 2) && Level(m - 1, g) == 1 + Level(2 * t, g / 2);
    assert LowOnes(m, g) == LowOnes(m / 2, g / 2) && LowOnes(m - 1, g) == 1 + LowOnes(2 * t, g / 2);
    assert m / 2 != g / 2;
    assert Level(m / 2, g / 2) == 1 + Level(t, g / 2 / 2) && LowOnes(m / 2, g / 2) == 1 + LowOnes(t, g / 2 / 2);
    if 2 * t != g / 2 {
      assert Level(2 * t, g / 2) == 1 + Level(t, g / 2 / 2) && LowOnes(2 * t, g / 2) == LowOnes(t, g / 2 / 2);
    }
  }

  lemma {:induction false} LargerHasOne(n: nat, g: nat)
    requires n > g
    ensures LowOnes(n, g) >= 1
    decreases n + g
  {
    if n / 2 > g / 2 {
      LargerHasOne(n / 2, g / 2);
    }
  }

  // Twice the ones, an odd last bit counting half.
  ghost function Weight(n: nat, g: nat): (r: int) {
    2 * LowOnes(n, g) - (if n != g then n % 2 else 0)
  }

  lemma WeightBounds(n: nat, g: nat)
    requires n >= g
    ensures 0 <= Weight(n, g) <= 2 * Level(n, g) && (n > g ==> Weight(n, g) >= 1)
  {
    OnesWithinLevel(n, g);
    if n > g {
      LargerHasOne(n, g);
    }
  }

  // Drops with every step from w to h.
  ghost function Measure(w: nat, h: nat): (r: int) {
    Square(Level(w / 2, h / 2)) + 2 * Weight(w / 2, h / 2) + w % 2
  }

  ghost function Square(b: nat): (r: int) {
    2 * b * (b - 1)
  }

  lemma SquareNext(b: nat)
    ensures Square(b + 1) == Square(b) + 4 * b
  {}

  lemma {:induction false} SquareGrows(a: nat, b: nat)
    requires a <= b
    ensures Square(a) <= Square(b) && (a < b ==> Square(a) + 4 * a <= Square(b))
    decreases b - a
  {
    if a < b {
      SquareGrows(a, b - 1);
      SquareNext(b - 1);
    }
  }

  // Clearing a bit of all but the last bit.
  lemma MeasureClear(n: nat, g: nat)
    requires 0 < n && g <= InvertLowestOne(n)
    ensures InvertLowestOne(n) % 2 == 0
    ensures Square(Level(InvertLowestOne(n), g)) + 2 * Weight(InvertLowestOne(n), g) + 2
         <= Square(Level(n, g)) + 2 * Weight(n, g)
  {
    hide InvertLowestOne, Square, Level, LowOnes;
    InvertLowestOneMeaning(n / 2);
    ClearOne(n, g);
    SquareGrows(Level(InvertLowestOne(n), g), Level(n, g));
  }

  lemma OddStep(n: nat, h: nat)
    requires h < 2 * n + 1
    ensures Measure(NextHeight(2 * n + 1, h), h) < Measure(2 * n + 1, h)
  {
    var w, g := 2 * n + 1, h / 2;
    if n > 0 {
      SkipByHalves(n);
      hide InvertLowestOne, GetSkipHeight, Square, Level, LowOnes, Weight;
      var n1 := InvertLowestOne(n);
      var n2 := InvertLowestOne(n1);
      assert w / 2 == n;
      if 2 * n2 + 1 >= h {
        assert NextHeight(w, h) == 2 * n2 + 1 && (2 * n2 + 1) / 2 == n2 && g <= n2;
        MeasureClear(n, g);
        if n1 > 0 {
          MeasureClear(n1, g);
        } else {
          NothingToClear();
        }
      } else {
        assert NextHeight(w, h) == 2 * n && (2 * n) / 2 == n;
      }
    }
  }

  lemma NothingToClear()
    ensures InvertLowestOne(0) == 0
  {}

  // The two ways on from an even height.
  lemma EvenNext(m: nat, h: nat)
    requires h < 2 * m
    ensures var skip, next := 2 * InvertLowestOne(m), NextHeight(2 * m, h);
            if skip < h then next == 2 * m - 1
            else next == skip || (next == 2 * m - 1 && skip > h && m % 4 != 0)
  {
    hide InvertLowestOne, GetSkipHeight;
    SkipByHalves(m);
    if m % 4 == 0 {
      SkipIsLonger(m / 4);
      assert 8 * (m / 4) == 2 * m;
    }
  }

  lemma MeasureByHalves(n: nat, h: nat)
    ensures Measure(2 * n, h) == Square(Level(n, h / 2)) + 2 * Weight(n, h / 2)
    ensures Measure(2 * n + 1, h) == Square(Level(n, h / 2)) + 2 * Weight(n, h / 2) + 1
  {
    hide Square, Level, Weight;
    assert (2 * n) / 2 == n && (2 * n + 1) / 2 == n;
  }

  lemma EvenStep(m: nat, h: nat)
    requires h < 2 * m
    ensures Measure(NextHeight(2 * m, h), h) < Measure(2 * m, h)
  {
    hide *;
    EvenNext(m, h);
    MeasureByHalves(m, h);
    MeasureByHalves(m - 1, h);
    MeasureByHalves(InvertLowestOne(m), h);
    var g, skip := h / 2, 2 * InvertLowestOne(m);
    if NextHeight(2 * m, h) == skip {
      MeasureClear(m, g);
    } else if skip < h {
      BelowStep(m, g);
    } else {
      PassedOver(m, g);
    }
  }

  // Stepping back from a height whose skip would pass the goal.
  lemma BelowStep(m: nat, g: nat)
    requires InvertLowestOne(m) <= g < m
    ensures Square(Level(m - 1, g)) + 2 * Weight(m - 1, g) + 1 < Square(Level(m, g)) + 2 * Weight(m, g)
  {
    hide InvertLowestOne, Square, Level, LowOnes, Weight;
    GoBelow(m, g);
    WeightBounds(m - 1, g);
    WeightBounds(m, g);
    SquareGrows(Level(m - 1, g), Level(m, g));
  }

  // Stepping back although the skip is open, because the height before skips farther.
  lemma PassedOver(m: nat, g: nat)
    requires m % 4 != 0 && g <= InvertLowestOne(m)
    ensures Square(Level(m - 1, g)) + 2 * Weight(m - 1, g) + 1 < Square(Level(m, g)) + 2 * Weight(m, g)
  {
    hide *;
    var t, r := Quarter(m);
    if r == 2 {
      PairStep(t, g);
    } else {
      InvertLowestOneMeaning(2 * t + r / 2);
      MeasureClear(m, g);
    }
  }

  lemma Quarter(m: nat) returns (t: nat, r: nat)
    ensures m == 4 * t + r && r < 4 && r == m % 4 && (r == 1 ==> r / 2 == 0) && (r == 3 ==> r / 2 == 1)
  {
    t, r := m / 4, m % 4;
  }

  lemma PairStep(t: nat, g: nat)
    requires g <= InvertLowestOne(4 * t + 2)
    ensures Square(Level(4 * t + 1, g)) + 2 * Weight(4 * t + 1, g) + 1
            < Square(Level(4 * t + 2, g)) + 2 * Weight(4 * t + 2, g)
  {
    hide InvertLowestOne, Square, Level, LowOnes;
    assert 4 * t + 2 == 2 * (2 * t + 1);
    InvertLowestOneMeaning(2 * t + 1);
    InvertLowestOneMeaning(t);
    SwapLowPair(t, g);
    SquareGrows(Level(4 * t + 1, g), Level(4 * t + 2, g));
  }

  // Before a multiple of eight the skip is no longer than one.
  lemma SkipIsLonger(u: nat)
    requires u > 0
    ensures GetSkipHeight(8 * u - 1) >= GetSkipHeight(8 * u) - 2
  {
    hide InvertLowestOne, GetSkipHeight;
    SkipByHalves(4 * u);
    SkipByHalves(4 * u - 1);
    InvertLowestOneMeaning(2 * u);
    InvertLowestOneMeaning(u);
    InvertLowestOneMeaning(2 * u - 1);
    InvertLowestOneMeaning(u - 1);
    InvertLowestOneMeaning(2 * u - 2);
    assert 2 * (4 * u - 1) + 1 == 8 * u - 1 && 2 * (4 * u) == 8 * u;
    assert 2 * (2 * u - 1) + 1 == 4 * u - 1 && 2 * (2 * u - 2) == 4 * u - 4;
  }

  // ---- the bound ----

  lemma {:induction false} WalkWithinMeasure(w: nat, h: nat)
    requires h <= w
    ensures WalkLength(w, h) <= Measure(w, h)
    decreases w - h
  {
    hide Measure, NextHeight;
    MeasureSign(w, h);
    if h < w {
      if w % 2 == 0 {
        EvenStep(w / 2, h);
      } else {
        OddStep(w / 2, h);
      }
      WalkWithinMeasure(NextHeight(w, h), h);
    }
  }

  lemma MeasureSign(w: nat, h: nat)
    requires h <= w
    ensures Measure(w, h) >= 0
  {
    WeightBounds(w / 2, h / 2);
    SquareGrows(0, Level(w / 2, h / 2));
  }

  lemma {:induction false} LevelBound(n: nat, g: nat, b: nat)
    requires g <= n < Pow2(b)
    ensures Level(n, g) <= b
    decreases b
  {
    if n != g {
      LevelBound(n / 2, g / 2, b - 1);
    }
  }

  // A walk from a height below 2^(b+1) to any lower height takes at most 2b(b+1) + 1 steps.
  lemma WalkIsShort(w: nat, h: nat, b: nat)
    requires h <= w < Pow2(b + 1)
    ensures WalkLength(w, h) <= 2 * b * (b + 1) + 1
  {
    hide Level, WalkLength;
    WalkWithinMeasure(w, h);
    LevelBound(w / 2, h / 2, b);
    WeightBounds(w / 2, h / 2);
    SquareGrows(Level(w / 2, h / 2), b);
    assert Square(b) + 4 * b == 2 * b * (b + 1);
  }
}
