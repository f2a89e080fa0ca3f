/** Numbers as little-endian sequences of 32-bit limbs, and the facts about powers
    of two and bitwise operations that limb arithmetic rests on. */
module Limbs {

  const BASE: int := 0x1_0000_0000

  type Limb = x: int | 0 <= x < 0x1_0000_0000

  // ---- powers ----

  function Pow2(n: nat): (r: nat)
    ensures r >= 1
  {
    if n == 0 then 1 else 2 * Pow2(n - 1)
  }

  // BASE to the i.
  function P(i: nat): (r: nat)
    ensures r >= 1
  {
    if i == 0 then 1 else BASE * P(i - 1)
  }

  lemma {:induction false} Pow2Add(a: nat, b: nat)
    ensures Pow2(a + b) == Pow2(a) * Pow2(b)
    decreases a
  {
    if a > 0 {
      Pow2Add(a - 1, b);
      assert 2 * (Pow2(a - 1) * Pow2(b)) == (2 * Pow2(a - 1)) * Pow2(b);
    }
  }

  lemma {:induction false} Pow2Monotone(a: nat, b: nat)
    requires a <= b
    ensures Pow2(a) <= Pow2(b)
    decreases b - a
  {
    if a < b {
      Pow2Monotone(a, b - 1);
    }
  }

  lemma Pow2Of32()
    ensures Pow2(32) == BASE
  {
    assert Pow2(8) == 0x100;
    assert Pow2(16) == 0x1_0000;
    assert Pow2(24) == 0x100_0000;
  }

  lemma {:induction false} PIsPow2(i: nat)
    ensures P(i) == Pow2(32 * i)
  {
    Pow2Of32();
    if i > 0 {
      PIsPow2(i - 1);
      Pow2Add(32, 32 * (i - 1));
    }
  }

  lemma Pow2Split(k: nat, t: nat)
    ensures Pow2(32 * k + t) == P(k) * Pow2(t)
  {
    PIsPow2(k);
    Pow2Add(32 * k, t);
  }

  lemma {:induction false} PAdd(a: nat, b: nat)
    ensures P(a + b) == P(a) * P(b)
    decreases a
  {
    if a > 0 {
      PAdd(a - 1, b);
      assert BASE * (P(a - 1) * P(b)) == (BASE * P(a - 1)) * P(b);
    }
  }

  // ---- values ----

  function Val(s: seq<Limb>): (r: nat) {
    if s == [] then 0 else s[0] + BASE * Val(s[1..])
  }

  lemma {:induction false} ValAppend(s: seq<Limb>, t: seq<Limb>)
    ensures Val(s + t) == Val(s) + P(|s|) * Val(t)
    decreases |s|
  {
    if s == [] {
      assert s + t == t;
    } else {
      assert (s + t)[1..] == s[1..] + t;
      ValAppend(s[1..], t);
      assert BASE * (P(|s| - 1) * Val(t)) == P(|s|) * Val(t);
    }
  }

  lemma ValOne(x: Limb)
    ensures Val([x]) == x
  {
    assert [x][1..] == [];
  }

  lemma ValSnoc(s: seq<Limb>, i: nat)
    requires i < |s|
    ensures Val(s[..i + 1]) == Val(s[..i]) + P(i) * s[i]
  {
    assert s[..i + 1] == s[..i] + [s[i]];
    ValAppend(s[..i], [s[i]]);
    ValOne(s[i]);
  }

  lemma {:induction false} ValBound(s: seq<Limb>)
    ensures Val(s) < P(|s|)
  {
    if s != [] {
      ValBound(s[1..]);
    }
  }

  lemma {:induction false} ValZero(s: seq<Limb>)
    requires forall i :: 0 <= i < |s| ==> s[i] == 0
    ensures Val(s) == 0
  {
    if s != [] {
      ValZero(s[1..]);
    }
  }

  // Changing one limb changes the value by that limb's weight.
  lemma {:induction false} ValUpdate(s: seq<Limb>, j: nat, x: Limb)
    requires j < |s|
    ensures Val(s[j := x]) == Val(s) + P(j) * x - P(j) * s[j]
    decreases j
  {
    if j == 0 {
      assert s[j := x][1..] == s[1..];
    } else {
      assert s[j := x][1..] == s[1..][j - 1 := x];
      ValUpdate(s[1..], j - 1, x);
      MulAssoc(BASE, P(j - 1), x);
      MulAssoc(BASE, P(j - 1), s[j]);
    }
  }

  // The representation is unique.
  lemma {:induction false} ValInjective(s: seq<Limb>, t: seq<Limb>)
    requires |s| == |t| && Val(s) == Val(t)
    ensures s == t
  {
    if s != [] {
      assert s[0] == t[0] && Val(s[1..]) == Val(t[1..]);
      ValInjective(s[1..], t[1..]);
      assert s == [s[0]] + s[1..] && t == [t[0]] + t[1..];
    }
  }

  // ---- bitwise or ----

  function Or(a: nat, b: nat): nat
    decreases a + b
  {
    if a == 0 then b else if b == 0 then a
    else (if a % 2 == 1 || b % 2 == 1 then 1 else 0) + 2 * Or(a / 2, b / 2)
  }

  // Or of numbers without a common bit is addition.
  lemma {:induction false} OrDisjoint(a: nat, b: nat, n: nat)
    requires a < Pow2(n) && b % Pow2(n) == 0
    ensures Or(a, b) == a + b
    decreases n
  {
    if a != 0 && b != 0 {
      HalfMultiple(b, n);
      OrDisjoint(a / 2, b / 2, n - 1);
    }
  }

  lemma HalfMultiple(b: nat, n: nat)
    requires n > 0 && b % Pow2(n) == 0
    ensures b % 2 == 0 && (b / 2) % Pow2(n - 1) == 0
  {
    var p := Pow2(n - 1);
    var q := b / (2 * p);
    assert b == q * (2 * p);
    assert b == 2 * (q * p);
    MultipleMod(q, p);
  }

  lemma MultipleMod(q: int, d: int)
    requires d > 0
    ensures (q * d) % d == 0 && (q * d) / d == q
  {
    DivModUnique(q * d, d, q, 0);
  }

  lemma OnlyZeroFits(k: int, d: int)
    requires d > 0 && -d < k * d < d
    ensures k == 0
  {}

  // Quotient and remainder are determined by their defining equation.
  lemma DivModUnique(x: int, d: int, q: int, r: int)
    requires d > 0 && x == q * d + r && 0 <= r < d
    ensures x / d == q && x % d == r
  {
    var q', r' := x / d, x % d;
    assert x == d * q' + r';
    assert (q - q') * d == q * d - d * q';
    OnlyZeroFits(q - q', d);
  }

  // ---- products ----

  lemma MulMonotone(p: nat, a: int, b: int)
    requires a <= b
    ensures p * a <= p * b
  {}

  lemma MulLess(p: nat, a: int, b: int)
    requires a < b
    ensures p * a + p <= p * b
  {
    MulMonotone(p, a + 1, b);
  }

  lemma MulSum(p: int, a: int, b: int)
    ensures p * (a + b) == p * a + p * b
  {}

  lemma MulAssoc(a: int, b: int, c: int)
    ensures a * (b * c) == (a * b) * c
  {}

  // One position of a sum with carry.
  lemma CarryStep(p: int, x: int, y: int, c: int, r: int, c': int)
    requires c + x + y == r + BASE * c'
    ensures p * c + p * x + p * y == p * r + (BASE * p) * c'
  {
    MulSum(p, c, x);
    MulSum(p, c + x, y);
    MulSum(p, r, BASE * c');
    assert p * (BASE * c') == (BASE * p) * c';
  }

  lemma DivBounds(x: nat, d: nat)
    requires d >= 1
    ensures 0 <= x / d <= x
  {
    var q := x / d;
    assert x == d * q + x % d;
    MulMonotone(q, 1, d);
  }

  lemma DivLess(x: int, d: int, b: int)
    requires d >= 1 && x < d * b
    ensures x / d < b
  {
    if x / d >= b {
      MulMonotone(d, b, x / d);
    }
  }

  // Splitting a multiple: with t * e == n, x * t divided by n.
  lemma SplitProduct(x: nat, t: nat, e: nat, n: nat)
    requires t >= 1 && e >= 1 && t * e == n && x < n
    ensures x * t / n == x / e && x * t % n == (x % e) * t
    ensures (x % e) * t <= n - t && x / e < t
  {
    var q, m := x / e, x % e;
    assert x == e * q + m;
    assert x * t == q * n + m * t by {
      MulSum(t, e * q, m);
      MulAssoc(t, e, q);
      assert n * q == q * n;
    }
    MulLess(t, m, e);
    DivModUnique(x * t, n, q, m * t);
    DivLess(x, e, t);
  }

  lemma Product4(a: int, b: int, c: int, d: int, cd: int, ac: int)
    requires cd == c * d && ac == a * c
    ensures (a * b) * cd == ac * (b * d)
  {}

  lemma MulSumRight(a: int, b: int, c: int)
    ensures (a + b) * c == a * c + b * c
  {}

  lemma ValAdd(s: seq<Limb>, j: nat, v: int)
    requires j < |s| && 0 <= s[j] + v < BASE
    ensures Val(s[j := s[j] + v]) == Val(s) + P(j) * v
  {
    ValUpdate(s, j, s[j] + v);
    MulSum(P(j), s[j], v);
  }

  lemma {:induction false} OrCommutes(a: nat, b: nat)
    ensures Or(a, b) == Or(b, a)
    decreases a + b
  {
    if a != 0 && b != 0 {
      OrCommutes(a / 2, b / 2);
    }
  }

  // A multiple of 2^(t+1) below 2^32 leaves room for bit t, and stays a multiple of 2^t.
  lemma BitRoom(x: Limb, t: nat)
    requires t < 32 && x % Pow2(t + 1) == 0
    ensures x + Pow2(t) < BASE && x % Pow2(t) == 0 && (x + Pow2(t)) % Pow2(t) == 0
    ensures Or(x, Pow2(t)) == x + Pow2(t)
  {
    hide Pow2, Or;
    Pow2Double(t);
    Pow2Monotone(t, t + 1);
    OrDisjoint(Pow2(t), x, t + 1);
    OrCommutes(x, Pow2(t));
    Pow2Of32();
    Pow2Add(31 - t, t + 1);
    ModZero(x, Pow2(t + 1));
    BitRoomArith(x, Pow2(t), x / Pow2(t + 1), Pow2(31 - t));
  }

  lemma Pow2Double(t: nat)
    ensures Pow2(t + 1) == 2 * Pow2(t) > Pow2(t)
  {}

  lemma ModZero(x: int, d: int)
    requires d >= 1 && x % d == 0
    ensures x == d * (x / d)
  {}

  lemma BitRoomArith(x: int, p: int, c: int, e: int)
    requires p >= 1 && x == (2 * p) * c && x < BASE && e * (2 * p) == BASE
    ensures x + p < BASE && x % p == 0 && (x + p) % p == 0
  {
    if c >= e {
      MulMonotone(2 * p, e, c);
    }
    MulLess(2 * p, c, e);
    assert x == (2 * c) * p && x + p == (2 * c + 1) * p;
    MultipleMod(2 * c, p);
    MultipleMod(2 * c + 1, p);
  }
}
