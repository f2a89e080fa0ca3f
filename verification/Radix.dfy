/** Numbers written as digit strings in any base: powers, conversion to and from digits,
    the in-place step "times a constant plus a digit", and how many digits of one base are
    enough for digits of another. */
module Radix {
  import opened Limbs

  // ---- powers ----

  function Pow(b: nat, n: nat): (r: nat)
    ensures b >= 1 ==> r >= 1
  {
    if n == 0 then 1 else b * Pow(b, n - 1)
  }

  lemma {:induction false} PowAdd(b: nat, m: nat, n: nat)
    ensures Pow(b, m + n) == Pow(b, m) * Pow(b, n)
    decreases m
  {
    if m > 0 {
      PowAdd(b, m - 1, n);
      MulAssoc(b, Pow(b, m - 1), Pow(b, n));
    }
  }

  lemma {:induction false} PowMul(b: nat, m: nat, n: nat)
    ensures Pow(Pow(b, m), n) == Pow(b, m * n)
    decreases n
  {
    if n > 0 {
      PowMul(b, m, n - 1);
      PowAdd(b, m, m * (n - 1));
      assert m * n == m + m * (n - 1);
    }
  }

  lemma {:induction false} PowExponent(b: nat, m: nat, n: nat)
    requires b >= 1 && m <= n
    ensures Pow(b, m) <= Pow(b, n)
    decreases n
  {
    if m < n {
      PowExponent(b, m, n - 1);
      Grow(b, Pow(b, n - 1));
    }
  }

  lemma Grow(b: nat, x: nat)
    requires b >= 1
    ensures x <= b * x
  {}

  lemma {:induction false} PowBase(a: nat, b: nat, n: nat)
    requires a <= b
    ensures Pow(a, n) <= Pow(b, n)
  {
    if n > 0 {
      PowBase(a, b, n - 1);
      ProductGrows(a, b, Pow(a, n - 1), Pow(b, n - 1));
    }
  }

  lemma ProductGrows(a: nat, b: nat, x: nat, y: nat)
    requires a <= b && x <= y
    ensures a * x <= b * y
  {
    assert a * x <= b * x <= b * y;
  }

  lemma {:induction false} PowStrict(a: nat, b: nat, n: nat)
    requires a < b && n >= 1
    ensures Pow(a, n) < Pow(b, n)
  {
    if n == 1 {
      assert Pow(a, 1) == a * Pow(a, 0) && Pow(b, 1) == b * Pow(b, 0);
    } else {
      PowStrict(a, b, n - 1);
      ProductGrowsStrictly(a, b, Pow(a, n - 1), Pow(b, n - 1));
    }
  }

  lemma ProductGrowsStrictly(a: nat, b: nat, x: nat, y: nat)
    requires a < b && x < y
    ensures a * x < b * y
  {
    assert a * x <= a * y < b * y;
  }

  // ---- the buffer estimates ----

  // With a^p <= b^q, m digits of base b hold k digits of base a whenever m/k >= q/p.
  lemma Fits(a: nat, b: nat, p: nat, q: nat, k: nat, m: nat, pk: nat, qk: nat, pm: nat)
    requires a >= 1 && b >= 1 && p >= 1 && Pow(a, p) <= Pow(b, q)
    requires pk == p * k && qk == q * k && pm == p * m && qk <= pm
    ensures Pow(a, k) <= Pow(b, m)
  {
    hide Pow;
    PowMulIs(a, p, k, pk);
    PowMulIs(b, q, k, qk);
    PowBase(Pow(a, p), Pow(b, q), k);
    PowExponent(b, qk, pm);
    Root(a, b, p, k, m, pk, pm);
  }

  lemma Root(a: nat, b: nat, p: nat, k: nat, m: nat, pk: nat, pm: nat)
    requires p >= 1 && pk == p * k && pm == p * m && Pow(a, pk) <= Pow(b, pm)
    ensures Pow(a, k) <= Pow(b, m)
  {
    hide Pow;
    PowMulIs(a, k, p, pk);
    PowMulIs(b, m, p, pm);
    if Pow(a, k) > Pow(b, m) {
      PowStrict(Pow(b, m), Pow(a, k), p);
    }
  }

  lemma PowMulIs(b: nat, m: nat, n: nat, mn: nat)
    requires mn == m * n
    ensures Pow(Pow(b, m), n) == Pow(b, mn)
  {
    hide Pow;
    PowMul(b, m, n);
  }

  lemma PowAddIs(b: nat, m: nat, n: nat, x: nat, y: nat)
    requires Pow(b, m) == x && Pow(b, n) == y
    ensures Pow(b, m + n) == x * y
  {
    hide Pow;
    PowAdd(b, m, n);
  }

  // 138/100 base-58 digits per byte are enough.
  lemma EncodeEstimate(n: nat)
    ensures Pow(256, n) <= Pow(58, n * 138 / 100 + 1)
  {
    Bytes8InDigits11();
    var m := n * 138 / 100 + 1;
    hide Pow;
    Fits(256, 58, 8, 11, n, m, 8 * n, 11 * n, 8 * m);
  }

  lemma Bytes8InDigits11()
    ensures Pow(256, 8) <= Pow(58, 11)
  {
    SmallPowers();
    hide Pow;
    PowAddIs(256, 4, 4, 4294967296, 4294967296);
    PowAddIs(58, 4, 4, 11316496, 11316496);
    PowAddIs(58, 8, 3, 128063081718016, 195112);
  }

  lemma SmallPowers()
    ensures Pow(256, 4) == 4294967296 && Pow(58, 4) == 11316496 && Pow(58, 3) == 195112
  {}

  // 733/1000 bytes per base-58 digit are enough.
  lemma DecodeEstimate(n: nat)
    ensures Pow(58, n) <= Pow(256, n * 733 / 1000 + 1)
  {
    hide Pow;
    Digits71InBytes52();
    var m := n * 733 / 1000 + 1;
    assert 52 * n <= 71 * m by { Ratio(n); }
    Fits(58, 256, 71, 52, n, m, 71 * n, 52 * n, 71 * m);
  }

  lemma Ratio(n: nat)
    ensures 52 * n <= 71 * (n * 733 / 1000 + 1)
  {}

  lemma Digits71InBytes52()
    ensures Pow(58, 71) <= Pow(256, 52)
  {
    SmallPowers();
    hide Pow;
    PowAddIs(58, 4, 4, 11316496, 11316496);
    PowAddIs(58, 8, 8, 128063081718016, 128063081718016);
    PowAddIs(58, 16, 16, 16400152899115243850138976256, 16400152899115243850138976256);
    PowAddIs(58, 32, 32, 268965015114358137726910587140455987105619365599731777536,
             268965015114358137726910587140455987105619365599731777536);
    PowAddIs(58, 64, 4,
             72342179355466901471258927612150153907721848234316445933056526044582001260898145151856420451025374266490194231296,
             11316496);
    PowAddIs(58, 68, 3,
             818659983307423768631895769287186768096118664656249123135650444757408038940948816018402574608346843785239217057684258816,
             195112);
    PowAddIs(256, 4, 4, 4294967296, 4294967296);
    PowAddIs(256, 8, 8, 18446744073709551616, 18446744073709551616);
    PowAddIs(256, 16, 16, 340282366920938463463374607431768211456, 340282366920938463463374607431768211456);
    PowAddIs(256, 32, 16, 115792089237316195423570985008687907853269984665640564039457584007913129639936,
             340282366920938463463374607431768211456);
    PowAddIs(256, 48, 4,
             39402006196394479212279040100143613805079739270465446667948293404245721771497210611414266254884915640806627990306816,
             4294967296);
  }

  // ---- digits ----

  ghost predicate AllBelow(s: seq<nat>, b: nat) {
    forall i :: 0 <= i < |s| ==> s[i] < b
  }

  // The number a big-endian digit string stands for.
  ghost function Num(s: seq<nat>, b: nat): (r: nat) {
    if s == [] then 0 else Num(s[..|s| - 1], b) * b + s[|s| - 1]
  }

  // The digits of a number, without leading zeros.
  ghost function Digits(v: nat, b: nat): (r: seq<nat>)
    requires b >= 2
    ensures r != [] ==> r[0] != 0
    ensures AllBelow(r, b)
  {
    if v == 0 then [] else
      QuotientSmaller(v, b);
      Digits(v / b, b) + [v % b]
  }

  lemma QuotientSmaller(v: nat, b: nat)
    requires b >= 2 && v > 0
    ensures 0 <= v / b < v && (v / b == 0 ==> v % b == v) && v == (v / b) * b + v % b
  {
    assert v == b * (v / b) + v % b;
  }

  lemma NumSnoc(s: seq<nat>, d: nat, b: nat)
    ensures Num(s + [d], b) == Num(s, b) * b + d
  {
    assert (s + [d])[..|s|] == s;
  }

  lemma {:induction false} NumOfDigits(v: nat, b: nat)
    requires b >= 2
    ensures Num(Digits(v, b), b) == v
  {
    if v > 0 {
      QuotientSmaller(v, b);
      NumOfDigits(v / b, b);
      hide Num;
      NumSnoc(Digits(v / b, b), v % b, b);
    }
  }

  lemma {:induction false} DigitsOfNum(s: seq<nat>, b: nat)
    requires b >= 2 && AllBelow(s, b) && (s != [] ==> s[0] != 0)
    ensures Digits(Num(s, b), b) == s
  {
    if s != [] {
      var t, d := s[..|s| - 1], s[|s| - 1];
      if t == [] {
        assert s == [d] && Num(t, b) == 0;
      } else {
        assert t[0] == s[0];
      }
      DigitsOfNum(t, b);
      QuotientOf(Num(t, b), d, b);
      if t != [] {
        NumPositive(t, b);
      }
      assert s == t + [d];
    }
  }

  lemma QuotientOf(x: nat, d: nat, b: nat)
    requires d < b
    ensures (x * b + d) / b == x && (x * b + d) % b == d && x <= x * b
  {
    DivModUnique(x * b + d, b, x, d);
    MulMonotone(x, 1, b);
  }

  lemma {:induction false} NumPositive(s: seq<nat>, b: nat)
    requires b >= 1 && s != [] && s[0] != 0
    ensures Num(s, b) >= Pow(b, |s| - 1) >= 1
  {
    if |s| > 1 {
      var t := s[..|s| - 1];
      NumPositive(t, b);
      ProductGrows(Pow(b, |t| - 1), Num(t, b), b, b);
    } else {
      assert s[..0] == [];
      assert Num([], b) == 0;
    }
  }

  lemma {:induction false} NumBound(s: seq<nat>, b: nat)
    requires AllBelow(s, b)
    ensures Num(s, b) < Pow(b, |s|)
  {
    if s != [] {
      var t := s[..|s| - 1];
      NumBound(t, b);
      HornerBound(Num(t, b), s[|s| - 1], b, Pow(b, |t|));
    }
  }

  lemma HornerBound(x: nat, d: nat, b: nat, p: nat)
    requires x < p && d < b
    ensures x * b + d < b * p
  {
    MulLess(b, x, p);
  }

  lemma {:induction false} NumAppend(s: seq<nat>, t: seq<nat>, b: nat)
    ensures Num(s + t, b) == Num(s, b) * Pow(b, |t|) + Num(t, b)
    decreases |t|
  {
    if t == [] {
      assert s + t == s;
    } else {
      var t' := t[..|t| - 1];
      assert (s + t)[..|s + t| - 1] == s + t';
      NumAppend(s, t', b);
      HornerStep(Num(s, b), Pow(b, |t'|), Num(t', b), b);
    }
  }

  lemma HornerStep(x: int, p: int, y: int, b: int)
    ensures (x * p + y) * b == x * (b * p) + y * b
  {
    MulAssoc(x, p, b);
  }

  lemma {:induction false} NumZeros(s: seq<nat>, b: nat)
    requires forall i :: 0 <= i < |s| ==> s[i] == 0
    ensures Num(s, b) == 0
  {
    if s != [] {
      NumZeros(s[..|s| - 1], b);
    }
  }

  // ---- one digit more ----

  // The digits in use are the last `length`, and the first of those is not zero.
  ghost predicate InUse(s: seq<nat>, length: nat) {
    && length <= |s|
    && (forall i :: 0 <= i < |s| - length ==> s[i] == 0)
    && (length > 0 ==> s[|s| - length] != 0)
  }

  lemma UsedDigits(s: seq<nat>, length: nat, b: nat)
    requires b >= 2 && AllBelow(s, b) && InUse(s, length)
    ensures s[|s| - length..] == Digits(Num(s, b), b)
  {
    hide Num, Digits;
    var t := s[|s| - length..];
    LeadingZeros(s, |s| - length, b);
    assert t != [] ==> t[0] == s[|s| - length];
    DigitsOfNum(t, b);
  }

  lemma LeadingZeros(s: seq<nat>, k: nat, b: nat)
    requires k <= |s| && forall i :: 0 <= i < k ==> s[i] == 0
    ensures Num(s, b) == Num(s[k..], b)
  {
    hide Num, Pow;
    assert s == s[..k] + s[k..];
    NumAppend(s[..k], s[k..], b);
    NumZeros(s[..k], b);
    assert 0 * Pow(b, |s| - k) == 0;
  }

  // buffer = buffer * mul + d, in base b, carrying from the last digit; stops when nothing is
  // left to carry and all digits in use are done.
  method MulAdd(a: array<nat>, b: nat, mul: nat, d: nat, length: nat) returns (len: nat)
    requires b >= 2 && mul >= 1 && AllBelow(a[..], b) && InUse(a[..], length)
    requires Num(a[..], b) * mul + d < Pow(b, a.Length)
    modifies a
    ensures AllBelow(a[..], b) && InUse(a[..], len) && len >= length
    ensures Num(a[..], b) == old(Num(a[..], b)) * mul + d
  {
    hide Pow, Num, AllBelow, InUse, Carrying;
    ghost var x := a[..];
    var m := a.Length;
    var carry: nat := d;
    var i := 0;
    Start(x, b, mul, d, length);
    while (carry != 0 || i < length) && i < m
      invariant 0 <= i <= m
      invariant Carrying(x, a[..], b, mul, carry, d, length, i)
      decreases m - i
    {
      var j := m - 1 - i;
      CarryOn(x, a[..], b, mul, carry, d, length, i);
      var c := carry + mul * a[j];
      a[j] := c % b;
      carry := c / b;
      i := i + 1;
    }
    len := i;
    Finish(x, a[..], b, mul, carry, d, length, i);
    assert carry == 0;
  }

  // i digits are done; the rest of the buffer y is still as it was in x.
  ghost predicate Carrying(x: seq<nat>, y: seq<nat>, b: nat, mul: nat, carry: nat, d: nat, length: nat, i: nat) {
    && |x| == |y| && i <= |x| && AllBelow(y, b)
    && y[..|y| - i] == x[..|x| - i]
    && Num(y[|y| - i..], b) + Pow(b, i) * carry == Num(x[|x| - i..], b) * mul + d
    && (i > length ==> carry != 0 || y[|y| - i] != 0)
  }

  lemma Start(x: seq<nat>, b: nat, mul: nat, d: nat, length: nat)
    requires AllBelow(x, b)
    ensures Carrying(x, x, b, mul, d, d, length, 0)
  {
    assert x[|x|..] == [];
    assert Num([], b) * mul == 0 && Pow(b, 0) * d == d;
  }

  lemma CarryOn(x: seq<nat>, y: seq<nat>, b: nat, mul: nat, carry: nat, d: nat, length: nat, i: nat)
    requires b >= 2 && i < |x| && (carry != 0 || i < length) && InUse(x, length)
    requires Carrying(x, y, b, mul, carry, d, length, i)
    ensures var j := |x| - 1 - i; var c := carry + mul * y[j];
            c >= 0 && c % b >= 0 && c / b >= 0 && Carrying(x, y[j := c % b], b, mul, c / b, d, length, i + 1)
  {
    hide Num, Pow;
    var j := |x| - 1 - i;
    var r := y[j + 1..];
    assert y[..j + 1][j] == x[..j + 1][j];
    var c := carry + mul * x[j];
    MulMonotone(mul, 0, x[j]);
    QuotientRemainder(c, b);
    CarryValue(x, r, b, mul, carry, d, i);
    var y' := y[j := c % b];
    assert y'[j..] == [c % b] + r;
    assert y'[..j] == y[..j + 1][..j] == x[..j + 1][..j] == x[..j];
    if i + 1 > length {
      assert x[j] == 0 && mul * x[j] == 0;
    }
  }

  lemma QuotientRemainder(c: nat, b: nat)
    requires b >= 2
    ensures 0 <= c % b < b && 0 <= c / b && (c > 0 && c / b == 0 ==> c % b == c)
  {}

  lemma CarryValue(x: seq<nat>, r: seq<nat>, b: nat, mul: nat, carry: nat, d: nat, i: nat)
    requires b >= 2 && i < |x| && |r| == i
    requires Num(r, b) + Pow(b, i) * carry == Num(x[|x| - i..], b) * mul + d
    ensures var c := carry + mul * x[|x| - 1 - i];
            Num([c % b] + r, b) + Pow(b, i + 1) * (c / b) == Num(x[|x| - 1 - i..], b) * mul + d
  {
    var j := |x| - 1 - i;
    var c := carry + mul * x[j];
    assert x[j..] == [x[j]] + x[j + 1..];
    NumAppend([x[j]], x[j + 1..], b);
    NumAppend([c % b], r, b);
    NumOne(x[j], b);
    NumOne(c % b, b);
    assert Pow(b, i + 1) == b * Pow(b, i);
    hide Num, Pow;
    CarryArith(Pow(b, i), b, mul, x[j], carry, Num(x[j + 1..], b), d, Num(r, b));
  }

  lemma NumOne(d: nat, b: nat)
    ensures Num([d], b) == d
  {
    assert [d][..0] == [];
  }

  lemma CarryArith(p: int, b: int, mul: int, x: int, carry: int, nx: int, d: int, nr: int)
    requires b >= 2 && nr + p * carry == nx * mul + d
    ensures var c := carry + mul * x; (c % b) * p + nr + (b * p) * (c / b) == (x * p + nx) * mul + d
  {
    var c := carry + mul * x;
    var q, r := c / b, c % b;
    assert c == b * q + r;
    assert p * c == r * p + (b * p) * q by {
      assert p * (b * q + r) == p * (b * q) + p * r;
      MulAssoc(p, b, q);
      assert (p * b) * q == (b * p) * q;
    }
    assert p * c == p * carry + p * (mul * x);
    assert (x * p + nx) * mul == p * (mul * x) + nx * mul by {
      assert (x * p) * mul == p * (mul * x);
    }
  }

  lemma Finish(x: seq<nat>, y: seq<nat>, b: nat, mul: nat, carry: nat, d: nat, length: nat, i: nat)
    requires b >= 2 && mul >= 1 && InUse(x, length) && Carrying(x, y, b, mul, carry, d, length, i)
    requires (carry == 0 && i >= length) || i == |x|
    requires Num(x, b) * mul + d < Pow(b, |x|)
    ensures carry == 0 && Num(y, b) == Num(x, b) * mul + d && i >= length && InUse(y, i) && AllBelow(y, b)
  {
    hide Pow, Num;
    var k := |x| - i;
    NoCarryLeft(x, y, b, mul, carry, d, i);
    assert forall j :: 0 <= j < k ==> y[j] == y[..k][j] == x[..k][j] == x[j];
    LeadingZeros(x, k, b);
    LeadingZeros(y, k, b);
    assert Pow(b, i) * 0 == 0;
    if i == length && i > 0 {
      TopStays(x, y, b, mul, d, i);
    }
  }

  lemma NoCarryLeft(x: seq<nat>, y: seq<nat>, b: nat, mul: nat, carry: nat, d: nat, i: nat)
    requires b >= 1 && |x| == |y| && i <= |x|
    requires Num(y[|y| - i..], b) + Pow(b, i) * carry == Num(x[|x| - i..], b) * mul + d
    requires carry == 0 || i == |x|
    requires Num(x, b) * mul + d < Pow(b, |x|)
    ensures carry == 0
  {
    hide Pow, Num;
    if carry > 0 {
      assert x[0..] == x;
      MulMonotone(Pow(b, i), 1, carry);
    }
  }

  // The number does not shrink, so the first digit in use stays nonzero.
  lemma TopStays(x: seq<nat>, y: seq<nat>, b: nat, mul: nat, d: nat, i: nat)
    requires b >= 2 && mul >= 1 && |x| == |y| && 0 < i <= |x| && AllBelow(y, b) && InUse(x, i)
    requires Num(y[|y| - i..], b) == Num(x[|x| - i..], b) * mul + d
    ensures y[|y| - i] != 0
  {
    hide Pow, Num;
    var s, t := x[|x| - i..], y[|y| - i..];
    NumPositive(s, b);
    ProductGrows(1, mul, Num(s, b), Num(s, b));
    if t[0] == 0 {
      assert t == t[..1] + t[1..];
      NumAppend(t[..1], t[1..], b);
      NumZeros(t[..1], b);
      NumBound(t[1..], b);
    }
  }
}
