/** 256-bit unsigned arithmetic on an array of eight 32-bit limbs, as the node uses
    it for proof of work.  Every operation is proved against the number its limbs
    stand for, modulo 2^256. */
module Arith256 {
  import opened Limbs

  const WIDTH := 8

  // 2^256
  ghost const MODULUS: nat := P(8)

  type Num = array<Limb>

  ghost function Value(a: Num): nat
    reads a
  {
    Val(a[..])
  }

  lemma InRange(a: Num)
    requires a.Length == WIDTH
    ensures Value(a) < MODULUS
  {
    ValBound(a[..]);
  }

  method Zero() returns (r: Num)
    ensures fresh(r) && r.Length == WIDTH && Value(r) == 0 && forall i :: 0 <= i < WIDTH ==> r[i] == 0
  {
    r := new Limb[WIDTH](_ => 0);
    ValZero(r[..]);
  }

  method Copy(b: Num) returns (r: Num)
    requires b.Length == WIDTH
    ensures fresh(r) && r.Length == WIDTH && r[..] == b[..]
  {
    r := new Limb[WIDTH](_ => 0);
    for i := 0 to WIDTH
      invariant forall j :: 0 <= j < i ==> r[j] == b[j]
    {
      r[i] := b[i];
    }
  }

  // a = b for a 64-bit b
  method SetUint64(a: Num, b: nat)
    requires a.Length == WIDTH && b < BASE * BASE
    modifies a
    ensures Value(a) == b
  {
    for i := 0 to WIDTH
      invariant forall j :: 0 <= j < i ==> a[j] == 0
    {
      a[i] := 0;
    }
    a[0] := b % BASE;
    a[1] := b / BASE;
    LowLimbs(a[..]);
    ValZero(a[2..]);
  }

  method GetLow64(a: Num) returns (r: nat)
    requires a.Length == WIDTH
    ensures r == Value(a) % (BASE * BASE)
  {
    LowLimbs(a[..]);
    OrHigh(a[0], a[1]);
    DivModUnique(Value(a), BASE * BASE, Val(a[2..]), a[0] + BASE * a[1]);
    r := Or(a[0], a[1] * BASE);
  }

  lemma OrHigh(x: Limb, y: Limb)
    ensures Or(x, y * BASE) == x + y * BASE < BASE * BASE
  {
    Pow2Of32();
    hide Pow2, Or;
    MultipleMod(y, BASE);
    OrDisjoint(x, y * BASE, 32);
  }

  lemma LowLimbs(s: seq<Limb>)
    requires |s| >= 2
    ensures Val(s) == s[0] + BASE * s[1] + BASE * BASE * Val(s[2..])
  {
    assert s[1..][1..] == s[2..];
    assert Val(s[1..]) == s[1] + BASE * Val(s[2..]);
  }

  // a += b; the operands may be the same number
  method AddAssign(a: Num, b: Num)
    requires a.Length == WIDTH && b.Length == WIDTH
    modifies a
    ensures Value(a) == (old(Value(a)) + old(Value(b))) % MODULUS
  {
    hide P, Val, AddPart;
    ghost var x, y := a[..], b[..];
    var carry := 0;
    AddStart(x, y);
    for i := 0 to WIDTH
      invariant 0 <= carry <= 1
      invariant forall j :: i <= j < WIDTH ==> a[j] == x[j]
      invariant a != b ==> b[..] == y
      invariant AddPart(a[..], x, y, i, carry)
    {
      var n := carry + a[i] + b[i];
      assert b[i] == y[i] && a[i] == x[i];
      AddStep(a[..], x, y, i, carry, n);
      a[i] := n % BASE;
      carry := n / BASE;
    }
    AddEnd(a[..], x, y, carry);
    DivModUnique(Val(x) + Val(y), MODULUS, carry, Value(a));
  }

  // The first i limbs of r are the sum of those of x and y, up to the carry.
  ghost predicate AddPart(r: seq<Limb>, x: seq<Limb>, y: seq<Limb>, i: nat, carry: int) {
    && |r| == |x| == |y| == WIDTH && i <= WIDTH
    && Val(r[..i]) + P(i) * carry == Val(x[..i]) + Val(y[..i])
  }

  lemma AddStart(x: seq<Limb>, y: seq<Limb>)
    requires |x| == |y| == WIDTH
    ensures AddPart(x, x, y, 0, 0)
  {}

  lemma AddStep(r: seq<Limb>, x: seq<Limb>, y: seq<Limb>, i: nat, carry: int, n: int)
    requires AddPart(r, x, y, i, carry) && i < WIDTH && 0 <= carry <= 1 && n == carry + x[i] + y[i]
    ensures 0 <= n / BASE <= 1 && AddPart(r[i := n % BASE], x, y, i + 1, n / BASE)
  {
    hide Val, P;
    var r' := r[i := n % BASE];
    assert r'[..i] == r[..i];
    ValSnoc(r', i);
    ValSnoc(x, i);
    ValSnoc(y, i);
    PNext(i);
    CarryStep(P(i), x[i], y[i], carry, n % BASE, n / BASE);
  }

  lemma AddEnd(r: seq<Limb>, x: seq<Limb>, y: seq<Limb>, carry: int)
    requires AddPart(r, x, y, WIDTH, carry)
    ensures Val(r) + P(WIDTH) * carry == Val(x) + Val(y) && 0 <= Val(r) < P(WIDTH)
  {
    hide Val, P;
    assert r[..WIDTH] == r && x[..WIDTH] == x && y[..WIDTH] == y;
    ValBound(r);
  }

  // ~a
  method Not(a: Num) returns (r: Num)
    requires a.Length == WIDTH
    ensures fresh(r) && r.Length == WIDTH && Value(r) == MODULUS - 1 - Value(a)
  {
    r := new Limb[WIDTH](_ => 0);
    for i := 0 to WIDTH
      invariant forall j :: 0 <= j < i ==> r[j] == BASE - 1 - a[j]
    {
      r[i] := BASE - 1 - a[i];
    }
    NotValue(r[..], a[..]);
  }

  lemma {:induction false} NotValue(r: seq<Limb>, a: seq<Limb>)
    requires |r| == |a| && forall j :: 0 <= j < |a| ==> r[j] == BASE - 1 - a[j]
    ensures Val(r) == P(|a|) - 1 - Val(a)
  {
    if a != [] {
      NotValue(r[1..], a[1..]);
    }
  }

  // ++a
  method Increment(a: Num)
    requires a.Length == WIDTH
    modifies a
    ensures Value(a) == (old(Value(a)) + 1) % MODULUS
  {
    hide P, Val;
    ghost var x := a[..];
    var i := 0;
    var carried := true;
    ValStart(x, x, 0);
    while i < WIDTH && carried
      invariant 0 <= i <= WIDTH
      invariant carried ==> forall j :: i <= j < WIDTH ==> a[j] == x[j]
      invariant carried ==> Val(a[..]) + P(i) == Val(x) + 1
      invariant !carried ==> Val(a[..]) == Val(x) + 1
      decreases WIDTH - i, carried
    {
      ghost var s := a[..];
      IncrementStep(s, i);
      if a[i] == BASE - 1 {
        a[i] := 0;
        assert a[..] == s[i := 0];
        i := i + 1;
      } else {
        a[i] := a[i] + 1;
        assert a[..] == s[i := s[i] + 1];
        carried := false;
      }
    }
    InRange(a);
    ValBound(x);
    DivModUnique(Val(x) + 1, MODULUS, if carried then 1 else 0, Value(a));
  }

  lemma IncrementStep(s: seq<Limb>, i: nat)
    requires i < |s|
    ensures s[i] == BASE - 1 ==> Val(s[i := 0]) + P(i + 1) == Val(s) + P(i)
    ensures s[i] < BASE - 1 ==> Val(s[i := s[i] + 1]) == Val(s) + P(i)
  {
    var p := P(i);
    if s[i] == BASE - 1 {
      ValUpdate(s, i, 0);
      assert p * (BASE - 1) == BASE * p - p;
    } else {
      ValUpdate(s, i, s[i] + 1);
      MulSum(p, s[i], 1);
    }
  }

  // -a
  method Negate(a: Num) returns (r: Num)
    requires a.Length == WIDTH
    ensures fresh(r) && r.Length == WIDTH && Value(r) == (MODULUS - Value(a)) % MODULUS
  {
    r := Not(a);
    Increment(r);
  }

  // a -= b
  method SubAssign(a: Num, b: Num)
    requires a.Length == WIDTH && b.Length == WIDTH
    modifies a
    ensures Value(a) == (old(Value(a)) - old(Value(b))) % MODULUS
    ensures old(Value(b)) <= old(Value(a)) ==> Value(a) == old(Value(a)) - old(Value(b))
  {
    InRange(a);
    InRange(b);
    ghost var x, y := Value(a), Value(b);
    var minus := Negate(b);
    AddAssign(a, minus);
    SubMod(x, y, MODULUS);
  }

  lemma SubMod(x: nat, y: nat, m: nat)
    requires x < m && y < m
    ensures (x + (m - y) % m) % m == (x - y) % m
    ensures y <= x ==> (x - y) % m == x - y
  {
    if y == 0 {
      DivModUnique(m, m, 1, 0);
    } else {
      DivModUnique(m - y, m, 0, m - y);
      if y <= x {
        DivModUnique(x + (m - y), m, 1, x - y);
        DivModUnique(x - y, m, 0, x - y);
      } else {
        DivModUnique(x + (m - y), m, 0, x + m - y);
        DivModUnique(x - y, m, -1, x + m - y);
      }
    }
    if y <= x {
      DivModUnique(x - y, m, 0, x - y);
    }
  }

  method CompareTo(a: Num, b: Num) returns (r: int)
    requires a.Length == WIDTH && b.Length == WIDTH
    ensures r == if Value(a) < Value(b) then -1 else if Value(a) > Value(b) then 1 else 0
  {
    var i := WIDTH - 1;
    while i >= 0
      invariant -1 <= i < WIDTH
      invariant forall j :: i < j < WIDTH ==> a[j] == b[j]
    {
      if a[i] < b[i] {
        TopLimbDecides(a[..], b[..], i);
        return -1;
      }
      if a[i] > b[i] {
        TopLimbDecides(b[..], a[..], i);
        return 1;
      }
      i := i - 1;
    }
    assert a[..] == b[..];
    r := 0;
  }

  // The highest limb that differs decides.
  lemma TopLimbDecides(s: seq<Limb>, t: seq<Limb>, i: nat)
    requires |s| == |t| && i < |s| && s[i] < t[i] && s[i + 1..] == t[i + 1..]
    ensures Val(s) < Val(t)
  {
    assert s == s[..i + 1] + s[i + 1..] && t == t[..i + 1] + t[i + 1..];
    ValAppend(s[..i + 1], s[i + 1..]);
    ValAppend(t[..i + 1], t[i + 1..]);
    ValSnoc(s, i);
    ValSnoc(t, i);
    ValBound(s[..i]);
    MulLess(P(i), s[i], t[i]);
  }

  // ---- bit length ----

  ghost predicate IsBitLength(v: nat, n: nat) {
    (n == 0 ==> v == 0) && (n > 0 ==> Pow2(n - 1) <= v < Pow2(n))
  }

  predicate BitSet(x: Limb, n: nat) {
    x / Pow2(n) % 2 == 1
  }

  // Position of the highest bit set plus one, or zero.
  method Bits(a: Num) returns (n: nat)
    requires a.Length == WIDTH
    ensures IsBitLength(Value(a), n) && n <= 256
  {
    var pos := WIDTH - 1;
    while pos >= 0
      invariant -1 <= pos < WIDTH
      invariant forall j :: pos < j < WIDTH ==> a[j] == 0
    {
      if a[pos] != 0 {
        var nbits := 31;
        Pow2Of32();
        while nbits > 0
          invariant 0 <= nbits <= 31 && a[pos] < Pow2(nbits + 1)
        {
          BitTest(a[pos], nbits);
          if BitSet(a[pos], nbits) {
            TopBit(a[..], pos, nbits);
            return 32 * pos + nbits + 1;
          }
          nbits := nbits - 1;
        }
        TopBit(a[..], pos, 0);
        return 32 * pos + 1;
      }
      pos := pos - 1;
    }
    ValZero(a[..]);
    n := 0;
  }

  lemma BitTest(x: Limb, n: nat)
    requires x < Pow2(n + 1)
    ensures BitSet(x, n) <==> Pow2(n) <= x
  {
    var p := Pow2(n);
    if x < p {
      DivModUnique(x, p, 0, x);
    } else {
      DivModUnique(x, p, 1, x - p);
    }
  }

  lemma TopBit(s: seq<Limb>, pos: nat, nbits: nat)
    requires |s| == WIDTH && pos < WIDTH && nbits <= 31
    requires forall j :: pos < j < WIDTH ==> s[j] == 0
    requires Pow2(nbits) <= s[pos] < Pow2(nbits + 1)
    ensures IsBitLength(Val(s), 32 * pos + nbits + 1)
  {
    hide Pow2, P, Val;
    assert s == s[..pos + 1] + s[pos + 1..];
    ValAppend(s[..pos + 1], s[pos + 1..]);
    ValZero(s[pos + 1..]);
    ValSnoc(s, pos);
    ValBound(s[..pos]);
    Pow2Split(pos, nbits);
    Pow2Split(pos, nbits + 1);
    MulMonotone(P(pos), Pow2(nbits), s[pos]);
    MulLess(P(pos), s[pos], Pow2(nbits + 1));
  }

  // ---- shifts ----

  // 32-bit shifts of one limb.
  function LimbShl(x: Limb, s: nat): (r: Limb)
    requires s < 32
  {
    x * Pow2(s) % BASE
  }

  function LimbShr(x: Limb, s: nat): (r: Limb)
    requires s < 32
  {
    ShrBound(x, s);
    x / Pow2(s)
  }

  lemma ShrBound(x: Limb, s: nat)
    ensures 0 <= x / Pow2(s) <= x
  {
    DivBounds(x, Pow2(s));
  }

  // A limb times 2^s: the part that stays and the part that moves up.
  lemma ShlParts(x: Limb, s: nat)
    requires s < 32
    ensures x * Pow2(s) == LimbShl(x, s) + BASE * (x * Pow2(s) / BASE)
    ensures LimbShl(x, s) % Pow2(s) == 0 && LimbShl(x, s) <= BASE - Pow2(s) && 0 <= x * Pow2(s) / BASE < Pow2(s)
    ensures s > 0 ==> LimbShr(x, 32 - s) == x * Pow2(s) / BASE
  {
    hide Pow2;
    Pow2Add(s, 32 - s);
    Pow2Of32();
    SplitProduct(x, Pow2(s), Pow2(32 - s), BASE);
    MultipleMod(x % Pow2(32 - s), Pow2(s));
  }

  // r <<= shift
  method ShlAssign(r: Num, shift: nat)
    requires r.Length == WIDTH
    modifies r
    ensures Value(r) == old(Value(r)) * Pow2(shift) % MODULUS
  {
    hide Pow2, P, Val, ShlInv;
    var a := Copy(r);
    ghost var x := a[..];
    SetZero(r);
    var k, s := shift / 32, shift % 32;
    ghost var q: nat := 0;
    ShlStart(x, r[..], k, s);
    for i := 0 to WIDTH
      invariant a[..] == x
      invariant ShlInv(x, r[..], k, s, i, q)
    {
      ghost var before := r[..];
      ShlRoom(x, before, k, s, i, q);
      if i + k + 1 < WIDTH && s != 0 {
        r[i + k + 1] := Or(r[i + k + 1], LimbShr(a[i], 32 - s));
      }
      if i + k < WIDTH {
        r[i + k] := Or(r[i + k], LimbShl(a[i], s));
      }
      assert r[..] == ShlPut(before, a[i], k, s, i);
      q := ShlStep(x, before, k, s, i, q);
    }
    ShlEnd(x, r[..], shift, k, s, q);
  }

  method SetZero(r: Num)
    requires r.Length == WIDTH
    modifies r
    ensures Value(r) == 0 && forall i :: 0 <= i < WIDTH ==> r[i] == 0
  {
    for i := 0 to WIDTH
      invariant forall j :: 0 <= j < i ==> r[j] == 0
    {
      r[i] := 0;
    }
    ValZero(r[..]);
  }

  // After i limbs: what they contribute is in place, up to multiples of 2^256; above them
  // only the bits carried out of the last limb are set.
  ghost predicate ShlInv(x: seq<Limb>, r: seq<Limb>, k: nat, s: nat, i: nat, q: nat) {
    && |x| == |r| == WIDTH && s < 32 && i <= WIDTH
    && (forall j :: i + k < j < WIDTH ==> r[j] == 0)
    && (i + k < WIDTH ==> r[i + k] < Pow2(s))
    && Val(r) + q * MODULUS == Val(x[..i]) * Pow2(32 * k + s)
  }

  // The part of a limb that moves up, and the result with both parts in place.
  ghost function ShlHigh(x: Limb, s: nat): int {
    x * Pow2(s) / BASE
  }

  ghost function ShlPut(r: seq<Limb>, x: Limb, k: nat, s: nat, i: nat): seq<Limb>
    requires |r| == WIDTH && s < 32
    requires i + k + 1 < WIDTH ==> 0 <= ShlHigh(x, s) < BASE
    requires i + k < WIDTH ==> r[i + k] + LimbShl(x, s) < BASE
  {
    if i + k + 1 < WIDTH then r[i + k + 1 := ShlHigh(x, s)][i + k := r[i + k] + LimbShl(x, s)]
    else if i + k < WIDTH then r[i + k := r[i + k] + LimbShl(x, s)]
    else r
  }

  lemma ShlStart(x: seq<Limb>, r: seq<Limb>, k: nat, s: nat)
    requires |x| == |r| == WIDTH && s < 32 && (forall j :: 0 <= j < WIDTH ==> r[j] == 0)
    ensures ShlInv(x, r, k, s, 0, 0)
  {
    ValZero(r);
    assert x[..0] == [];
  }

  // Both parts fit: the bits already there do not overlap with the new ones.
  lemma ShlRoom(x: seq<Limb>, r: seq<Limb>, k: nat, s: nat, i: nat, q: nat)
    requires ShlInv(x, r, k, s, i, q) && i < WIDTH
    ensures 0 <= ShlHigh(x[i], s) < Pow2(s) <= BASE
    ensures i + k + 1 < WIDTH ==>
              r[i + k + 1] == 0 && (s > 0 ==> Or(0, LimbShr(x[i], 32 - s)) == ShlHigh(x[i], s))
                && (s == 0 ==> ShlHigh(x[i], s) == 0)
    ensures i + k < WIDTH ==>
              r[i + k] + LimbShl(x[i], s) < BASE && Or(r[i + k], LimbShl(x[i], s)) == r[i + k] + LimbShl(x[i], s)
  {
    ShlParts(x[i], s);
    Pow2Monotone(s, 32);
    Pow2Of32();
    if i + k < WIDTH {
      OrDisjoint(r[i + k], LimbShl(x[i], s), s);
    }
  }

  // The limb at i, times 2^s, at its place.
  lemma ShlTerm(x: seq<Limb>, k: nat, s: nat, i: nat)
    requires |x| == WIDTH && i < WIDTH
    ensures Val(x[..i + 1]) * Pow2(32 * k + s) == Val(x[..i]) * Pow2(32 * k + s) + P(i + k) * (x[i] * Pow2(s))
  {
    hide Pow2, P, Val;
    ValSnoc(x, i);
    PAdd(i, k);
    Pow2Split(k, s);
    MulSumRight(Val(x[..i]), P(i) * x[i], Pow2(32 * k + s));
    Product4(P(i), x[i], P(k), Pow2(s), Pow2(32 * k + s), P(i + k));
  }

  lemma ShlPutValue(r: seq<Limb>, x: Limb, k: nat, s: nat, i: nat)
    requires |r| == WIDTH && s < 32
    requires i + k + 1 < WIDTH ==> 0 <= ShlHigh(x, s) < BASE && r[i + k + 1] == 0
    requires i + k < WIDTH ==> r[i + k] + LimbShl(x, s) < BASE
    ensures i + k + 1 < WIDTH ==> Val(ShlPut(r, x, k, s, i)) == Val(r) + P(i + k) * (x * Pow2(s))
    ensures i + k + 1 == WIDTH ==>
              Val(ShlPut(r, x, k, s, i)) + MODULUS * ShlHigh(x, s) == Val(r) + P(i + k) * (x * Pow2(s))
  {
    hide Pow2, Val;
    ShlParts(x, s);
    var hi, lo := ShlHigh(x, s), LimbShl(x, s);
    MulSum(P(i + k), lo, BASE * hi);
    MulAssoc(P(i + k), BASE, hi);
    if i + k + 1 < WIDTH {
      ValAdd(r, i + k + 1, hi);
      ValAdd(r[i + k + 1 := hi], i + k, lo);
    } else if i + k < WIDTH {
      ValAdd(r, i + k, lo);
    }
  }

  lemma ShlStep(x: seq<Limb>, r: seq<Limb>, k: nat, s: nat, i: nat, q: nat) returns (q': nat)
    requires ShlInv(x, r, k, s, i, q) && i < WIDTH
    requires 0 <= ShlHigh(x[i], s) < Pow2(s) <= BASE
    requires i + k < WIDTH ==> r[i + k] + LimbShl(x[i], s) < BASE
    ensures ShlInv(x, ShlPut(r, x[i], k, s, i), k, s, i + 1, q')
  {
    hide Pow2, P, Val, ShlHigh;
    ShlTerm(x, k, s, i);
    ShlPutValue(r, x[i], k, s, i);
    if i + k + 1 < WIDTH {
      q' := q;
    } else if i + k < WIDTH {
      q' := q + ShlHigh(x[i], s);
      MulSumRight(q, ShlHigh(x[i], s), MODULUS);
    } else {
      var term := x[i] * Pow2(s);
      q' := q + P(i + k - WIDTH) * term;
      PAdd(WIDTH, i + k - WIDTH);
      MulAssoc(P(WIDTH), P(i + k - WIDTH), term);
      MulSumRight(q, P(i + k - WIDTH) * term, MODULUS);
    }
  }

  lemma ShlEnd(x: seq<Limb>, r: seq<Limb>, shift: nat, k: nat, s: nat, q: nat)
    requires ShlInv(x, r, k, s, WIDTH, q) && shift == 32 * k + s
    ensures Val(r) == Val(x) * Pow2(shift) % MODULUS
  {
    hide Pow2, P, Val;
    assert x[..WIDTH] == x;
    ValBound(r);
    DivModUnique(Val(x) * Pow2(shift), MODULUS, q, Val(r));
  }

  // r >>= shift
  method ShrAssign(r: Num, shift: nat)
    requires r.Length == WIDTH
    modifies r
    ensures Value(r) == old(Value(r)) / Pow2(shift)
  {
    hide Pow2, P, Val, ShrInv;
    var a := Copy(r);
    ghost var x := a[..];
    SetZero(r);
    var k, s := shift / 32, shift % 32;
    ghost var rho: nat := 0;
    ShrStart(x, r[..], k, s);
    for i := 0 to WIDTH
      invariant a[..] == x
      invariant ShrInv(x, r[..], k, s, i, rho)
    {
      ghost var before := r[..];
      ShrRoom(x, before, k, s, i, rho);
      if i - k - 1 >= 0 && s != 0 {
        r[i - k - 1] := Or(r[i - k - 1], LimbShl(a[i], 32 - s));
      }
      if i - k >= 0 {
        r[i - k] := Or(r[i - k], LimbShr(a[i], s));
      }
      assert r[..] == ShrPut(before, a[i], k, s, i);
      rho := ShrStep(x, before, k, s, i, rho);
    }
    ShrEnd(x, r[..], shift, k, s, rho);
  }

  // After i limbs: the quotient of what they stand for is in place, `rho` is the remainder.
  ghost predicate ShrInv(x: seq<Limb>, r: seq<Limb>, k: nat, s: nat, i: nat, rho: nat) {
    && |x| == |r| == WIDTH && s < 32 && i <= WIDTH
    && (forall j :: 0 <= j < WIDTH && j >= i - k ==> r[j] == 0)
    && (i > k ==> r[i - k - 1] < Pow2(32 - s))
    && Val(r) * Pow2(32 * k + s) + rho == Val(x[..i])
    && rho < Pow2(32 * k + s)
    && (i <= k ==> rho < P(i) && Val(r) == 0)
  }

  // The bits of a limb that move down into the limb below.
  ghost function ShrLow(x: Limb, s: nat): int
    requires s < 32
  {
    x % Pow2(s) * Pow2(32 - s)
  }

  ghost function ShrPut(r: seq<Limb>, x: Limb, k: nat, s: nat, i: nat): seq<Limb>
    requires |r| == WIDTH && s < 32 && i < WIDTH
    requires i > k ==> 0 <= r[i - k - 1] + ShrLow(x, s) < BASE
  {
    if i > k then r[i - k - 1 := r[i - k - 1] + ShrLow(x, s)][i - k := LimbShr(x, s)]
    else if i == k then r[0 := LimbShr(x, s)]
    else r
  }

  lemma ShrStart(x: seq<Limb>, r: seq<Limb>, k: nat, s: nat)
    requires |x| == |r| == WIDTH && s < 32 && (forall j :: 0 <= j < WIDTH ==> r[j] == 0)
    ensures ShrInv(x, r, k, s, 0, 0)
  {
    ValZero(r);
    assert x[..0] == [];
  }

  // A limb divided by 2^s: quotient, and remainder shifted to the top.
  lemma ShrParts(x: Limb, s: nat)
    requires s < 32
    ensures x == LimbShr(x, s) * Pow2(s) + x % Pow2(s) && 0 <= x % Pow2(s) < Pow2(s)
    ensures LimbShr(x, s) < Pow2(32 - s) && Pow2(s) * Pow2(32 - s) == BASE
    ensures 0 <= ShrLow(x, s) <= BASE - Pow2(32 - s) && ShrLow(x, s) % Pow2(32 - s) == 0
    ensures s > 0 ==> LimbShl(x, 32 - s) == ShrLow(x, s)
    ensures s == 0 ==> ShrLow(x, s) == 0
  {
    hide Pow2;
    Pow2Add(32 - s, s);
    Pow2Of32();
    SplitProduct(x, Pow2(32 - s), Pow2(s), BASE);
    MultipleMod(x % Pow2(s), Pow2(32 - s));
    DivModParts(x, Pow2(s));
    if s == 0 {
      Pow2Zero();
    }
  }

  lemma Pow2Zero()
    ensures Pow2(0) == 1
  {}

  lemma DivModParts(x: int, d: int)
    requires d >= 1
    ensures x == x / d * d + x % d && 0 <= x % d < d
  {}

  lemma ShrRoom(x: seq<Limb>, r: seq<Limb>, k: nat, s: nat, i: nat, rho: nat)
    requires ShrInv(x, r, k, s, i, rho) && i < WIDTH
    ensures i > k ==> 0 <= r[i - k - 1] + ShrLow(x[i], s) < BASE
                      && (s > 0 ==> Or(r[i - k - 1], LimbShl(x[i], 32 - s)) == r[i - k - 1] + ShrLow(x[i], s))
                      && (s == 0 ==> ShrLow(x[i], s) == 0)
    ensures i >= k ==> r[i - k] == 0 && Or(0, LimbShr(x[i], s)) == LimbShr(x[i], s)
  {
    hide Pow2, P, Val;
    ShrParts(x[i], s);
    if i > k {
      OrDisjoint(r[i - k - 1], ShrLow(x[i], s), 32 - s);
    }
  }

  lemma ShrPutValue(r: seq<Limb>, x: Limb, k: nat, s: nat, i: nat)
    requires |r| == WIDTH && s < 32 && i < WIDTH
    requires i > k ==> 0 <= r[i - k - 1] + ShrLow(x, s) < BASE && r[i - k] == 0
    requires i == k ==> r[0] == 0
    ensures i > k ==> Val(ShrPut(r, x, k, s, i)) == Val(r) + P(i - k - 1) * ShrLow(x, s) + P(i - k) * LimbShr(x, s)
    ensures i == k ==> Val(ShrPut(r, x, k, s, i)) == Val(r) + LimbShr(x, s)
  {
    hide Pow2, Val;
    if i > k {
      ValAdd(r, i - k - 1, ShrLow(x, s));
      ValAdd(r[i - k - 1 := r[i - k - 1] + ShrLow(x, s)], i - k, LimbShr(x, s));
    } else if i == k {
      ValAdd(r, 0, LimbShr(x, s));
    }
  }

  // What a limb adds to the quotient, times the divisor, is what it stands for.
  lemma ShrTerm(x: Limb, k: nat, s: nat, i: nat)
    requires s < 32 && i > k
    ensures (P(i - k - 1) * ShrLow(x, s) + P(i - k) * LimbShr(x, s)) * Pow2(32 * k + s) == P(i) * x
  {
    hide Pow2;
    ShrParts(x, s);
    PAdd(i - k, k);
    Pow2Split(k, s);
    ShrTermArith(P(i - k - 1), P(i - k), P(k), P(i), x % Pow2(s), LimbShr(x, s), Pow2(s), Pow2(32 - s), x,
                 Pow2(32 * k + s));
  }

  lemma ShrTermArith(p1: int, p: int, pk: int, pi: int, m: int, q: int, d: int, e: int, x: int, w: int)
    requires p == BASE * p1 && pi == p * pk && d * e == BASE && x == q * d + m && w == pk * d
    ensures (p1 * (m * e) + p * q) * w == pi * x
  {
    assert p1 * (m * e) * d == p1 * m * (d * e);
    assert (p1 * (m * e) + p * q) * d == p * m + p * (q * d);
    assert (p1 * (m * e) + p * q) * w == ((p1 * (m * e) + p * q) * d) * pk;
    assert p * m + p * (q * d) == p * x;
    assert (p * x) * pk == (p * pk) * x;
  }

  lemma ShrStep(x: seq<Limb>, r: seq<Limb>, k: nat, s: nat, i: nat, rho: nat) returns (rho': nat)
    requires ShrInv(x, r, k, s, i, rho) && i < WIDTH
    requires i > k ==> 0 <= r[i - k - 1] + ShrLow(x[i], s) < BASE
    ensures ShrInv(x, ShrPut(r, x[i], k, s, i), k, s, i + 1, rho')
  {
    hide Pow2, P, Val, ShrLow;
    ValSnoc(x, i);
    ShrParts(x[i], s);
    ShrPutValue(r, x[i], k, s, i);
    var w := Pow2(32 * k + s);
    if i > k {
      rho' := rho;
      ShrTerm(x[i], k, s, i);
      MulSumRight(Val(r), P(i - k - 1) * ShrLow(x[i], s) + P(i - k) * LimbShr(x[i], s), w);
    } else if i == k {
      Pow2Split(k, s);
      var q, m := LimbShr(x[i], s), x[i] % Pow2(s);
      rho' := ShrFirst(q, m, Pow2(s), P(k), rho, x[i], w);
    } else {
      rho' := rho + P(i) * x[i];
      Pow2Split(k, s);
      ShrBelow(P(i), P(i + 1), P(k), Pow2(s), w, x[i], rho) by {
        PStep(i, k);
      }
    }
  }

  // A limb that is shifted out altogether.
  lemma ShrBelow(p: int, p': int, pk: int, d: int, w: int, x: Limb, rho: int)
    requires p >= 1 && p' == BASE * p <= pk && d >= 1 && w == pk * d && 0 <= rho < p
    ensures 0 <= rho + p * x < p' <= w
  {
    MulLess(p, x, BASE);
    MulMonotone(pk, 1, d);
  }

  // The first limb that is not shifted out altogether.
  lemma ShrFirst(q: int, m: int, d: int, pk: int, rho: nat, x: int, w: int) returns (rho': nat)
    requires x == q * d + m && 0 <= m < d && pk >= 1 && 0 <= rho < pk && w == pk * d
    ensures q * w + rho' == rho + pk * x && rho' < w
  {
    assert pk * x == pk * (q * d) + pk * m;
    assert pk * (q * d) == q * w;
    MulLess(pk, m, d);
    rho' := rho + pk * m;
  }

  lemma PStep(i: nat, k: nat)
    requires i < k
    ensures P(i + 1) == BASE * P(i) <= P(k)
  {
    PIsPow2(i + 1);
    PIsPow2(k);
    Pow2Monotone(32 * (i + 1), 32 * k);
  }

  lemma ShrEnd(x: seq<Limb>, r: seq<Limb>, shift: nat, k: nat, s: nat, rho: nat)
    requires ShrInv(x, r, k, s, WIDTH, rho) && shift == 32 * k + s
    ensures Val(r) == Val(x) / Pow2(shift)
  {
    hide Pow2, P, Val;
    assert x[..WIDTH] == x;
    DivModUnique(Val(x), Pow2(shift), Val(r), rho);
  }

  // ---- multiplication ----

  // a *= b32
  method MulWordAssign(a: Num, b32: Limb)
    requires a.Length == WIDTH
    modifies a
    ensures Value(a) == old(Value(a)) * b32 % MODULUS
  {
    hide P, Val, MulPart;
    ghost var x := a[..];
    var carry: Limb := 0;
    ValStart(x, x, b32);
    MulFold(a[..], x, b32, 0, carry);
    for i := 0 to WIDTH
      invariant MulPart(a[..], x, b32, i, carry)
      invariant forall j :: i <= j < WIDTH ==> a[j] == x[j]
    {
      ghost var r := a[..];
      ProductFits(b32, a[i], carry, 0);
      var n := carry + b32 * a[i];
      MulUnfold(r, x, b32, i, carry);
      ghost var r' := r[i := n % BASE];
      assert r'[..i] == r[..i];
      ValSnoc(r', i);
      ValSnoc(x, i);
      PNext(i);
      MulStep(P(i), b32, x[i], carry, 0, n, Val(r[..i]), Val(x[..i]));
      MulFold(r', x, b32, i + 1, n / BASE);
      a[i] := n % BASE;
      carry := n / BASE;
      assert a[..] == r';
    }
    MulUnfold(a[..], x, b32, WIDTH, carry);
    assert a[..][..WIDTH] == a[..] && x[..WIDTH] == x;
    ValBound(a[..]);
    DivModUnique(Val(x) * b32, MODULUS, carry, Value(a));
  }

  // The first i limbs of r are those of x times b, up to the carry.
  ghost predicate MulPart(r: seq<Limb>, x: seq<Limb>, b: Limb, i: nat, carry: Limb) {
    && |r| == |x| == WIDTH && i <= WIDTH
    && Val(r[..i]) + P(i) * carry == Val(x[..i]) * b
  }

  lemma MulFold(r: seq<Limb>, x: seq<Limb>, b: Limb, i: nat, carry: Limb)
    requires |r| == |x| == WIDTH && i <= WIDTH && Val(r[..i]) + P(i) * carry == Val(x[..i]) * b
    ensures MulPart(r, x, b, i, carry)
  {}

  lemma MulUnfold(r: seq<Limb>, x: seq<Limb>, b: Limb, i: nat, carry: Limb)
    requires MulPart(r, x, b, i, carry)
    ensures |r| == |x| == WIDTH && i <= WIDTH && Val(r[..i]) + P(i) * carry == Val(x[..i]) * b
  {}

  lemma PNext(i: nat)
    ensures P(i + 1) == BASE * P(i)
  {}

  lemma ValStart(s: seq<Limb>, t: seq<Limb>, b: int)
    ensures Val(s[..0]) == 0 && Val(t[..0]) * b == 0 && P(0) == 1
  {}

  // A 64-bit word holds a product of limbs plus two more limbs.
  lemma ProductFits(x: Limb, y: Limb, c: Limb, d: Limb)
    ensures 0 <= x * y && 0 <= (c + d + x * y) / BASE < BASE && c + d + x * y < BASE * BASE
  {
    MulMonotone(x, y, BASE - 1);
    MulMonotone(BASE - 1, x, BASE - 1);
  }

  lemma MulStep(p: int, b: int, x: int, c: int, d: int, n: int, va: int, vx: int)
    requires n == c + d + b * x && va + p * c == vx * b
    ensures va + p * (n % BASE) + (BASE * p) * (n / BASE) == (vx + p * x) * b + p * d
  {
    var q, r := n / BASE, n % BASE;
    assert n == BASE * q + r;
    assert p * n == p * r + (BASE * p) * q by { MulSum(p, BASE * q, r); assert p * (BASE * q) == (BASE * p) * q; }
    assert p * n == p * c + p * d + p * (b * x) by { MulSum(p, c + d, b * x); MulSum(p, c, d); }
    assert (vx + p * x) * b == vx * b + p * (b * x) by { MulSumRight(vx, p * x, b); }
  }

  // a *= b, schoolbook; the operands may be the same number.
  method MulAssign(a: Num, b: Num)
    requires a.Length == WIDTH && b.Length == WIDTH
    modifies a
    ensures Value(a) == old(Value(a)) * old(Value(b)) % MODULUS
  {
    hide P, Val;
    var r := Zero();
    ghost var x, y := a[..], b[..];
    ghost var q := 0;
    ValStart(x, x, Val(y));
    for j := 0 to WIDTH
      invariant a[..] == x && b[..] == y
      invariant Val(r[..]) + MODULUS * q == Val(x[..j]) * Val(y)
    {
      ghost var v := Value(r);
      assert a[j] == x[j];
      var carry := AddRow(r, a[j], b, j);
      ghost var q' := RowEnd(y, j, x[j], v, Value(r), carry);
      ValSnoc(x, j);
      MulSumRight(Val(x[..j]), P(j) * x[j], Val(y));
      MulSum(MODULUS, q, q');
      q := q + q';
    }
    assert x[..WIDTH] == x;
    ValBound(r[..]);
    DivModUnique(Val(x) * Val(y), MODULUS, q, Value(r));
    for i := 0 to WIDTH
      invariant forall k :: 0 <= k < i ==> a[k] == r[k]
      invariant Value(r) == Val(x) * Val(y) % MODULUS
    {
      a[i] := r[i];
    }
    assert a[..] == r[..];
  }

  // One row of the product: r += xj * b, shifted up j limbs, dropping what lies above.
  method AddRow(r: Num, xj: Limb, b: Num, j: nat) returns (carry: Limb)
    requires r.Length == WIDTH && b.Length == WIDTH && r != b && j < WIDTH
    modifies r
    ensures Value(r) + MODULUS * carry == old(Value(r)) + P(j) * (xj * Val(b[..WIDTH - j]))
  {
    hide P, Val;
    carry := 0;
    ghost var v := Value(r);
    RowStart(b[..], j, xj);
    for i := 0 to WIDTH - j
      invariant Value(r) + P(i + j) * carry == v + P(j) * (xj * Val(b[..i]))
    {
      ProductFits(xj, b[i], carry, r[i + j]);
      var n := carry + r[i + j] + xj * b[i];
      RowStep(r[..], b[..], i, j, xj, carry, n, v);
      r[i + j] := n % BASE;
      carry := n / BASE;
      assert b[..i + 1] == b[..][..i + 1];
    }
  }

  lemma RowStart(y: seq<Limb>, j: nat, xj: Limb)
    ensures P(j) * (xj * Val(y[..0])) == 0
  {}

  lemma RowStep(r: seq<Limb>, y: seq<Limb>, i: nat, j: nat, xj: Limb, c: Limb, n: nat, v: int)
    requires |r| == WIDTH && |y| == WIDTH && i + j < WIDTH && n == c + r[i + j] + xj * y[i] && n < BASE * BASE
    requires Val(r) + P(i + j) * c == v + P(j) * (xj * Val(y[..i]))
    ensures Val(r[i + j := n % BASE]) + P(i + j + 1) * (n / BASE) == v + P(j) * (xj * Val(y[..i + 1]))
  {
    hide P, Val;
    ValUpdate(r, i + j, n % BASE);
    ValSnoc(y, i);
    PNext(i + j);
    PAdd(j, i);
    RowArith(P(j), P(i), P(i + j), xj, y[i], Val(y[..i]), c, r[i + j], n);
  }

  lemma RowArith(pj: int, pi: int, p: int, x: int, y: int, vy: int, c: int, r: int, n: int)
    requires p == pj * pi && n == c + r + x * y
    ensures p * (n % BASE) - p * r + (BASE * p) * (n / BASE) - p * c == pj * (x * (vy + pi * y)) - pj * (x * vy)
  {
    var q, m := n / BASE, n % BASE;
    assert n == BASE * q + m;
    assert p * n == p * m + (BASE * p) * q by { MulSum(p, BASE * q, m); assert p * (BASE * q) == (BASE * p) * q; }
    assert p * n == p * c + p * r + p * (x * y) by { MulSum(p, c + r, x * y); MulSum(p, c, r); }
    assert pj * (x * (vy + pi * y)) == pj * (x * vy) + pj * (x * (pi * y)) by {
      MulSum(x, vy, pi * y);
      MulSum(pj, x * vy, x * (pi * y));
    }
    RowTerm(pj, pi, p, x, y);
  }

  lemma RowTerm(pj: int, pi: int, p: int, x: int, y: int)
    requires p == pj * pi
    ensures pj * (x * (pi * y)) == p * (x * y)
  {
    assert x * (pi * y) == pi * (x * y);
    MulAssoc(pj, pi, x * y);
  }

  // What a row drops is a multiple of 2^256.
  lemma RowEnd(y: seq<Limb>, j: nat, xj: Limb, v: int, v': int, carry: Limb) returns (q: nat)
    requires |y| == WIDTH && j < WIDTH
    requires v' + MODULUS * carry == v + P(j) * (xj * Val(y[..WIDTH - j]))
    ensures v' + MODULUS * q == v + (P(j) * xj) * Val(y)
  {
    hide P, Val;
    var lo, hi := y[..WIDTH - j], y[WIDTH - j..];
    assert y == lo + hi;
    ValAppend(lo, hi);
    PAdd(j, WIDTH - j);
    q := carry + xj * Val(hi);
    RowEndArith(P(j), P(WIDTH - j), MODULUS, xj, Val(lo), Val(hi), carry);
  }

  lemma RowEndArith(pj: int, pk: int, m: int, x: int, lo: int, hi: int, c: int)
    requires m == pj * pk
    ensures (pj * x) * (lo + pk * hi) == pj * (x * lo) + m * (c + x * hi) - m * c
  {
    MulAssoc(pj, x, lo + pk * hi);
    MulSum(x, lo, pk * hi);
    MulSum(pj, x * lo, x * (pk * hi));
    RowTerm(pj, pk, m, x, hi);
    MulSum(m, c, x * hi);
  }

  // ---- division ----

  // num /= divisor, by shift, compare and subtract; `ok` is false where the source throws.
  method DivAssign(a: Num, b: Num) returns (ok: bool)
    requires a.Length == WIDTH && b.Length == WIDTH
    modifies a
    ensures ok <==> old(Value(b)) != 0
    ensures ok ==> Value(a) == old(Value(a)) / old(Value(b))
    ensures !ok ==> Value(a) == 0
  {
    hide Pow2, P, Val, LowZero, DivInv, Times, IsBitLength, Or;
    var div := Copy(b);
    var num := Copy(a);
    ghost var n, d := Value(num), Value(div);
    SetZero(a);
    var numBits := Bits(num);
    var divBits := Bits(div);
    if divBits == 0 {
      return false;
    }
    DivisorPositive(d, divBits);
    if divBits > numBits {
      QuotientZero(n, d, numBits, divBits);
      return true;
    }
    var shift: int := numBits - divBits;
    Aligned(n, d, numBits, divBits);
    NothingSet(a[..], shift);
    ShlAssign(div, shift);
    while shift >= 0
      invariant -1 <= shift < 256
      invariant DivInv(n, d, Value(a), Value(num), shift)
      invariant shift >= 0 ==> Value(div) == Times(d, shift)
      invariant LowZero(a[..], shift)
    {
      var cmp := CompareTo(num, div);
      DivStep(n, d, Value(a), Value(num), shift);
      ghost var before := a[..];
      SetBit(before, shift);
      if cmp >= 0 {
        SubAssign(num, div);
        a[shift / 32] := Or(a[shift / 32], Pow2(shift % 32));
        assert a[..] == before[shift / 32 := before[shift / 32] + Pow2(shift % 32)];
      }
      ShrAssign(div, 1);
      shift := shift - 1;
    }
    DivEnd(n, d, Value(a), Value(num));
    ok := true;
  }

  // Nothing at or below bit `shift` is set yet.
  ghost predicate LowZero(s: seq<Limb>, shift: int) {
    && |s| == WIDTH && -1 <= shift < 256
    && (forall j :: 0 <= j < WIDTH && 32 * j + 32 <= shift + 1 ==> s[j] == 0)
    && (shift >= 0 ==> s[shift / 32] % Pow2(shift % 32 + 1) == 0)
  }

  lemma SetBit(s: seq<Limb>, shift: nat)
    requires LowZero(s, shift)
    ensures LowZero(s, shift - 1)
    ensures var j, bit := shift / 32, Pow2(shift % 32);
            && s[j] + bit < BASE && Or(s[j], bit) == s[j] + bit
            && LowZero(s[j := s[j] + bit], shift - 1)
            && Val(s[j := s[j] + bit]) == Val(s) + Pow2(shift)
  {
    hide Pow2, P, Val, Or, LowZero;
    var j, t := shift / 32, shift % 32;
    LimbLowZero(s, shift);
    BitRoom(s[j], t);
    ValAdd(s, j, Pow2(t));
    Pow2Split(j, t);
    OneLower(s, shift, s[j]);
    assert s[j := s[j]] == s;
    OneLower(s, shift, s[j] + Pow2(t));
  }

  lemma LimbLowZero(s: seq<Limb>, shift: nat)
    requires LowZero(s, shift)
    ensures |s| == WIDTH && shift / 32 < WIDTH && s[shift / 32] % Pow2(shift % 32 + 1) == 0
  {
    hide Pow2;
  }

  lemma OneLower(s: seq<Limb>, shift: nat, x: Limb)
    requires LowZero(s, shift) && x % Pow2(shift % 32) == 0
    ensures |s| == WIDTH && shift / 32 < WIDTH && LowZero(s[shift / 32 := x], shift - 1)
  {
    hide Pow2;
    var j, t := shift / 32, shift % 32;
    if t > 0 {
      assert (shift - 1) / 32 == j && (shift - 1) % 32 == t - 1;
    } else if j > 0 {
      assert (shift - 1) / 32 == j - 1 && s[j - 1] == 0;
      DivModUnique(0, Pow2((shift - 1) % 32 + 1), 0, 0);
    }
  }

  lemma DivisorPositive(d: nat, divBits: nat)
    requires IsBitLength(d, divBits) && divBits > 0
    ensures d >= 1
  {}

  lemma QuotientZero(n: nat, d: nat, numBits: nat, divBits: nat)
    requires IsBitLength(n, numBits) && IsBitLength(d, divBits) && divBits > numBits
    ensures n < d && n / d == 0
  {
    Pow2Monotone(numBits, divBits - 1);
    DivModUnique(n, d, 0, n);
  }

  // The divisor shifted up.
  ghost function Times(d: nat, shift: nat): nat {
    d * Pow2(shift)
  }

  // Partial quotient q and remainder r, with the bits from `shift` down still to come.
  ghost predicate DivInv(n: nat, d: nat, q: nat, r: nat, shift: int) {
    -1 <= shift && n == q * d + r && r < d * Pow2(shift + 1)
  }

  lemma NothingSet(s: seq<Limb>, shift: nat)
    requires |s| == WIDTH && shift < 256 && forall j :: 0 <= j < WIDTH ==> s[j] == 0
    ensures LowZero(s, shift)
  {
    hide Pow2;
    DivModUnique(0, Pow2(shift % 32 + 1), 0, 0);
  }

  // Aligned at the top, the divisor still fits and the dividend is less than twice it.
  lemma Aligned(n: nat, d: nat, numBits: nat, divBits: nat)
    requires IsBitLength(n, numBits) && IsBitLength(d, divBits) && 0 < divBits <= numBits <= 256
    ensures var shift := numBits - divBits; d * Pow2(shift) % MODULUS == Times(d, shift) && DivInv(n, d, 0, n, shift)
  {
    hide Pow2, P;
    var shift := numBits - divBits;
    Pow2Add(divBits, shift);
    Pow2Add(divBits - 1, shift + 1);
    Pow2Monotone(numBits, 256);
    PIsPow2(8);
    AlignedArith(d, Pow2(divBits - 1), Pow2(divBits), Pow2(shift), Pow2(shift + 1), Pow2(numBits));
    DivModUnique(d * Pow2(shift), MODULUS, 0, d * Pow2(shift));
  }

  lemma AlignedArith(d: int, lo: int, hi: int, p: int, p2: int, top: int)
    requires lo <= d < hi && p >= 1 && p2 >= 1 && hi * p == top && lo * p2 == top && d >= 0
    ensures 0 <= d * p < top && top <= d * p2
  {
    MulLess(p, d, hi);
    MulMonotone(p2, lo, d);
  }

  // One round: quotient and remainder stay right, and the range of the remainder is halved.
  lemma DivStep(n: nat, d: nat, q: nat, r: nat, shift: nat)
    requires d >= 1 && DivInv(n, d, q, r, shift)
    ensures r >= Times(d, shift) ==> DivInv(n, d, q + Pow2(shift), r - Times(d, shift), shift - 1)
    ensures r < Times(d, shift) ==> DivInv(n, d, q, r, shift - 1)
    ensures shift > 0 ==> Times(d, shift) / Pow2(1) == Times(d, shift - 1)
  {
    if shift > 0 {
      assert Pow2(1) == 2 && Pow2(shift) == 2 * Pow2(shift - 1);
      HalfProduct(d, Pow2(shift - 1), Pow2(shift));
    }
    hide Pow2;
    Pow2Double(shift);
    MulSumRight(q, Pow2(shift), d);
    MulSum(d, Pow2(shift), Pow2(shift));
  }

  lemma HalfProduct(d: int, h: int, p: int)
    requires p == 2 * h
    ensures d * p / 2 == d * h
  {
    assert d * p == 2 * (d * h);
  }

  lemma DivEnd(n: nat, d: nat, q: nat, r: nat)
    requires d >= 1 && DivInv(n, d, q, r, -1)
    ensures n / d == q && n % d == r
  {
    DivModUnique(n, d, q, r);
  }
}
