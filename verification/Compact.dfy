/** The compact encoding of difficulty targets: one byte of size, a sign bit and a
    23-bit mantissa, standing for mantissa * 256^(size - 3); and the work of a block. */
module Compact {
  import opened Limbs
  import opened Arith256

  function SizeOf(c: Limb): (r: nat)
    ensures r < 256
  {
    c / 0x100_0000
  }

  function WordOf(c: Limb): (r: nat)
    ensures r < 0x80_0000
  {
    c % 0x80_0000
  }

  predicate SignOf(c: Limb) {
    c / 0x80_0000 % 2 == 1
  }

  // x shifted down and up by n bytes
  function Down(x: nat, n: nat): (r: nat)
    ensures r <= x
  {
    DivBounds(x, Pow2(8 * n));
    x / Pow2(8 * n)
  }

  function Up(x: nat, n: nat): (r: nat)
  {
    x * Pow2(8 * n)
  }

  // The magnitude an encoding stands for, before it is cut down to 256 bits.
  ghost function Exact(c: Limb): nat {
    if SizeOf(c) <= 3 then Down(WordOf(c), 3 - SizeOf(c)) else Up(WordOf(c), SizeOf(c) - 3)
  }

  // Some encodings worked out.
  lemma ConcreteTargets()
    ensures Exact(0x0112_3456) == 0x12 && Exact(0x01fe_dcba) == 0x7e && SignOf(0x01fe_dcba)
    ensures Exact(0x0212_3456) == 0x1234 && Exact(0x0312_3456) == 0x12_3456 && !SignOf(0x0312_3456)
    ensures Exact(0x0412_3456) == 0x1234_5600 && Exact(0x0492_3456) == 0x1234_5600 && SignOf(0x0492_3456)
    ensures Exact(0x0500_9234) == 0x9234_0000
  {
    ByteShifts();
    hide Pow2;
    assert SizeOf(0x0112_3456) == 1 && SizeOf(0x01fe_dcba) == 1 && SizeOf(0x0212_3456) == 2;
    assert SizeOf(0x0312_3456) == 3 && SizeOf(0x0412_3456) == 4 && SizeOf(0x0492_3456) == 4;
    assert SizeOf(0x0500_9234) == 5;
  }

  lemma ByteShifts()
    ensures Pow2(0) == 1 && Pow2(8) == 0x100 && Pow2(16) == 0x1_0000
  {
    assert Pow2(4) == 16;
    hide Pow2;
    Pow2Add(4, 4);
    Pow2Add(8, 8);
    Pow2Add(0, 0);
  }

  // ---- decoding ----

  method SetCompact(a: Num, c: Limb) returns (negative: bool, overflow: bool)
    requires a.Length == WIDTH
    modifies a
    ensures Value(a) == Exact(c) % MODULUS
    ensures negative <==> SignOf(c) && Exact(c) != 0
    ensures overflow <==> Exact(c) >= MODULUS
  {
    hide Pow2, P, Val, Down;
    var size := SizeOf(c);
    var word := WordOf(c);
    Magnitude(c);
    if size <= 3 {
      word := Down(word, 3 - size);
      SetUint64(a, word);
    } else {
      SetUint64(a, word);
      ShlAssign(a, 8 * (size - 3));
    }
    negative := word != 0 && SignOf(c);
    overflow := word != 0 && (size > 34 || (word > 0xff && size > 33) || (word > 0xffff && size > 32));
  }

  // The overflow test is exact: it holds just when the magnitude needs more than 256 bits.
  lemma Magnitude(c: Limb)
    ensures SizeOf(c) <= 3 ==> Exact(c) <= WordOf(c) && Exact(c) % MODULUS == Exact(c) < MODULUS
    ensures SizeOf(c) > 3 ==> (Exact(c) == 0 <==> WordOf(c) == 0)
    ensures SizeOf(c) > 3 ==> (Exact(c) >= MODULUS <==>
              WordOf(c) != 0
                && (SizeOf(c) > 34 || (WordOf(c) > 0xff && SizeOf(c) > 33) || (WordOf(c) > 0xffff && SizeOf(c) > 32)))
  {
    Bytes();
    hide Pow2, P;
    PIsPow2(8);
    Pow2Monotone(32, 256);
    Pow2Of32();
    var n, w := SizeOf(c), WordOf(c);
    if n <= 3 {
      DivModUnique(Exact(c), MODULUS, 0, Exact(c));
    } else {
      var p := Pow2(8 * (n - 3));
      MulMonotone(p, w, 0x80_0000);
      if w >= 1 {
        MulMonotone(p, 1, w);
      }
      if n <= 32 {
        Pow2Monotone(8 * (n - 3), 232);
        Pow2Add(24, 232);
        assert 0x80_0000 * p <= 0x100_0000 * Pow2(232);
      } else if n == 33 {
        Pow2Add(16, 240);
        Threshold(w, 0x1_0000, p);
      } else if n == 34 {
        Pow2Add(8, 248);
        Threshold(w, 0x100, p);
      } else {
        Pow2Monotone(256, 8 * (n - 3));
      }
    }
  }

  lemma Bytes()
    ensures Pow2(0) == 1 && Pow2(8) == 0x100 && Pow2(16) == 0x1_0000 && Pow2(24) == 0x100_0000
  {
    assert Pow2(8) == 0x100;
    assert Pow2(16) == 0x1_0000;
  }

  lemma Threshold(w: nat, t: nat, p: nat)
    requires p >= 1
    ensures w * p >= t * p <==> w >= t
  {
    if w >= t {
      MulMonotone(p, t, w);
    } else {
      MulLess(p, w, t);
    }
  }

  // ---- encoding ----

  // m is x written with n bytes, of which the top three are kept.
  ghost predicate Cut(x: nat, n: nat, m: nat) {
    if n <= 3 then m == Up(x, 3 - n) else m == Down(x, n - 3)
  }

  // No encoding stands for a value closer to x from below.
  ghost predicate IsLargest(c: Limb, x: nat) {
    Exact(c) <= x && forall d: Limb :: Exact(d) <= x ==> Exact(d) <= Exact(c)
  }

  // The one encoding of a value that GetCompact produces: as many mantissa bits as fit.
  ghost predicate Normal(c: Limb) {
    || c == 0
    || (WordOf(c) >= 0x8000 && (SizeOf(c) < 3 ==> WordOf(c) % Pow2(8 * (3 - SizeOf(c))) == 0))
  }

  method GetCompact(a: Num, fNegative: bool) returns (c: Limb)
    requires a.Length == WIDTH
    ensures IsLargest(c, Value(a)) && Normal(c)
    ensures SignOf(c) <==> fNegative && Exact(c) != 0
  {
    hide Pow2, P, Val, Up, Down, IsBitLength, IsByteLength, Or, IsLargest, Normal, Exact, Cut, SizeOf, WordOf, SignOf;
    ghost var x := Value(a);
    var bits := Bits(a);
    var size := (bits + 7) / 8;
    ByteLength(x, bits, size);
    var m := TopBytes(a, size);
    if m / 0x80_0000 % 2 == 1 {
      Shorten(x, size, m);
      m := m / 256;
      size := size + 1;
    }
    assert m < 0x80_0000 && size < 256;
    Pack(size, m);
    c := Or(m, size * 0x100_0000);
    Encoded(x, size, m, c);
    if fNegative && WordOf(c) != 0 {
      Signed(c, x);
      c := Or(c, 0x80_0000);
    }
  }

  // The low 32 bits of the number shifted so that three of its bytes remain.
  method TopBytes(a: Num, size: nat) returns (m: nat)
    requires a.Length == WIDTH && IsByteLength(Value(a), size)
    ensures Cut(Value(a), size, m) && m < 0x100_0000 && (Value(a) > 0 ==> m >= 0x1_0000)
    ensures Value(a) == 0 ==> size == 0 && m == 0
  {
    hide Pow2, P, Val, Up, Down, IsByteLength, Cut;
    ghost var x := Value(a);
    Leading(x, size);
    NothingCut(x, size);
    if size <= 3 {
      var low := GetLow64(a);
      m := Up(low, 3 - size) % BASE;
    } else {
      var bn := Copy(a);
      ShrAssign(bn, 8 * (size - 3));
      var low := GetLow64(bn);
      m := low % BASE;
    }
  }

  ghost predicate IsByteLength(x: nat, n: nat) {
    (n == 0 ==> x == 0) && (n > 0 ==> Pow2(8 * (n - 1)) <= x < Pow2(8 * n))
  }

  lemma ByteLength(x: nat, bits: nat, n: nat)
    requires IsBitLength(x, bits) && bits <= 256 && n == (bits + 7) / 8
    ensures IsByteLength(x, n) && n <= 32
  {
    hide Pow2;
    if n > 0 {
      Pow2Monotone(8 * (n - 1), bits - 1);
      Pow2Monotone(bits, 8 * n);
    }
  }

  // The three leading bytes of a number of n bytes.
  lemma Leading(x: nat, n: nat)
    requires IsByteLength(x, n)
    ensures x == 0 ==> n == 0 && Up(x, 3) == 0
    ensures n <= 3 ==> x % (BASE * BASE) == x && Cut(x, n, Up(x, 3 - n)) && Up(x, 3 - n) < 0x100_0000
    ensures n <= 3 ==> x > 0 ==> Up(x, 3 - n) >= 0x1_0000
    ensures n > 3 ==> Cut(x, n, Down(x, n - 3)) && 0x1_0000 <= Down(x, n - 3) < 0x100_0000
    ensures n > 3 ==> Down(x, n - 3) == x / Pow2(8 * (n - 3))
  {
    Bytes();
    hide Pow2;
    if n == 0 {
    } else if n <= 3 {
      var p := Pow2(8 * (3 - n));
      Pow2Add(8 * (3 - n), 8 * n);
      Pow2Add(8 * (3 - n), 8 * (n - 1));
      MulLess(p, x, Pow2(8 * n));
      MulMonotone(p, Pow2(8 * (n - 1)), x);
      Pow2Monotone(8 * n, 24);
    } else {
      var p := Pow2(8 * (n - 3));
      Pow2Add(8 * (n - 3), 24);
      Pow2Add(8 * (n - 3), 16);
      DivLess(x, p, 0x100_0000);
      DivAtLeast(x, p, 0x1_0000);
    }
  }

  // Three bytes survive the truncation to 64 and to 32 bits.
  lemma NothingCut(x: nat, n: nat)
    requires IsByteLength(x, n)
    ensures n <= 3 ==> Up(x % (BASE * BASE), 3 - n) % BASE == Up(x, 3 - n)
    ensures n > 3 ==> x / Pow2(8 * (n - 3)) % (BASE * BASE) % BASE == Down(x, n - 3)
  {
    hide Pow2, Up, Down, IsByteLength;
    Leading(x, n);
    if n <= 3 {
      DivModUnique(Up(x, 3 - n), BASE, 0, Up(x, 3 - n));
    } else {
      DivModUnique(Down(x, n - 3), BASE * BASE, 0, Down(x, n - 3));
      DivModUnique(Down(x, n - 3), BASE, 0, Down(x, n - 3));
    }
  }

  lemma DivAtLeast(x: int, d: int, b: int)
    requires d >= 1 && d * b <= x
    ensures b <= x / d
  {
    if x / d < b {
      MulLess(d, x / d, b);
    }
  }

  // Dropping one more byte.
  lemma Shorten(x: nat, n: nat, m: nat)
    requires Cut(x, n, m)
    ensures Cut(x, n + 1, m / 256)
  {
    Bytes();
    hide Pow2;
    if n < 3 {
      var p := Pow2(8 * (2 - n));
      Pow2Add(8, 8 * (2 - n));
      assert x * (256 * p) == (x * p) * 256;
    } else if n > 3 {
      Pow2Add(8, 8 * (n - 3));
      DivTwice(x, Pow2(8 * (n - 3)), 256);
    }
  }

  lemma DivTwice(x: nat, p: nat, q: nat)
    requires p >= 1 && q >= 1
    ensures q * p >= 1 && x / p / q == x / (q * p)
  {
    var a, b := x / p, x % p;
    var c, d := a / q, a % q;
    assert x == p * a + b && a == q * c + d;
    assert x == c * (q * p) + (p * d + b) by {
      MulSum(p, q * c, d);
      assert p * (q * c) == c * (q * p);
    }
    MulLess(p, d, q);
    DivModUnique(x, q * p, c, p * d + b);
  }

  lemma Pack(n: nat, m: nat)
    requires m < 0x100_0000
    ensures Or(m, n * 0x100_0000) == m + n * 0x100_0000
  {
    Bytes();
    hide Pow2, Or;
    OrDisjoint(m, n * 0x100_0000, 24);
  }

  lemma Encoded(x: nat, n: nat, m: nat, c: Limb)
    requires Cut(x, n, m) && m < 0x80_0000 && n < 256 && c == m + n * 0x100_0000
    requires (x == 0 ==> n == 0) && (x > 0 ==> m >= 0x8000)
    ensures WordOf(c) == m && SizeOf(c) == n && !SignOf(c) && IsLargest(c, x) && Normal(c)
    ensures Exact(c) == 0 <==> m == 0
  {
    hide Pow2, Up, Down, SizeOf, WordOf, SignOf, Exact;
    Fields(n, m, c);
    ExactIs(c);
    if n <= 3 {
      DownUp(x, 3 - n);
    } else {
      UpDown(x, n - 3, m);
      forall d: Limb | Exact(d) <= x ensures Exact(d) <= Exact(c) {
        Closest(x, n - 3, m, d);
      }
    }
  }

  lemma ExactIs(c: Limb)
    ensures SizeOf(c) <= 3 ==> Exact(c) == Down(WordOf(c), 3 - SizeOf(c))
    ensures SizeOf(c) > 3 ==> Exact(c) == Up(WordOf(c), SizeOf(c) - 3)
  {
    hide Down, Up, SizeOf, WordOf;
  }

  lemma Fields(n: nat, m: nat, c: Limb)
    requires m < 0x80_0000 && n < 256 && c == m + n * 0x100_0000
    ensures WordOf(c) == m && SizeOf(c) == n && !SignOf(c)
  {}

  lemma DownUp(x: nat, k: nat)
    ensures Down(Up(x, k), k) == x && Up(x, k) % Pow2(8 * k) == 0
    ensures Up(x, k) == 0 <==> x == 0
  {
    hide Pow2;
    var p := Pow2(8 * k);
    MultipleMod(x, p);
    MulMonotone(x, 1, p);
  }

  lemma UpDown(x: nat, k: nat, m: nat)
    requires m == Down(x, k)
    ensures Up(m, k) <= x && (Up(m, k) == 0 <==> m == 0)
  {
    hide Pow2;
    var p := Pow2(8 * k);
    assert x == p * m + x % p;
    MulMonotone(m, 1, p);
  }

  // Cutting below byte k loses nothing an encoding could have kept.
  lemma Closest(x: nat, k: nat, m: nat, d: Limb)
    requires k >= 1 && m == Down(x, k) && m >= 0x8000 && Exact(d) <= x
    ensures Exact(d) <= Up(m, k)
  {
    Bytes();
    hide Pow2;
    var n, w := SizeOf(d), WordOf(d);
    if n >= k + 3 {
      Pow2Add(8 * (n - 3 - k), 8 * k);
      var e := w * Pow2(8 * (n - 3 - k));
      MulAssoc(w, Pow2(8 * (n - 3 - k)), Pow2(8 * k));
      DivAtLeast(x, Pow2(8 * k), e);
      MulMonotone(Pow2(8 * k), e, m);
    } else {
      Pow2Add(8, 8 * (k - 1));
      Pow2Monotone(0, 8 * (k - 1));
      MulMonotone(Pow2(8 * k), 0x8000, m);
      if n > 3 {
        Pow2Monotone(8 * (n - 3), 8 * (k - 1));
        MulMonotone(w, Pow2(8 * (n - 3)), Pow2(8 * (k - 1)));
        MulMonotone(Pow2(8 * (k - 1)), w, 0x80_0000);
      }
    }
  }

  lemma Signed(c: Limb, x: nat)
    requires !SignOf(c) && WordOf(c) != 0 && IsLargest(c, x) && Normal(c)
    ensures Or(c, 0x80_0000) == c + 0x80_0000 < BASE
    ensures var s := c + 0x80_0000;
            WordOf(s) == WordOf(c) && Exact(s) == Exact(c) && SignOf(s) && IsLargest(s, x) && Normal(s)
  {
    hide *;
    OrSignBit(c);
    SignFields(c);
    SameMagnitude(c, c + 0x80_0000, x);
  }

  lemma SignFields(c: Limb)
    requires !SignOf(c)
    ensures c + 0x80_0000 < BASE
    ensures var s := c + 0x80_0000; SizeOf(s) == SizeOf(c) && WordOf(s) == WordOf(c) && SignOf(s)
  {
    var n, w := SizeOf(c), WordOf(c);
    assert c == n * 0x100_0000 + w;
    var s := c + 0x80_0000;
    DivModUnique(s, 0x100_0000, n, w + 0x80_0000);
    DivModUnique(s, 0x80_0000, 2 * n + 1, w);
  }

  lemma SameMagnitude(c: Limb, s: Limb, x: nat)
    requires SizeOf(s) == SizeOf(c) && WordOf(s) == WordOf(c) != 0 && IsLargest(c, x) && Normal(c)
    ensures Exact(s) == Exact(c) && IsLargest(s, x) && Normal(s)
  {
    ExactIs(c);
    ExactIs(s);
    hide Exact, Pow2, SizeOf, Down, Up;
  }

  lemma OrSignBit(c: Limb)
    requires !SignOf(c)
    ensures Or(c, 0x80_0000) == c + 0x80_0000
  {
    Bytes();
    assert Pow2(24) == 2 * Pow2(23);
    hide Pow2, Or;
    BitAbove(c, 23);
  }

  // Or with a bit that is not set adds it.
  lemma {:induction false} BitAbove(c: nat, t: nat)
    requires c / Pow2(t) % 2 == 0
    ensures Or(c, Pow2(t)) == c + Pow2(t)
  {
    if t > 0 && c != 0 {
      DivTwice(c, 2, Pow2(t - 1));
      BitAbove(c / 2, t - 1);
    }
  }

  // ---- both ways ----

  // Going through the compact form rounds down: never up, keeping the order, and only once.
  lemma RoundingIsMonotone(x: nat, y: nat, c: Limb, d: Limb)
    requires x <= y && IsLargest(c, x) && IsLargest(d, y)
    ensures Exact(c) <= Exact(d)
  {
    hide Exact;
  }

  lemma RoundingIsIdempotent(x: nat, c: Limb, d: Limb)
    requires IsLargest(c, x) && IsLargest(d, Exact(c))
    ensures Exact(d) == Exact(c)
  {
    hide Exact;
  }

  // Writing a number in compact form and reading it back: neither flag is raised, and the
  // result is the largest encodable value that does not exceed the number.
  method RoundDown(a: Num) returns (r: Num, negative: bool, overflow: bool)
    requires a.Length == WIDTH
    ensures !negative && !overflow && fresh(r) && r.Length == WIDTH
    ensures Value(r) <= Value(a) && forall d: Limb :: Exact(d) <= Value(a) ==> Exact(d) <= Value(r)
  {
    hide Pow2, P, Val, Normal, Exact, SizeOf, WordOf, SignOf;
    InRange(a);
    var c := GetCompact(a, false);
    r := Zero();
    negative, overflow := SetCompact(r, c);
    DivModUnique(Exact(c), MODULUS, 0, Exact(c));
  }

  // Two normal encodings of the same number are the same.
  lemma NormalUnique(c: Limb, d: Limb)
    requires Normal(c) && Normal(d) && Exact(c) == Exact(d) && SignOf(c) == SignOf(d)
    ensures c == d
  {
    hide Pow2, Normal, Exact, SizeOf, WordOf, SignOf;
    Scaled(c);
    Scaled(d);
    if SizeOf(c) < SizeOf(d) {
      FewerBytes(WordOf(c), SizeOf(c), WordOf(d), SizeOf(d));
    } else if SizeOf(d) < SizeOf(c) {
      FewerBytes(WordOf(d), SizeOf(d), WordOf(c), SizeOf(c));
    } else {
      SameProduct(WordOf(c), WordOf(d), Pow2(8 * SizeOf(c)));
    }
    Parts(c, d);
  }

  lemma Parts(c: Limb, d: Limb)
    requires SizeOf(c) == SizeOf(d) && WordOf(c) == WordOf(d) && SignOf(c) == SignOf(d)
    ensures c == d
  {
    assert c == SizeOf(c) * 0x100_0000 + (if SignOf(c) then 0x80_0000 else 0) + WordOf(c);
    assert d == SizeOf(d) * 0x100_0000 + (if SignOf(d) then 0x80_0000 else 0) + WordOf(d);
  }

  lemma SameProduct(a: int, b: int, p: int)
    requires a * p == b * p && p >= 1
    ensures a == b
  {}

  // In a normal encoding no bit of the mantissa is shifted out.
  lemma Scaled(c: Limb)
    requires Normal(c)
    ensures Exact(c) * 0x100_0000 == WordOf(c) * Pow2(8 * SizeOf(c))
    ensures SizeOf(c) > 0 ==> WordOf(c) >= 0x8000
  {
    Bytes();
    var n, w := SizeOf(c), WordOf(c);
    hide Pow2;
    if n <= 3 {
      var p := Pow2(8 * (3 - n));
      Pow2Add(8 * (3 - n), 8 * n);
      assert n == 3 ==> w % p == 0;
      assert c == 0 ==> w % p == 0;
      ModZero(w, p);
      assert Down(w, 3 - n) * (p * Pow2(8 * n)) == (p * Down(w, 3 - n)) * Pow2(8 * n);
    } else {
      Pow2Add(8 * (n - 3), 24);
      MulAssoc(w, Pow2(8 * (n - 3)), 0x100_0000);
    }
  }

  lemma FewerBytes(w: nat, n: nat, w': nat, n': nat)
    requires n < n' && w < 0x80_0000 && w' >= 0x8000
    ensures w * Pow2(8 * n) != w' * Pow2(8 * n')
  {
    Bytes();
    hide Pow2;
    var p := Pow2(8 * n);
    Pow2Add(8, 8 * n);
    Pow2Monotone(8 * n + 8, 8 * n');
    MulMonotone(w', 256 * p, Pow2(8 * n'));
    MulMonotone(p, 0x80_0000, w' * 256);
    MulLess(p, w, 0x80_0000);
    assert (w' * 256) * p == w' * (256 * p);
  }

  // Decoding and encoding again gives the same 32 bits exactly for normal encodings.
  method Reencode(c: Limb) returns (c': Limb, overflow: bool)
    ensures overflow <==> Exact(c) >= MODULUS
    ensures !overflow ==> Exact(c') == Exact(c) && (c' == c <==> Normal(c))
  {
    hide Pow2, P, Val, Normal, Exact, SizeOf, WordOf, SignOf;
    var a := Zero();
    var negative;
    negative, overflow := SetCompact(a, c);
    c' := GetCompact(a, negative);
    if !overflow {
      DivModUnique(Exact(c), MODULUS, 0, Exact(c));
      assert Exact(c') == Exact(c);
      if Normal(c) {
        if SignOf(c) {
          SignIsNumber(c);
        }
        NormalUnique(c, c');
      }
    }
  }

  lemma SignIsNumber(c: Limb)
    requires Normal(c) && SignOf(c)
    ensures Exact(c) != 0
  {
    hide Pow2, Exact, Normal;
    Scaled(c);
    SignNeedsWord(c);
    MulMonotone(Pow2(8 * SizeOf(c)), 1, WordOf(c));
  }

  lemma SignNeedsWord(c: Limb)
    requires Normal(c) && SignOf(c)
    ensures WordOf(c) >= 1
  {
    hide Pow2;
  }

  // ---- the work of a block ----

  ghost function Work(nBits: Limb): nat {
    var t := Exact(nBits);
    if t == 0 || t >= MODULUS || SignOf(nBits) then 0 else MODULUS / (t + 1)
  }

  // The expected number of hashes for a block whose header carries nBits.
  method GetBlockProof(nBits: Limb) returns (r: Num)
    ensures fresh(r) && r.Length == WIDTH && Value(r) == Work(nBits)
  {
    hide Pow2, P, Val, Exact, SizeOf, WordOf, SignOf, Work;
    var target := Zero();
    var negative, overflow := SetCompact(target, nBits);
    var zero := Zero();
    var cmp := CompareTo(target, zero);
    WorkIs(nBits);
    if negative || overflow || cmp == 0 {
      return zero;
    }
    r := ComplementQuotient(target);
  }

  // ~t / (t+1) + 1
  method ComplementQuotient(target: Num) returns (r: Num)
    requires target.Length == WIDTH && 1 <= Value(target) && Value(target) + 1 < MODULUS
    ensures fresh(r) && r.Length == WIDTH && Value(r) == MODULUS / (Value(target) + 1)
  {
    hide P, Val;
    ghost var t := Value(target);
    FloorByComplement(MODULUS, t);
    var t1 := Copy(target);
    Increment(t1);
    assert Value(t1) == t + 1;
    r := Not(target);
    var ok := DivAssign(r, t1);
    Increment(r);
  }

  lemma WorkIs(c: Limb)
    ensures Exact(c) < MODULUS ==> Exact(c) % MODULUS == Exact(c)
    ensures Exact(c) >= MODULUS || Exact(c) == 0 || SignOf(c) ==> Work(c) == 0
    ensures 0 < Exact(c) < MODULUS && !SignOf(c) ==> Exact(c) + 1 < MODULUS && Work(c) == MODULUS / (Exact(c) + 1)
  {
    hide P, Exact, SignOf;
    if Exact(c) < MODULUS {
      TargetBelowMax(c);
    }
  }

  // No encoding stands for 2^256 - 1, so adding one to a target does not wrap.
  lemma TargetBelowMax(c: Limb)
    requires Exact(c) < MODULUS
    ensures Exact(c) + 1 < MODULUS && Exact(c) % MODULUS == Exact(c)
  {
    Bytes();
    hide Pow2, P;
    PIsPow2(8);
    Pow2Monotone(32, 256);
    Pow2Of32();
    DivModUnique(Exact(c), MODULUS, 0, Exact(c));
    if SizeOf(c) > 3 {
      Pow2Add(8, 8 * (SizeOf(c) - 3) - 8);
      Pow2Add(8, 248);
      assert Exact(c) == 256 * (WordOf(c) * Pow2(8 * (SizeOf(c) - 3) - 8));
      assert MODULUS == 256 * Pow2(248);
    }
  }

  // floor(m / (t+1)) without ever forming m.
  lemma FloorByComplement(m: nat, t: nat)
    requires 1 <= t && t + 1 < m
    ensures (t + 1) % m == t + 1
    ensures (m - 1 - t) / (t + 1) + 1 == m / (t + 1)
    ensures ((m - 1 - t) / (t + 1) + 1) % m == (m - 1 - t) / (t + 1) + 1
  {
    var d := t + 1;
    var q, r := (m - d) / d, (m - d) % d;
    assert m - d == q * d + r;
    assert m == (q + 1) * d + r;
    DivModUnique(m, d, q + 1, r);
    DivModUnique(d, m, 0, d);
    MulMonotone(q + 1, 2, d);
    DivModUnique(q + 1, m, 0, q + 1);
  }

  // A block that meets its target always counts for something, and a lower target for no less.
  lemma WorkIsAntitone(a: Limb, b: Limb)
    requires 1 <= Exact(a) <= Exact(b) < MODULUS && !SignOf(a) && !SignOf(b)
    ensures 1 <= Work(b) <= Work(a) < MODULUS
  {
    hide Exact, P, SignOf;
    FloorAntitone(MODULUS, Exact(a) + 1, Exact(b) + 1);
  }

  lemma FloorAntitone(m: nat, d: nat, e: nat)
    requires 2 <= d <= e <= m
    ensures 1 <= m / e <= m / d < m
  {
    DivAtLeast(m, e, 1);
    var q := m / e;
    assert m == e * q + m % e;
    MulMonotone(q, d, e);
    DivAtLeast(m, d, q);
    MulMonotone(m, 2, d);
    DivLess(m, d, m);
  }
}
