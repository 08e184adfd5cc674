/** Exclusive-or of literal words, by their hexadecimal digits.

    Unfolding `Xor` bit by bit on 64-bit literals is out of a solver's reach; digit by digit it is a
    matter of comparisons. */
module HexWords {
  import opened Arithmetic
  import opened Bits
  import opened XxhWords
  import opened Xxh3Mix

  /** A 64-bit word by its digits, most significant first. */
  datatype Hex = Hex(
    d15: nat, d14: nat, d13: nat, d12: nat, d11: nat, d10: nat, d9: nat, d8: nat, d7: nat, d6: nat, d5: nat,
    d4: nat, d3: nat, d2: nat, d1: nat, d0: nat)

  predicate IsHex(h: Hex) {
    && h.d15 < 0x10 && h.d14 < 0x10 && h.d13 < 0x10 && h.d12 < 0x10
    && h.d11 < 0x10 && h.d10 < 0x10 && h.d9 < 0x10 && h.d8 < 0x10
    && h.d7 < 0x10 && h.d6 < 0x10 && h.d5 < 0x10 && h.d4 < 0x10
    && h.d3 < 0x10 && h.d2 < 0x10 && h.d1 < 0x10 && h.d0 < 0x10
  }

  function Value(h: Hex): nat {
    0x1000_0000_0000_0000 * h.d15 + 0x100_0000_0000_0000 * h.d14 + 0x10_0000_0000_0000 * h.d13 +
    0x1_0000_0000_0000 * h.d12 + 0x1000_0000_0000 * h.d11 + 0x100_0000_0000 * h.d10 + 0x10_0000_0000 * h.d9 +
    0x1_0000_0000 * h.d8 + 0x1000_0000 * h.d7 + 0x100_0000 * h.d6 + 0x10_0000 * h.d5 + 0x1_0000 * h.d4 +
    0x1000 * h.d3 + 0x100 * h.d2 + 0x10 * h.d1 + h.d0
  }

  /** What is left of `x` below its leading bit `p`. */
  function Below(x: nat, p: nat): nat {
    if x >= p then x - p else x
  }

  /** The exclusive-or of two digits, by comparisons only. */
  function XorDigit(a: nat, b: nat): nat {
    var a3, b3 := Below(a, 8), Below(b, 8);
    var a2, b2 := Below(a3, 4), Below(b3, 4);
    (if (a >= 8) == (b >= 8) then 0 else 8) + (if (a3 >= 4) == (b3 >= 4) then 0 else 4)
    + (if (a2 >= 2) == (b2 >= 2) then 0 else 2) + (if Below(a2, 2) == Below(b2, 2) then 0 else 1)
  }

  function XorHex(a: Hex, b: Hex): Hex {
    Hex(
      XorDigit(a.d15, b.d15), XorDigit(a.d14, b.d14), XorDigit(a.d13, b.d13), XorDigit(a.d12, b.d12),
      XorDigit(a.d11, b.d11), XorDigit(a.d10, b.d10), XorDigit(a.d9, b.d9), XorDigit(a.d8, b.d8),
      XorDigit(a.d7, b.d7), XorDigit(a.d6, b.d6), XorDigit(a.d5, b.d5), XorDigit(a.d4, b.d4),
      XorDigit(a.d3, b.d3), XorDigit(a.d2, b.d2), XorDigit(a.d1, b.d1), XorDigit(a.d0, b.d0))
  }

  // ---- the digits of an exclusive-or ----

  function Toggle(a: nat, b: nat): nat {
    if a == b then 0 else 1
  }

  lemma XorBit(h: nat, h': nat, a: nat, b: nat)
    requires a < 2 && b < 2
    ensures Xor(2 * h + a, 2 * h' + b) == 2 * Xor(h, h') + Toggle(a, b)
  {
    hide Xor;
    XorHalf(2 * h + a, 2 * h' + b);
  }

  lemma XorFourBits(h: nat, h': nat, a3: nat, a2: nat, a1: nat, a0: nat, b3: nat, b2: nat, b1: nat, b0: nat)
    requires a3 < 2 && a2 < 2 && a1 < 2 && a0 < 2 && b3 < 2 && b2 < 2 && b1 < 2 && b0 < 2
    ensures Xor(0x10 * h + (8 * a3 + 4 * a2 + 2 * a1 + a0), 0x10 * h' + (8 * b3 + 4 * b2 + 2 * b1 + b0))
         == 0x10 * Xor(h, h') + (8 * Toggle(a3, b3) + 4 * Toggle(a2, b2) + 2 * Toggle(a1, b1) + Toggle(a0, b0))
  {
    hide Xor, Toggle;
    XorBit(h, h', a3, b3);
    XorBit(2 * h + a3, 2 * h' + b3, a2, b2);
    XorBit(4 * h + 2 * a3 + a2, 4 * h' + 2 * b3 + b2, a1, b1);
    XorBit(8 * h + 4 * a3 + 2 * a2 + a1, 8 * h' + 4 * b3 + 2 * b2 + b1, a0, b0);
  }

  lemma DigitBits(d: nat) returns (d3: nat, d2: nat, d1: nat, d0: nat)
    requires d < 0x10
    ensures d3 < 2 && d2 < 2 && d1 < 2 && d0 < 2 && d == 8 * d3 + 4 * d2 + 2 * d1 + d0
  {
    d3, d2, d1, d0 := d / 8, d / 4 % 2, d / 2 % 2, d % 2;
  }

  lemma LeadingBit(x: nat, p: nat, bit: nat, rest: nat)
    requires bit < 2 && rest < p && x == p * bit + rest
    ensures (x >= p <==> bit == 1) && Below(x, p) == rest
  {
    assert bit == 0 || bit == 1;
  }

  lemma ToggledDigit(a: nat, b: nat, a3: nat, a2: nat, a1: nat, a0: nat, b3: nat, b2: nat, b1: nat, b0: nat)
    requires a3 < 2 && a2 < 2 && a1 < 2 && a0 < 2 && b3 < 2 && b2 < 2 && b1 < 2 && b0 < 2
    requires a == 8 * a3 + (4 * a2 + 2 * a1 + a0) && b == 8 * b3 + (4 * b2 + 2 * b1 + b0)
    ensures XorDigit(a, b) == 8 * Toggle(a3, b3) + 4 * Toggle(a2, b2) + 2 * Toggle(a1, b1) + Toggle(a0, b0)
  {
    hide Below;
    LeadingBit(a, 8, a3, 4 * a2 + 2 * a1 + a0);
    LeadingBit(b, 8, b3, 4 * b2 + 2 * b1 + b0);
    LeadingBit(4 * a2 + 2 * a1 + a0, 4, a2, 2 * a1 + a0);
    LeadingBit(4 * b2 + 2 * b1 + b0, 4, b2, 2 * b1 + b0);
    LeadingBit(2 * a1 + a0, 2, a1, a0);
    LeadingBit(2 * b1 + b0, 2, b1, b0);
  }

  lemma XorOneDigit(h: nat, h': nat, a: nat, b: nat)
    requires a < 0x10 && b < 0x10
    ensures Xor(0x10 * h + a, 0x10 * h' + b) == 0x10 * Xor(h, h') + XorDigit(a, b)
  {
    hide Xor, XorDigit, Toggle;
    var a3, a2, a1, a0 := DigitBits(a);
    var b3, b2, b1, b0 := DigitBits(b);
    ToggledDigit(a, b, a3, a2, a1, a0, b3, b2, b1, b0);
    XorFourBits(h, h', a3, a2, a1, a0, b3, b2, b1, b0);
  }

  function Four(a: nat, b: nat, c: nat, d: nat): nat {
    0x1000 * a + 0x100 * b + 0x10 * c + d
  }

  lemma XorFour(h: nat, h': nat, a: nat, b: nat, c: nat, d: nat, a': nat, b': nat, c': nat, d': nat)
    requires a < 0x10 && b < 0x10 && c < 0x10 && d < 0x10 && a' < 0x10 && b' < 0x10 && c' < 0x10 && d' < 0x10
    ensures Xor(0x1_0000 * h + Four(a, b, c, d), 0x1_0000 * h' + Four(a', b', c', d'))
         == 0x1_0000 * Xor(h, h') + Four(XorDigit(a, a'), XorDigit(b, b'), XorDigit(c, c'), XorDigit(d, d'))
  {
    hide Xor, XorDigit;
    var x3, y3 := 0x10 * h + a, 0x10 * h' + a';
    var x2, y2 := 0x10 * x3 + b, 0x10 * y3 + b';
    var x1, y1 := 0x10 * x2 + c, 0x10 * y2 + c';
    XorOneDigit(h, h', a, a');
    XorOneDigit(x3, y3, b, b');
    XorOneDigit(x2, y2, c, c');
    XorOneDigit(x1, y1, d, d');
  }

  lemma ByFours(h: Hex)
    ensures Value(h) == 0x1_0000 * (0x1_0000 * (0x1_0000 * Four(h.d15, h.d14, h.d13, h.d12) + Four(h.d11, h.d10, h.d9, h.d8))
                                    + Four(h.d7, h.d6, h.d5, h.d4)) + Four(h.d3, h.d2, h.d1, h.d0)
  {
  }

  /** The exclusive-or of two words has the exclusive-ors of their digits. */
  lemma XorOf(a: Hex, b: Hex)
    requires IsHex(a) && IsHex(b)
    ensures Xor(Value(a), Value(b)) == Value(XorHex(a, b))
  {
    hide Xor, Four, XorDigit, Value;
    XorZero(0);
    ByFours(a);
    ByFours(b);
    ByFours(XorHex(a, b));
    var x3, y3 := Four(a.d15, a.d14, a.d13, a.d12), Four(b.d15, b.d14, b.d13, b.d12);
    var x2, y2 := 0x1_0000 * x3 + Four(a.d11, a.d10, a.d9, a.d8), 0x1_0000 * y3 + Four(b.d11, b.d10, b.d9, b.d8);
    var x1, y1 := 0x1_0000 * x2 + Four(a.d7, a.d6, a.d5, a.d4), 0x1_0000 * y2 + Four(b.d7, b.d6, b.d5, b.d4);
    XorFour(0, 0, a.d15, a.d14, a.d13, a.d12, b.d15, b.d14, b.d13, b.d12);
    XorFour(x3, y3, a.d11, a.d10, a.d9, a.d8, b.d11, b.d10, b.d9, b.d8);
    XorFour(x2, y2, a.d7, a.d6, a.d5, a.d4, b.d7, b.d6, b.d5, b.d4);
    XorFour(x1, y1, a.d3, a.d2, a.d1, a.d0, b.d3, b.d2, b.d1, b.d0);
  }

  // ---- steps of a hash on literals ----

  lemma XorIs(x: Word64, y: Word64, a: Hex, b: Hex)
    requires IsHex(a) && IsHex(b) && x == Value(a) && y == Value(b)
    ensures Xor64(x, y) == Value(XorHex(a, b))
  {
    hide Value, XorHex, Xor;
    XorOf(a, b);
  }

  lemma ZeroXor(x: Word64)
    ensures Xor64(0, x) == x && Xor64(x, 0) == x
  {
    XorZero(x);
  }

  lemma Powers()
    ensures Pow2(28) == 0x1000_0000 && Pow2(29) == 0x2000_0000 && Pow2(32) == 0x1_0000_0000
    ensures Pow2(33) == 0x2_0000_0000 && Pow2(35) == 0x8_0000_0000 && Pow2(37) == 0x20_0000_0000
  {
    WordSizes();
    assert Pow2(32) == 2 * Pow2(31) == 4 * Pow2(30) == 8 * Pow2(29) == 16 * Pow2(28);
    assert Pow2(37) == 2 * Pow2(36) == 4 * Pow2(35) == 8 * Pow2(34) == 16 * Pow2(33) == 32 * Pow2(32);
  }

  /** A shift by `k`, with what is shifted out. */
  lemma ShiftIs(x: nat, k: nat, q: nat, r: nat)
    requires r < Pow2(k) && x == q * Pow2(k) + r
    ensures Shr(x, k) == q
  {
    ShrIsDiv(x, k);
    DivModUnique(x, Pow2(k), q, r);
  }

  /** The word `x` has the digits `a`; shifted it has the digits `s`, and `r` is shifted out. */
  predicate Shifted(x: Word64, p: nat, a: Hex, s: Hex, r: nat) {
    IsHex(a) && IsHex(s) && x == Value(a) && r < p && x == Value(s) * p + r
  }

  lemma XorShiftIs(x: Word64, k: nat, a: Hex, s: Hex, r: nat)
    requires Shifted(x, Pow2(k), a, s, r)
    ensures XorShift64(x, k) == Value(XorHex(a, s))
  {
    hide Value, XorHex, Xor, Pow2, Shr;
    ShiftIs(x, k, Value(s), r);
    XorOf(a, s);
  }

  /** A wrapping product, with its high word. */
  lemma ProductIs(x: Word64, y: Word64, high: nat, low: Word64)
    requires x * y == high * 0x1_0000_0000_0000_0000 + low
    ensures Mul64(x, y) == low
  {
    DivModUnique(x * y, 0x1_0000_0000_0000_0000, high, low);
  }

  /** An xor-shift and a product, the common step of the avalanches. */
  lemma StageIs(x: Word64, k: nat, m: Word64, y: Word64, a: Hex, s: Hex, r: nat, high: nat)
    requires Shifted(x, Pow2(k), a, s, r) && Value(XorHex(a, s)) * m == high * 0x1_0000_0000_0000_0000 + y
    ensures Mul64(XorShift64(x, k), m) == y
  {
    hide Value, XorHex, XorShift64, Pow2;
    XorShiftIs(x, k, a, s, r);
    ProductIs(XorShift64(x, k), m, high, y);
  }

  /** A product of two words, folded from its two halves. */
  lemma FoldIs(x: Word64, y: Word64, low: Hex, high: Hex)
    requires IsHex(low) && IsHex(high) && x * y == Value(high) * 0x1_0000_0000_0000_0000 + Value(low)
    ensures Mul128Fold64(x, y) == Value(XorHex(low, high))
  {
    hide Value, XorHex, Xor64;
    ValueBelow(low);
    ValueBelow(high);
    XorIs(Value(low), Value(high), low, high);
    DivModWord(x * y, Value(high), Value(low));
  }

  lemma ValueBelow(h: Hex)
    requires IsHex(h)
    ensures Value(h) < 0x1_0000_0000_0000_0000
  {
  }

  /** A rotation by `r`: `high` leaves the word at the top and comes in below. */
  lemma RotationIs(x: Word64, r: nat, high: nat, low: nat)
    requires 0 < r < 64 && low < Pow2(64 - r) && x == high * Pow2(64 - r) + low
    ensures Rotl64(x, r) == Trunc64(low * Pow2(r) + high)
  {
    hide Pow2, Shl, Shr, Low;
    ShrIsDiv(x, 64 - r);
    DivModUnique(x, Pow2(64 - r), high, low);
    ShlIsMul(low, r);
  }
}
