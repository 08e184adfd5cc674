/** The short-key hashes of XXH3 are one-to-one: every mixing step can be undone.

    Inputs of 1 to 3 bytes never collide with each other, and inputs of one fixed length from 4 to
    8 bytes never collide, whatever the secret and the seed. */
module Xxh3Injective {
  import opened Arithmetic
  import opened Bits
  import opened StripeFold
  import opened XxhWords
  import opened Xxh3Mix
  import opened Xxh3Long
  import opened Xxh3Short

  // ---- multiplication by an odd constant ----

  /** Multiplying by a constant and then by its inverse modulo 2^64. */
  lemma MulUndone(x: Word64, c: Word64, inverse: Word64)
    requires c * inverse % 0x1_0000_0000_0000_0000 == 1
    ensures Mul64(Mul64(x, c), inverse) == x
  {
    var m := 0x1_0000_0000_0000_0000;
    var q, q' := x * c / m, c * inverse / m;
    assert x * c == q * m + Mul64(x, c);
    assert c * inverse == q' * m + 1;
    var y := Mul64(x, c);
    calc {
      y * inverse;
      (x * c - q * m) * inverse;
      x * c * inverse - q * m * inverse;
      { assert x * c * inverse == x * (c * inverse); }
      x * (q' * m + 1) - q * inverse * m;
      x + (x * q' - q * inverse) * m;
    }
    ModOfSum(y * inverse, x, x * q' - q * inverse);
  }

  lemma ModOfSum(n: nat, x: Word64, k: int)
    requires n == x + k * 0x1_0000_0000_0000_0000
    ensures n % 0x1_0000_0000_0000_0000 == x
  {
  }

  lemma MulInjective(x: Word64, y: Word64, c: Word64, inverse: Word64)
    requires c * inverse % 0x1_0000_0000_0000_0000 == 1
    requires Mul64(x, c) == Mul64(y, c)
    ensures x == y
  {
    hide Mul64;
    MulUndone(x, c, inverse);
    MulUndone(y, c, inverse);
  }

  lemma XorShift64Injective(x: Word64, y: Word64, k: nat)
    requires k > 0 && XorShift64(x, k) == XorShift64(y, k)
    ensures x == y
  {
    hide Xor, Shr;
    XorShiftInjective(x, y, k);
  }

  const PRIME64_2_INVERSE: Word64 := 0x0BA79078168D4BAF
  const PRIME64_3_INVERSE: Word64 := 0xE9E9F4C41D6DF849
  const RRMXMX_INVERSE: Word64 := 0x02AB9C720D1024AD

  lemma Xxh64AvalancheInjective(x: Word64, y: Word64)
    ensures Xxh64Avalanche(x) == Xxh64Avalanche(y) ==> x == y
  {
    hide XorShift64, Mul64;
    var x1, y1 := Mul64(XorShift64(x, 33), PRIME64_2), Mul64(XorShift64(y, 33), PRIME64_2);
    var x2, y2 := Mul64(XorShift64(x1, 29), PRIME64_3), Mul64(XorShift64(y1, 29), PRIME64_3);
    if Xxh64Avalanche(x) == Xxh64Avalanche(y) {
      XorShift64Injective(x2, y2, 32);
      MulInjective(XorShift64(x1, 29), XorShift64(y1, 29), PRIME64_3, PRIME64_3_INVERSE);
      XorShift64Injective(x1, y1, 29);
      MulInjective(XorShift64(x, 33), XorShift64(y, 33), PRIME64_2, PRIME64_2_INVERSE);
      XorShift64Injective(x, y, 33);
    }
  }

  // ---- rotations ----

  /** One step of rotation. */
  function Rot1(x: Word64): Word64 {
    2 * (x % 0x8000_0000_0000_0000) + x / 0x8000_0000_0000_0000
  }

  function RotN(x: Word64, n: nat): Word64 {
    if n == 0 then x else Rot1(RotN(x, n - 1))
  }

  lemma {:induction false} RotNAdd(x: Word64, m: nat, n: nat)
    ensures RotN(RotN(x, m), n) == RotN(x, m + n)
  {
    if n > 0 {
      RotNAdd(x, m, n - 1);
    }
  }

  /** Rotating `r` positions at once is rotating one position `r` times. */
  lemma {:induction false} RotlIsRotN(x: Word64, r: nat)
    requires r <= 64
    ensures Rotl(x, r, 64) == RotN(x, r)
  {
    if r == 0 {
      WordSizes();
      ShrIsDiv(x, 64);
      assert Shr(x, 64) == 0;
    } else {
      RotlIsRotN(x, r - 1);
      RotlStep(x, r - 1);
    }
  }

  lemma RotlStep(x: Word64, r: nat)
    requires r < 64 && Rotl(x, r, 64) < 0x1_0000_0000_0000_0000
    ensures Rotl(x, r + 1, 64) == Rot1(Rotl(x, r, 64))
  {
    var k := 64 - r;
    var bit := LowTop(x, k);
    var rest := Shl(Low(x, k - 1), r) + Shr(x, k);
    TopBitMoves(bit, Low(x, k - 1), k, r);
    RestBelow(x, k, r);
    hide Shl, Shr, Low;
    assert Rotl(x, r, 64) == bit * 0x8000_0000_0000_0000 + rest;
    assert Shl(Low(x, k - 1), r + 1) == 2 * Shl(Low(x, k - 1), r) by { ShlStep(Low(x, k - 1), r); }
  }

  lemma ShlStep(a: nat, r: nat)
    ensures Shl(a, r + 1) == 2 * Shl(a, r)
  {
  }

  lemma TopBitMoves(bit: nat, low: nat, k: nat, r: nat)
    requires k > 0 && k + r == 64
    ensures Shl(bit * Pow2(k - 1) + low, r) == bit * 0x8000_0000_0000_0000 + Shl(low, r)
  {
    hide Shl, Pow2;
    ShlAdd(bit * Pow2(k - 1), low, r);
    ShlIsMul(bit * Pow2(k - 1), r);
    Pow2Add(k - 1, r);
    Pow2Of63();
    assert bit * Pow2(k - 1) * Pow2(r) == bit * (Pow2(k - 1) * Pow2(r));
  }

  lemma RestBelow(x: Word64, k: nat, r: nat)
    requires k > 0 && k + r == 64
    ensures Shl(Low(x, k - 1), r) + Shr(x, k) < 0x8000_0000_0000_0000
  {
    hide Shl, Shr, Low, Pow2;
    ShrIsDiv(x, k - 1);
    ShrIsDiv(x, k);
    ShlIsMul(Low(x, k - 1), r);
    WordSizes();
    Pow2Of63();
    Pow2Add(k, r);
    Pow2Add(k - 1, r);
    QuotientBelow(x, Pow2(k), Pow2(r));
    JoinBelow(Low(x, k - 1), x / Pow2(k), Pow2(k - 1), Pow2(r));
  }

  lemma JoinBelow(a: nat, b: nat, p: nat, q: nat)
    requires a < p && b < q
    ensures a * q + b < p * q
  {
    assert (a + 1) * q <= p * q;
  }

  lemma Pow2Of63()
    ensures Pow2(63) == 0x8000_0000_0000_0000
  {
    WordSizes();
    assert Pow2(64) == 2 * Pow2(63);
  }

  /** The top bit of a low part moves to the high part when the split moves down. */
  lemma {:induction false} LowTop(x: nat, k: nat) returns (bit: nat)
    requires k > 0
    ensures bit < 2 && Low(x, k) == bit * Pow2(k - 1) + Low(x, k - 1) && Shr(x, k - 1) == 2 * Shr(x, k) + bit
  {
    if k == 1 {
      bit := x % 2;
    } else {
      bit := LowTop(x / 2, k - 1);
      assert 2 * (bit * Pow2(k - 2)) == bit * (2 * Pow2(k - 2));
    }
  }

  lemma Rotl64IsRotN(x: Word64, r: nat)
    requires 0 < r < 64
    ensures Rotl64(x, r) == RotN(x, r)
  {
    hide Rotl, RotN;
    RotlIsRotN(x, r);
  }

  lemma FullTurn(x: Word64)
    ensures RotN(x, 64) == x
  {
    RotlIsRotN(x, 64);
    assert Low(x, 0) == 0;
    ShlIsMul(0, 64);
  }

  lemma Rot1Xor(x: Word64, y: Word64)
    ensures Rot1(Xor64(x, y)) == Xor64(Rot1(x), Rot1(y))
  {
    hide Xor;
    XorAround63(x, y);
    var top := 0x8000_0000_0000_0000;
    XorBelowTop(x % top, x / top, y % top, y / top);
  }

  lemma XorAround63(x: Word64, y: Word64)
    ensures Xor(x, y) / 0x8000_0000_0000_0000 == Xor(x / 0x8000_0000_0000_0000, y / 0x8000_0000_0000_0000)
    ensures Xor(x, y) % 0x8000_0000_0000_0000 == Xor(x % 0x8000_0000_0000_0000, y % 0x8000_0000_0000_0000)
  {
    hide Xor, Shr, Low, Pow2;
    Pow2Of63();
    ShrIsDiv(x, 63);
    ShrIsDiv(y, 63);
    ShrIsDiv(Xor(x, y), 63);
    XorShr(x, y, 63);
    XorLow(x, y, 63);
  }

  lemma XorBelowTop(lx: nat, hx: nat, ly: nat, hy: nat)
    requires hx < 2 && hy < 2
    ensures Xor(2 * lx + hx, 2 * ly + hy) == 2 * Xor(lx, ly) + Xor(hx, hy)
  {
    hide Xor;
    XorHalf(2 * lx + hx, 2 * ly + hy);
    XorOfBits(hx, hy);
    Parity(2 * lx + hx, hx, 2 * ly + hy);
    Parity(2 * ly + hy, hy, hx);
  }

  lemma XorOfBits(a: nat, b: nat)
    requires a < 2 && b < 2
    ensures Xor(a, b) == (a + b) % 2
  {
    assert Xor(0, 0) == 0;
  }

  lemma {:induction false} RotNXor(x: Word64, y: Word64, n: nat)
    ensures RotN(Xor64(x, y), n) == Xor64(RotN(x, n), RotN(y, n))
  {
    hide Xor64;
    if n > 0 {
      RotNXor(x, y, n - 1);
      Rot1Xor(RotN(x, n - 1), RotN(y, n - 1));
    }
  }

  // ---- the rotate-and-xor step ----

  /** x ^ rotl(x, a) ^ rotl(x, b) */
  function Spread(x: Word64, a: nat, b: nat): Word64 {
    Xor64(Xor64(x, RotN(x, a)), RotN(x, b))
  }

  /** Squaring a rotation polynomial doubles its exponents: the mixed terms cancel. */
  lemma SpreadTwice(x: Word64, a: nat, b: nat)
    ensures Spread(Spread(x, a, b), a, b) == Spread(x, 2 * a, 2 * b)
  {
    hide RotN, Xor64;
    var A, B, z := RotN(x, a), RotN(x, b), Spread(x, a, b);
    RotNXor(Xor64(x, A), B, a);
    RotNXor(x, A, a);
    RotNXor(Xor64(x, A), B, b);
    RotNXor(x, A, b);
    RotNAdd(x, a, a);
    RotNAdd(x, b, a);
    RotNAdd(x, a, b);
    RotNAdd(x, b, b);
    CrossTermsCancel64(x, A, B, RotN(x, 2 * a), RotN(x, a + b), RotN(x, 2 * b));
  }

  lemma CrossTermsCancel64(x: Word64, a: Word64, b: Word64, aa: Word64, ab: Word64, bb: Word64)
    ensures Xor64(Xor64(Xor64(Xor64(x, a), b), Xor64(Xor64(a, aa), ab)), Xor64(Xor64(b, ab), bb))
         == Xor64(Xor64(x, aa), bb)
  {
    hide Xor;
    CrossTermsCancel(x, a, b, aa, ab, bb);
  }

  lemma {:induction false} CrossTermsCancel(x: nat, a: nat, b: nat, aa: nat, ab: nat, bb: nat)
    ensures Xor(Xor(Xor(Xor(x, a), b), Xor(Xor(a, aa), ab)), Xor(Xor(b, ab), bb)) == Xor(Xor(x, aa), bb)
    decreases x + a + b + aa + ab + bb
  {
    hide Xor;
    if x + a + b + aa + ab + bb == 0 {
      XorZero(0);
    } else {
      CrossTermsCancel(x / 2, a / 2, b / 2, aa / 2, ab / 2, bb / 2);
      var p, q, r, s := Xor(Xor(x, a), b), Xor(Xor(a, aa), ab), Xor(Xor(b, ab), bb), Xor(Xor(x, aa), bb);
      Xor3Half(x, a, b);
      Xor3Half(a, aa, ab);
      Xor3Half(b, ab, bb);
      Xor3Half(x, aa, bb);
      Xor3Half(p, q, r);
      SameParity(x, a, b, aa, ab, bb, p, q, r);
      SameBits(Xor(Xor(p, q), r), s);
    }
  }

  lemma Xor3Half(a: nat, b: nat, c: nat)
    ensures Xor(Xor(a, b), c) / 2 == Xor(Xor(a / 2, b / 2), c / 2)
    ensures Xor(Xor(a, b), c) % 2 == (a + b + c) % 2
  {
    hide Xor;
    XorHalf(a, b);
    XorHalf(Xor(a, b), c);
    Parity(Xor(a, b), a + b, c);
  }

  lemma SameParity(x: nat, a: nat, b: nat, aa: nat, ab: nat, bb: nat, p: nat, q: nat, r: nat)
    requires p % 2 == (x + a + b) % 2 && q % 2 == (a + aa + ab) % 2 && r % 2 == (b + ab + bb) % 2
    ensures (p + q + r) % 2 == (x + aa + bb) % 2
  {
    Parity(p, x + a + b, q + r);
    Parity(q, a + aa + ab, x + a + b + r);
    Parity(r, b + ab + bb, x + a + b + a + aa + ab);
    assert x + a + b + a + aa + ab + b + ab + bb == x + aa + bb + 2 * (a + b + ab);
  }

  /** Eight rotate-and-xor steps are a plain rotation by 8. */
  lemma EightSteps(x: Word64)
    ensures Spread(Spread(x, 49, 24), 49, 24) == Spread(x, 98, 48)
    ensures Spread(Spread(x, 98, 48), 98, 48) == Spread(x, 196, 96)
    ensures Spread(Spread(x, 196, 96), 196, 96) == RotN(x, 8)
  {
    hide RotN, Xor64;
    SpreadTwice(x, 49, 24);
    SpreadTwice(x, 98, 48);
    SpreadTwice(x, 196, 96);
    Turns(x, 8, 6);
    Turns(x, 0, 3);
    RotNZero(x);
    XorTwice(x, RotN(x, 8));
  }

  lemma RotNZero(x: Word64)
    ensures RotN(x, 0) == x
  {
  }

  lemma XorTwice(x: Word64, y: Word64)
    ensures Xor64(Xor64(x, y), x) == y
  {
    hide Xor;
    XorCommutes(x, y);
    XorCancels(y, x);
  }

  lemma {:induction false} Turns(x: Word64, r: nat, turns: nat)
    ensures RotN(x, r + 64 * turns) == RotN(x, r)
  {
    hide RotN;
    if turns > 0 {
      Turns(x, r, turns - 1);
      RotNAdd(x, r + 64 * (turns - 1), 64);
      FullTurn(RotN(x, r + 64 * (turns - 1)));
    }
  }

  lemma RotXorInjective(x: Word64, y: Word64)
    requires RotXor(x) == RotXor(y)
    ensures x == y
  {
    hide Rotl64, RotN, Xor64;
    Rotl64IsRotN(x, 49);
    Rotl64IsRotN(x, 24);
    Rotl64IsRotN(y, 49);
    Rotl64IsRotN(y, 24);
    assert Spread(x, 49, 24) == Spread(y, 49, 24);
    hide Spread;
    EightSteps(x);
    EightSteps(y);
    RotNAdd(x, 8, 56);
    RotNAdd(y, 8, 56);
    FullTurn(x);
    FullTurn(y);
  }

  // ---- h ^ ((h >> 35) + len) ----

  /** The greatest length up to which no sum `(h >> 35) + len` has more than 35 bits; the hash uses
      lengths from 4 to 8. */
  const MAX_SAFE_LENGTH: Word64 := 0x7_E000_0000

  lemma AddLenShiftInjective(x: Word64, y: Word64, len: Word64)
    requires len <= MAX_SAFE_LENGTH && AddLenShift(x, len) == AddLenShift(y, len)
    ensures x == y
  {
    hide Xor, Shr;
    TopSurvives(x, len);
    TopSurvives(y, len);
    XorInjective(x, y, Shr(x, 35) + len);
  }

  /** The added term is too short to reach the top 29 bits, so the shifted word can be read back. */
  lemma TopSurvives(h: Word64, len: Word64)
    requires len <= MAX_SAFE_LENGTH
    ensures Shr(AddLenShift(h, len), 35) == Shr(h, 35)
    ensures Add64(Shr64(h, 35), len) == Shr(h, 35) + len
  {
    hide Xor, Shr, Add64;
    ShortSum(h, len);
    XorShr(h, Shr(h, 35) + len, 35);
    XorZero(Shr(h, 35));
  }

  lemma ShortSum(h: Word64, len: Word64)
    requires len <= MAX_SAFE_LENGTH
    ensures Add64(Shr64(h, 35), len) == Shr(h, 35) + len && Shr(Shr(h, 35) + len, 35) == 0
  {
    hide Shr;
    ShrBy35(h);
    ShrBy35(Shr(h, 35) + len);
  }

  lemma ShrBy35(h: nat)
    ensures Shr(h, 35) == h / 0x8_0000_0000
  {
    hide Shr, Pow2;
    Pow2Of35();
    ShrIsDiv(h, 35);
  }

  lemma Pow2Of35()
    ensures Pow2(35) == 0x8_0000_0000
  {
    WordSizes();
    Pow2Add(32, 3);
    assert Pow2(3) == 8;
  }

  /** One more, and two words collide: only the larger of their sums carries into the top bits. */
  lemma AddLenShiftCollides()
    ensures AddLenShift(0xFFFF_FFF0_0000_0000, MAX_SAFE_LENGTH + 1) == AddLenShift(0xFFFF_FFFF_FFFF_FFFF, MAX_SAFE_LENGTH + 1)
  {
    hide Xor, Shr, Shl, Pow2;
    var high, low, bit := 0xFFFF_FFF0_0000_0000, 0x7_FFFF_FFFF, 0x8_0000_0000;
    ShrBy35(high);
    ShrBy35(0xFFFF_FFFF_FFFF_FFFF);
    Pow2Of35();
    Pow2Of36();
    XorOfParts(0x1FFF_FFFE, low, 35);
    XorOfParts(1, low, 35);
    XorOfParts(0x0FFF_FFFF, bit + low, 36);
    assert Xor(high, Xor(bit, low)) == high + bit + low;
    XorCommutes(bit, low);
    XorAssociates(high, low, bit);
    XorCancels(high + low, bit);
  }

  lemma Pow2Of36()
    ensures Pow2(36) == 0x10_0000_0000
  {
    Pow2Of35();
    assert Pow2(36) == 2 * Pow2(35);
  }

  lemma XorOfParts(h: nat, l: nat, k: nat)
    requires l < Pow2(k)
    ensures Xor(h * Pow2(k), l) == h * Pow2(k) + l
  {
    hide Xor;
    ShlIsMul(h, k);
    ShrIsDiv(l, k);
    DivModUnique(l, Pow2(k), 0, l);
    XorDisjoint(h, l, k);
  }

  lemma RrmxmxInjective(x: Word64, y: Word64, len: Word64)
    requires len <= MAX_SAFE_LENGTH
    ensures Rrmxmx(x, len) == Rrmxmx(y, len) ==> x == y
  {
    hide XorShift64, Mul64, RotXor, AddLenShift;
    var x1, y1 := Mul64(RotXor(x), RRMXMX_MULT), Mul64(RotXor(y), RRMXMX_MULT);
    var x2, y2 := AddLenShift(x1, len), AddLenShift(y1, len);
    if Rrmxmx(x, len) == Rrmxmx(y, len) {
      XorShift64Injective(Mul64(x2, RRMXMX_MULT), Mul64(y2, RRMXMX_MULT), 28);
      MulInjective(x2, y2, RRMXMX_MULT, RRMXMX_INVERSE);
      AddLenShiftInjective(x1, y1, len);
      MulInjective(RotXor(x), RotXor(y), RRMXMX_MULT, RRMXMX_INVERSE);
      RotXorInjective(x, y);
    }
  }

  // ---- the short hashes ----

  lemma CombinedInjective(a: Bytes, b: Bytes)
    requires 1 <= |a| <= 3 && 1 <= |b| <= 3 && Combined(a) == Combined(b)
    ensures a == b
  {
    hide Bytes4;
    DigitsOf(a[|a| - 1], |a|, a[0], a[|a| / 2]);
    DigitsOf(b[|b| - 1], |b|, b[0], b[|b| / 2]);
    assert |a| == 3 ==> a == [a[0], a[1], a[2]];
  }

  /** No two inputs of 1 to 3 bytes collide, whether or not their lengths agree. */
  lemma Len1to3Injective(a: Bytes, b: Bytes, secret: Secret, seed: Word64)
    requires 1 <= |a| <= 3 && 1 <= |b| <= 3
    ensures HashShort(a, secret, seed) == HashShort(b, secret, seed) ==> a == b
  {
    hide Xxh64Avalanche, Xor64, Add64, Combined;
    var bitflip := Add64(Xor32(ReadLE32(secret), ReadLE32(secret[4..])), seed);
    if HashShort(a, secret, seed) == HashShort(b, secret, seed) {
      Xxh64AvalancheInjective(Xor64(Combined(a), bitflip), Xor64(Combined(b), bitflip));
      KeyedInjective(Combined(a), Combined(b), bitflip);
      CombinedInjective(a, b);
    }
  }

  lemma KeyedInjective(x: Word64, y: Word64, key: Word64)
    requires Xor64(x, key) == Xor64(y, key)
    ensures x == y
  {
    hide Xor;
    XorInjective(x, y, key);
  }

  lemma Read32Injective(a: Bytes, b: Bytes)
    requires |a| >= 4 && |b| >= 4 && ReadLE32(a) == ReadLE32(b)
    ensures a[..4] == b[..4]
  {
    WriteRead32(a);
    WriteRead32(b);
  }

  lemma Input64Injective(a: Bytes, b: Bytes)
    requires 4 <= |a| == |b| <= 8 && Input64(a) == Input64(b)
    ensures a == b
  {
    hide ReadLE32;
    var n := |a| - 4;
    Read32Injective(a, b);
    Read32Injective(a[n..], b[n..]);
    assert a[n..] == a[n..][..4] && b[n..] == b[n..][..4];
    assert a == a[..4] + a[n..][4 - n..] && b == b[..4] + b[n..][4 - n..];
  }

  /** No two inputs of the same length from 4 to 8 bytes collide. */
  lemma Len4to8Injective(a: Bytes, b: Bytes, secret: Secret, seed: Word64)
    requires 4 <= |a| == |b| <= 8
    ensures HashShort(a, secret, seed) == HashShort(b, secret, seed) ==> a == b
  {
    hide Rrmxmx, Xor64, Sub64, Input64, Swap32, ReadLE64;
    var seed' := Xor64(seed, Swap32(Trunc32(seed)) * 0x1_0000_0000);
    var bitflip := Sub64(Xor64(ReadLE64(secret[8..]), ReadLE64(secret[16..])), seed');
    if HashShort(a, secret, seed) == HashShort(b, secret, seed) {
      RrmxmxInjective(Xor64(Input64(a), bitflip), Xor64(Input64(b), bitflip), |a|);
      KeyedInjective(Input64(a), Input64(b), bitflip);
      Input64Injective(a, b);
    }
  }
}
