/** Words by masks and shifts: how the compile-time implementation of XXH3 reads, swaps, rotates
    and joins words.  Each form equals its arithmetic counterpart in `XxhWords`. */
module ConstexprWords {
  import opened Arithmetic
  import opened Bits
  import opened StripeFold
  import opened XxhWords
  import opened Xxh3Short

  // ---- words by masks and shifts ----

  function ConstSwap32(x: Word32): nat {
    Or(Or(Or(And(Trunc32(x * 0x100_0000), 0xff00_0000),
             And(Trunc32(x * 0x100), 0x00ff_0000)),
          And(x / 0x100, 0x0000_ff00)),
       And(x / 0x100_0000, 0x0000_00ff))
  }

  function Place(b: nat, unit: nat): nat { b * unit }

  function ConstSwap64(x: nat): nat {
    Or(Or(Or(Or(Or(Or(Or(
      And(Trunc64(x * 0x100_0000_0000_0000), 0xff00_0000_0000_0000),
      And(Trunc64(x * 0x100_0000_0000), 0x00ff_0000_0000_0000)),
      And(Trunc64(x * 0x100_0000), 0x0000_ff00_0000_0000)),
      And(Trunc64(x * 0x100), 0x0000_00ff_0000_0000)),
      And(x / 0x100, 0x0000_0000_ff00_0000)),
      And(x / 0x100_0000, 0x0000_0000_00ff_0000)),
      And(x / 0x100_0000_0000, 0x0000_0000_0000_ff00)),
      And(x / 0x100_0000_0000_0000, 0x0000_0000_0000_00ff))
  }

  lemma BytePlaces()
    ensures Pow2(8) == 0x100 && Pow2(16) == 0x1_0000 && Pow2(24) == 0x100_0000 && Pow2(32) == 0x1_0000_0000
    ensures Pow2(40) == 0x100_0000_0000 && Pow2(48) == 0x1_0000_0000_0000 && Pow2(56) == 0x100_0000_0000_0000
  {
    WordSizes();
    Pow2Add(16, 8);
    Pow2Add(32, 8);
    Pow2Add(32, 16);
    Pow2Add(48, 8);
  }

  /** The byte of `x` whose lowest bit is bit `j`. */
  function ByteOf(x: nat, j: nat): nat {
    Low(Shr(x, j), 8)
  }

  lemma {:induction false} FieldOfLow(x: nat, j: nat, n: nat)
    requires j + 8 <= n
    ensures ByteOf(Low(x, n), j) == ByteOf(x, j)
  {
    if j > 0 {
      FieldOfLow(x / 2, j - 1, n - 1);
      LowHalf(x, n);
    } else {
      LowOfLow(x, 8, n);
    }
  }

  lemma {:induction false} LowOfLow(x: nat, k: nat, n: nat)
    requires k <= n
    ensures Low(Low(x, n), k) == Low(x, k)
  {
    if k > 0 {
      LowOfLow(x / 2, k - 1, n - 1);
      LowHalf(x, n);
    }
  }

  /** A byte moved up inside an `n`-bit word. */
  lemma {:induction false} FieldMovedUp(x: nat, s: nat, j: nat, n: nat)
    requires s <= j && j + 8 <= n
    ensures ByteOf(Low(Shl(x, s), n), j) == ByteOf(x, j - s)
    decreases s
  {
    hide Low;
    if s > 0 {
      FieldMovedUp(x, s - 1, j - 1, n - 1);
      LowHalf(Shl(x, s), n);
    } else {
      FieldOfLow(x, j, n);
    }
  }

  lemma {:induction false} ShrTwice(x: nat, j: nat, k: nat)
    ensures Shr(Shr(x, j), k) == Shr(x, j + k)
  {
    if j > 0 {
      ShrTwice(x / 2, j - 1, k);
    }
  }

  lemma ByteMask(x: nat, j: nat)
    ensures And(x, 0xff * Pow2(j)) == ByteOf(x, j) * Pow2(j)
  {
    hide And, Low, Shr, Shl, Pow2;
    assert Ones(8) == 0xff;
    AndMask(x, j, 8);
    ShlIsMul(0xff, j);
    ShlIsMul(ByteOf(x, j), j);
  }

  lemma MaskedUp(x: nat, s: nat, j: nat, n: nat)
    requires s <= j && j + 8 <= n
    ensures And(x * Pow2(s) % Pow2(n), 0xff * Pow2(j)) == ByteOf(x, j - s) * Pow2(j)
  {
    hide And, Pow2, Shl, Shr, Low, ByteOf;
    ShlIsMul(x, s);
    ShrIsDiv(Shl(x, s), n);
    FieldMovedUp(x, s, j, n);
    ByteMask(Low(Shl(x, s), n), j);
  }

  lemma MaskedDown(x: nat, y: nat, s: nat, j: nat)
    requires y == Shr(x, s)
    ensures And(y, 0xff * Pow2(j)) == ByteOf(x, s + j) * Pow2(j)
  {
    hide And, Pow2, Shr, Low;
    ShrTwice(x, s, j);
    ByteMask(y, j);
  }

  /** The bytes of a word as they are stored. */
  lemma StoredBytes(x: Word32)
    ensures var p := WriteLE32(x);
            p[0] == ByteOf(x, 0) && p[1] == ByteOf(x, 8) && p[2] == ByteOf(x, 16) && p[3] == ByteOf(x, 24)
  {
    hide Pow2, Shr, Low;
    BytePlaces();
    ShrIsDiv(x, 0);
    ShrIsDiv(x, 8);
    ShrIsDiv(x, 16);
    ShrIsDiv(x, 24);
    ShrIsDiv(Shr(x, 0), 8);
    ShrIsDiv(Shr(x, 8), 8);
    ShrIsDiv(Shr(x, 16), 8);
    ShrIsDiv(Shr(x, 24), 8);
    assert Pow2(0) == 1 by { Pow2Zero(); }
    DivDiv(x);
  }

  lemma Pow2Zero()
    ensures Pow2(0) == 1
  {
  }

  lemma DivDiv(x: Word32)
    ensures x / 0x100 / 0x100 == x / 0x1_0000 && x / 0x100 / 0x100 / 0x100 == x / 0x100_0000 < 0x100
  {
  }

  lemma OrAt(h: nat, l: nat, j: nat, unit: nat)
    requires unit == Pow2(j) && l < unit
    ensures Or(h * unit, l) == h * unit + l == Or(l, h * unit)
  {
    OrIsSum(h, l, j);
  }

  /** Or-ing four bytes at their places, highest first. */
  lemma OrBytes4(b0: Byte, b1: Byte, b2: Byte, b3: Byte)
    ensures Or(Or(Or(Place(b3, 0x100_0000), Place(b2, 0x1_0000)), Place(b1, 0x100)), b0) == Bytes4(b0, b1, b2, b3)
    ensures Or(Or(Or(b0, Place(b1, 0x100)), Place(b2, 0x1_0000)), Place(b3, 0x100_0000)) == Bytes4(b0, b1, b2, b3)
  {
    hide Or, Pow2;
    BytePlaces();
    OrAt(b3, b2 * 0x1_0000, 24, 0x100_0000);
    OrAt(b3 * 0x100 + b2, b1 * 0x100, 16, 0x1_0000);
    OrAt((b3 * 0x100 + b2) * 0x100 + b1, b0, 8, 0x100);
    OrAt(b1, b0, 8, 0x100);
    OrAt(b2, b1 * 0x100 + b0, 16, 0x1_0000);
    OrAt(b3, (b2 * 0x100 + b1) * 0x100 + b0, 24, 0x100_0000);
  }

  /** The masks and shifts reverse the bytes. */
  lemma Swap32Agrees(x: Word32)
    ensures ConstSwap32(x) == Swap32(x)
  {
    hide Or, And, Pow2, ByteOf, WriteLE32, Shr;
    BytePlaces();
    Pow2Zero();
    ShrIsDiv(x, 8);
    ShrIsDiv(x, 24);
    MaskedUp(x, 24, 24, 32);
    MaskedUp(x, 8, 16, 32);
    MaskedDown(x, x / 0x100, 8, 8);
    MaskedDown(x, x / 0x100_0000, 24, 0);
    StoredBytes(x);
    var p := WriteLE32(x);
    OrBytes4(p[3], p[2], p[1], p[0]);
  }

  /** `readLE32`: four bytes shifted to their places and or-ed. */
  function ConstReadLE32(p: Bytes): (r: Word32)
    requires |p| >= 4
    ensures r == ReadLE32(p)
  {
    OrBytes4(p[0], p[1], p[2], p[3]);
    Or(Or(Or(p[0], Place(p[1], 0x100)), Place(p[2], 0x1_0000)), Place(p[3], 0x100_0000))
  }

  function ConstReadLE64(p: Bytes): (r: Word64)
    requires |p| >= 8
    ensures r == ReadLE64(p)
  {
    WordSizes();
    OrAt(ReadLE32(p[4..]), ReadLE32(p), 32, 0x1_0000_0000);
    Or(ConstReadLE32(p), Place(ConstReadLE32(p[4..]), 0x1_0000_0000))
  }

  /** Or-ing eight bytes at their places, highest first. */
  lemma OrBytes8(hi: Word32, b0: Byte, b1: Byte, b2: Byte, b3: Byte)
    ensures Or(Or(Or(Or(Place(hi, 0x1_0000_0000), Place(b3, 0x100_0000)), Place(b2, 0x1_0000)), Place(b1, 0x100)), b0)
         == Bytes4(b0, b1, b2, b3) + hi * 0x1_0000_0000
  {
    hide Or, Pow2;
    BytePlaces();
    OrAt(hi, b3 * 0x100_0000, 32, 0x1_0000_0000);
    OrAt(hi * 0x100 + b3, b2 * 0x1_0000, 24, 0x100_0000);
    OrAt((hi * 0x100 + b3) * 0x100 + b2, b1 * 0x100, 16, 0x1_0000);
    OrAt(((hi * 0x100 + b3) * 0x100 + b2) * 0x100 + b1, b0, 8, 0x100);
  }

  /** Four bytes at the upper places. */
  lemma OrUpperBytes(b4: Byte, b5: Byte, b6: Byte, b7: Byte)
    ensures Or(Or(Or(Place(b7, 0x100_0000_0000_0000), Place(b6, 0x1_0000_0000_0000)), Place(b5, 0x100_0000_0000)), Place(b4, 0x1_0000_0000))
         == Place(Bytes4(b4, b5, b6, b7), 0x1_0000_0000)
  {
    hide Or, Pow2;
    BytePlaces();
    OrAt(b7, b6 * 0x1_0000_0000_0000, 56, 0x100_0000_0000_0000);
    OrAt(b7 * 0x100 + b6, b5 * 0x100_0000_0000, 48, 0x1_0000_0000_0000);
    OrAt((b7 * 0x100 + b6) * 0x100 + b5, b4 * 0x1_0000_0000, 40, 0x100_0000_0000);
  }

  /** The stored bytes of a 64-bit word are those of its halves. */
  lemma StoredHalves(x: Word64)
    ensures var p, q := WriteLE32(x % 0x1_0000_0000), WriteLE32(x / 0x1_0000_0000);
            && p[0] == ByteOf(x, 0) && p[1] == ByteOf(x, 8) && p[2] == ByteOf(x, 16) && p[3] == ByteOf(x, 24)
            && q[0] == ByteOf(x, 32) && q[1] == ByteOf(x, 40) && q[2] == ByteOf(x, 48) && q[3] == ByteOf(x, 56)
  {
    hide Pow2, Shr, Low, WriteLE32;
    WordSizes();
    ShrIsDiv(x, 32);
    StoredBytes(x % 0x1_0000_0000);
    StoredBytes(x / 0x1_0000_0000);
    FieldOfLow(x, 0, 32);
    FieldOfLow(x, 8, 32);
    FieldOfLow(x, 16, 32);
    FieldOfLow(x, 24, 32);
    ShrTwice(x, 32, 0);
    ShrTwice(x, 32, 8);
    ShrTwice(x, 32, 16);
    ShrTwice(x, 32, 24);
  }

  lemma UpperMasks(x: Word64)
    ensures And(Trunc64(x * 0x100_0000_0000_0000), 0xff00_0000_0000_0000) == ByteOf(x, 0) * 0x100_0000_0000_0000
    ensures And(Trunc64(x * 0x100_0000_0000), 0x00ff_0000_0000_0000) == ByteOf(x, 8) * 0x1_0000_0000_0000
    ensures And(Trunc64(x * 0x100_0000), 0x0000_ff00_0000_0000) == ByteOf(x, 16) * 0x100_0000_0000
    ensures And(Trunc64(x * 0x100), 0x0000_00ff_0000_0000) == ByteOf(x, 24) * 0x1_0000_0000
  {
    hide And, Pow2, ByteOf;
    BytePlaces();
    WordSizes();
    MaskedUp(x, 56, 56, 64);
    MaskedUp(x, 40, 48, 64);
    MaskedUp(x, 24, 40, 64);
    MaskedUp(x, 8, 32, 64);
  }

  lemma LowerMasks(x: Word64)
    ensures And(x / 0x100, 0x0000_0000_ff00_0000) == ByteOf(x, 32) * 0x100_0000
    ensures And(x / 0x100_0000, 0x0000_0000_00ff_0000) == ByteOf(x, 40) * 0x1_0000
    ensures And(x / 0x100_0000_0000, 0x0000_0000_0000_ff00) == ByteOf(x, 48) * 0x100
    ensures And(x / 0x100_0000_0000_0000, 0x0000_0000_0000_00ff) == ByteOf(x, 56)
  {
    hide And, Pow2, ByteOf, Shr;
    BytePlaces();
    Pow2Zero();
    ShrIsDiv(x, 8);
    ShrIsDiv(x, 24);
    ShrIsDiv(x, 40);
    ShrIsDiv(x, 56);
    MaskedDown(x, x / 0x100, 8, 24);
    MaskedDown(x, x / 0x100_0000, 24, 16);
    MaskedDown(x, x / 0x100_0000_0000, 40, 8);
    MaskedDown(x, x / 0x100_0000_0000_0000, 56, 0);
  }

  lemma Swap64Agrees(x: Word64)
    ensures ConstSwap64(x) == Swap64(x)
  {
    hide Or, And, ByteOf, WriteLE32;
    UpperMasks(x);
    LowerMasks(x);
    StoredHalves(x);
    var p, q := WriteLE32(x % 0x1_0000_0000), WriteLE32(x / 0x1_0000_0000);
    OrUpperBytes(p[3], p[2], p[1], p[0]);
    OrBytes8(Bytes4(p[3], p[2], p[1], p[0]), q[3], q[2], q[1], q[0]);
  }

  /** Rotation as two shifts or-ed together. */
  lemma RotlAgrees(x: Word64, r: nat)
    requires 0 < r < 64
    ensures Or(Trunc64(Shl(x, r)), Shr(x, 64 - r)) == Rotl64(x, r)
  {
    hide Or, Pow2, Shl, Shr, Low;
    WordSizes();
    ShrIsDiv(Shl(x, r), 64);
    LowOfShl(x, r, 64);
    ShlIsMul(Low(x, 64 - r), r);
    ShrIsDiv(x, 64 - r);
    Pow2Add(r, 64 - r);
    TopBitsFit(x, Pow2(r), Pow2(64 - r));
    OrIsSum(Low(x, 64 - r), Shr(x, 64 - r), r);
    RotlFits(Low(x, 64 - r), Shr(x, 64 - r), Pow2(r), Pow2(64 - r));
  }

  lemma {:induction false} LowOfShl(x: nat, r: nat, n: nat)
    requires r <= n
    ensures Low(Shl(x, r), n) == Shl(Low(x, n - r), r)
  {
    hide Low;
    if r > 0 {
      LowOfShl(x, r - 1, n - 1);
      LowHalf(Shl(x, r), n);
      SameBits(Low(Shl(x, r), n), Shl(Low(x, n - r), r));
    }
  }

  lemma TopBitsFit(x: nat, p: nat, q: nat)
    requires p > 0 && q > 0 && x < p * q
    ensures x / q < p
  {
    var d := x / q - p;
    assert x == (d + p) * q + x % q;
    assert (d + p) * q == d * q + p * q;
    MulAway(d, q);
  }

  lemma RotlFits(low: nat, high: nat, p: nat, q: nat)
    requires low < q && high < p && p * q == 0x1_0000_0000_0000_0000
    ensures Trunc64(low * p + high) == low * p + high
  {
    assert low * p + p <= q * p by { MulAway(low + 1 - q, p); assert (low + 1 - q) * p == low * p + p - q * p; }
  }

  /** The layout of a 1 to 3 byte input: four fields or-ed together, in the order written. */
  function ConstCombined(input: Bytes): (r: Word32)
    requires 1 <= |input| <= 3
    ensures r == Combined(input)
  {
    CombinedFields(input[0], input[|input| / 2], input[|input| - 1], |input|);
    Or(Or(Or(Place(input[0], 0x1_0000), Place(input[|input| / 2], 0x100_0000)), input[|input| - 1]), Place(|input|, 0x100))
  }

  lemma CombinedFields(c1: nat, c2: nat, c3: nat, len: nat)
    requires c1 < 0x100 && c2 < 0x100 && c3 < 0x100 && len < 0x100
    ensures Or(Or(Or(Place(c1, 0x1_0000), Place(c2, 0x100_0000)), c3), Place(len, 0x100)) == Bytes4(c3, len, c1, c2)
  {
    hide Or, Pow2;
    BytePlaces();
    OrAt(c2, c1 * 0x1_0000, 24, 0x100_0000);
    OrAt(c2 * 0x100 + c1, c3, 16, 0x1_0000);
    OrParts(c2 * 0x1_0000 + c1 * 0x100, c3, len, 0, 8);
    OrAt(c2 * 0x100 + c1, len, 8, 0x100);
    OrZero(c3);
  }
}
