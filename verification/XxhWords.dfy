/** Machine words of the hash code: 32- and 64-bit unsigned integers with wrap-around written out,
    little-endian loads and stores, byte swaps, and the constants of the xxHash specification. */
module XxhWords {
  import opened Bits
  import opened StripeFold

  type Word32 = x: nat | x < 0x1_0000_0000
  type Word64 = x: nat | x < 0x1_0000_0000_0000_0000

  const PRIME32_1: Word32 := 0x9E3779B1
  const PRIME32_2: Word32 := 0x85EBCA77
  const PRIME32_3: Word32 := 0xC2B2AE3D
  const PRIME32_4: Word32 := 0x27D4EB2F
  const PRIME32_5: Word32 := 0x165667B1

  const PRIME64_1: Word64 := 0x9E3779B185EBCA87
  const PRIME64_2: Word64 := 0xC2B2AE3D27D4EB4F
  const PRIME64_3: Word64 := 0x165667B19E3779F9
  const PRIME64_4: Word64 := 0x85EBCA77C2B2AE63
  const PRIME64_5: Word64 := 0x27D4EB2F165667C5

  function Trunc32(x: int): Word32 { x % 0x1_0000_0000 }
  function Trunc64(x: int): Word64 { x % 0x1_0000_0000_0000_0000 }

  function Add32(x: Word32, y: Word32): Word32 { Trunc32(x + y) }
  function Mul32(x: Word32, y: Word32): Word32 { Trunc32(x * y) }
  function Add64(x: Word64, y: Word64): Word64 { Trunc64(x + y) }
  function Sub64(x: Word64, y: Word64): Word64 { Trunc64(x - y) }
  function Mul64(x: Word64, y: Word64): Word64 { Trunc64(x * y) }

  function Xor32(x: Word32, y: Word32): Word32 {
    assert Xor(x, y) < 0x1_0000_0000 by { hide Xor; WordSizes(); XorBelow(x, y, 32); }
    Xor(x, y)
  }

  function Xor64(x: Word64, y: Word64): Word64 {
    assert Xor(x, y) < 0x1_0000_0000_0000_0000 by { hide Xor; WordSizes(); XorBelow(x, y, 64); }
    Xor(x, y)
  }

  function Shr64(x: Word64, k: nat): Word64 {
    assert Shr(x, k) <= x by { ShrAtMost(x, k); }
    Shr(x, k)
  }

  function XorShift64(x: Word64, k: nat): Word64 {
    Xor64(x, Shr64(x, k))
  }

  /** Rotation of a `w`-bit word: the low `w - r` bits move up, the high `r` bits come in below. */
  function Rotl(x: nat, r: nat, w: nat): nat
    requires r <= w
  {
    Shl(Low(x, w - r), r) + Shr(x, w - r)
  }

  function Rotl32(x: Word32, r: nat): Word32
    requires 0 < r < 32
  {
    Trunc32(Rotl(x, r, 32))
  }

  function Rotl64(x: Word64, r: nat): Word64
    requires 0 < r < 64
  {
    Trunc64(Rotl(x, r, 64))
  }

  /** Terms of a wrapping sum may be added in any order. */
  lemma AddSwap(s: Word64, x: Word64, y: Word64)
    ensures Add64(Add64(s, x), y) == Add64(Add64(s, y), x)
  {
    TruncSum(s + x, y);
    TruncSum(s + y, x);
  }

  lemma TruncSum(a: nat, b: nat)
    ensures Trunc64(Trunc64(a) + b) == Trunc64(a + b)
  {
  }

  // ---- bytes ----

  function Bytes4(b0: nat, b1: nat, b2: nat, b3: nat): nat {
    b0 + 0x100 * (b1 + 0x100 * (b2 + 0x100 * b3))
  }

  function ReadLE32(p: Bytes): Word32
    requires |p| >= 4
  {
    Bytes4(p[0], p[1], p[2], p[3])
  }

  function ReadLE64(p: Bytes): Word64
    requires |p| >= 8
  {
    ReadLE32(p) + ReadLE32(p[4..]) * 0x1_0000_0000
  }

  function WriteLE32(v: Word32): (p: Bytes)
    ensures |p| == 4
  {
    [v % 0x100, v / 0x100 % 0x100, v / 0x100 / 0x100 % 0x100, v / 0x100 / 0x100 / 0x100]
  }

  function WriteLE64(v: Word64): (p: Bytes)
    ensures |p| == 8
  {
    WriteLE32(v % 0x1_0000_0000) + WriteLE32(v / 0x1_0000_0000)
  }

  /** The four bytes of a word in the opposite order. */
  function Swap32(x: Word32): Word32 {
    var p := WriteLE32(x);
    ReadLE32([p[3], p[2], p[1], p[0]])
  }

  function Swap64(x: Word64): Word64 {
    Swap32(x / 0x1_0000_0000) + Swap32(x % 0x1_0000_0000) * 0x1_0000_0000
  }

  lemma WriteRead32(p: Bytes)
    requires |p| >= 4
    ensures WriteLE32(ReadLE32(p)) == p[..4]
  {
    DigitsOf(p[0], p[1], p[2], p[3]);
  }

  lemma WriteRead64(p: Bytes)
    requires |p| >= 8
    ensures WriteLE64(ReadLE64(p)) == p[..8]
  {
    hide WriteLE32, ReadLE32;
    WriteRead32(p);
    WriteRead32(p[4..]);
  }

  /** A load sees eight bytes. */
  lemma SameRead(p: Bytes, i: nat, q: Bytes, j: nat)
    requires i + 8 <= |p| && j + 8 <= |q| && p[i..i + 8] == q[j..j + 8]
    ensures ReadLE64(p[i..]) == ReadLE64(q[j..])
  {
    ReadsEight(p[i..]);
    ReadsEight(q[j..]);
    assert p[i..][..8] == p[i..i + 8] && q[j..][..8] == q[j..j + 8];
  }

  /** A load from a stretch of 64 bytes. */
  lemma PieceRead(p: Bytes, from: nat, at: nat)
    requires from + 64 <= |p| && at + 8 <= 64
    ensures ReadLE64(p[from..from + 64][at..]) == ReadLE64(p[from + at..])
  {
    hide ReadLE64;
    var piece := p[from..from + 64];
    var a, b := piece[at..at + 8], p[from + at..from + at + 8];
    assert |a| == |b| == 8;
    forall k | 0 <= k < 8 ensures a[k] == b[k] {
      assert a[k] == piece[at + k] == p[from + (at + k)];
    }
    assert a == b;
    SameRead(piece, at, p, from + at);
  }

  lemma ReadsEight(p: Bytes)
    requires |p| >= 8
    ensures ReadLE64(p) == ReadLE64(p[..8])
  {
    assert p[..8][4..] == p[4..8];
  }

  lemma ReadWrite64(v: Word64)
    ensures ReadLE64(WriteLE64(v)) == v
  {
    hide Bytes4;
    var low, high := v % 0x1_0000_0000, v / 0x1_0000_0000;
    ReadWrite32(low);
    ReadWrite32(high);
    ReadsFour(WriteLE64(v), WriteLE32(low));
    assert WriteLE64(v)[4..] == WriteLE32(high);
  }

  lemma ReadWrite32(v: Word32)
    ensures ReadLE32(WriteLE32(v)) == v
  {
  }

  lemma ReadsFour(p: Bytes, q: Bytes)
    requires |p| >= 4 && p[..4] == q
    ensures ReadLE32(p) == ReadLE32(q)
  {
  }

  lemma DigitsOf(b0: nat, b1: nat, b2: nat, b3: nat)
    requires b0 < 0x100 && b1 < 0x100 && b2 < 0x100 && b3 < 0x100
    ensures var v := Bytes4(b0, b1, b2, b3);
            && v % 0x100 == b0 && v / 0x100 % 0x100 == b1
            && v / 0x100 / 0x100 % 0x100 == b2 && v / 0x100 / 0x100 / 0x100 == b3
  {
  }

  /** `XXH_mult32to64`: the product of the low halves of two 64-bit words. */
  function Mult32to64(x: Word64, y: Word64): Word64 {
    Mul64(x % 0x1_0000_0000, y % 0x1_0000_0000)
  }
}
