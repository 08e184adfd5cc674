/** The mixing steps of XXH3: the 64x64 to 128-bit multiply, its folding, and the avalanches. */
module Xxh3Mix {
  import opened Bits
  import opened StripeFold
  import opened XxhWords

  // ---- the 128-bit product ----

  datatype U128 = U128(low64: nat, high64: nat)

  predicate IsWord(x: nat) { x < 0x1_0000_0000_0000_0000 }

  /** The compiler-provided 128-bit multiply, split into two words. */
  function WideMult(lhs: nat, rhs: nat): U128 {
    Words(lhs * rhs)
  }

  function Words(x: nat): U128 {
    U128(x % 0x1_0000_0000_0000_0000, x / 0x1_0000_0000_0000_0000)
  }

  function LoLo(lhs: nat, rhs: nat): nat { (lhs % 0x1_0000_0000) * (rhs % 0x1_0000_0000) % 0x1_0000_0000_0000_0000 }
  function HiLo(lhs: nat, rhs: nat): nat { (lhs / 0x1_0000_0000) * (rhs % 0x1_0000_0000) % 0x1_0000_0000_0000_0000 }
  function LoHi(lhs: nat, rhs: nat): nat { (lhs % 0x1_0000_0000) * (rhs / 0x1_0000_0000) % 0x1_0000_0000_0000_0000 }
  function HiHi(lhs: nat, rhs: nat): nat { (lhs / 0x1_0000_0000) * (rhs / 0x1_0000_0000) % 0x1_0000_0000_0000_0000 }

  /** The grade-school multiply for targets without a wide multiply.  Every sum and product is
      taken modulo 2^64, as the 64-bit machine words take it; the bitwise or that assembles the
      low word is written as a sum (`LowWordParts`). */
  function PortableMult(lhs: nat, rhs: nat): U128 {
    AddProducts(LoLo(lhs, rhs), HiLo(lhs, rhs), LoHi(lhs, rhs), HiHi(lhs, rhs))
  }

  function AddProducts(loLo: nat, hiLo: nat, loHi: nat, hiHi: nat): U128 {
    var cross := (loLo / 0x1_0000_0000 + hiLo % 0x1_0000_0000 + loHi) % 0x1_0000_0000_0000_0000;
    var upper := (hiLo / 0x1_0000_0000 + cross / 0x1_0000_0000 + hiHi) % 0x1_0000_0000_0000_0000;
    var lower := cross * 0x1_0000_0000 % 0x1_0000_0000_0000_0000 + loLo % 0x1_0000_0000;
    U128(lower, upper)
  }

  /** The low word is assembled by a bitwise or of two parts that do not meet. */
  lemma LowWordParts(cross: nat, loLo: nat)
    ensures var high, low := Trunc64(cross * 0x1_0000_0000), Trunc32(loLo);
            Xor(high, low) == high + low && high + low < 0x1_0000_0000_0000_0000
  {
    hide Xor;
    var rest := cross % 0x1_0000_0000;
    assert cross * 0x1_0000_0000 % 0x1_0000_0000_0000_0000 == rest * 0x1_0000_0000;
    WordSizes();
    ShlIsMul(rest, 32);
    ShrIsDiv(loLo % 0x1_0000_0000, 32);
    XorDisjoint(rest, loLo % 0x1_0000_0000, 32);
  }

  lemma ProductBelow(a: nat, b: nat, m: nat, square: nat)
    requires a <= m && b <= m && square == m * m
    ensures a * b <= square
  {
    assert a * b <= m * b <= m * m;
  }

  lemma HalfProductBound(a: nat, b: nat)
    requires a < 0x1_0000_0000 && b < 0x1_0000_0000
    ensures a * b <= 0xFFFF_FFFE_0000_0001 && a * b % 0x1_0000_0000_0000_0000 == a * b
  {
    ProductBelow(a, b, 0xFFFF_FFFF, 0xFFFF_FFFE_0000_0001);
    DivModWord(a * b, 0, a * b);
  }

  /** None of the intermediate sums overflows 64 bits, so no carry is lost. */
  lemma PortableMultNeverOverflows(lhs: nat, rhs: nat)
    requires IsWord(lhs) && IsWord(rhs)
    ensures LoLo(lhs, rhs) == (lhs % 0x1_0000_0000) * (rhs % 0x1_0000_0000)
    ensures HiLo(lhs, rhs) == (lhs / 0x1_0000_0000) * (rhs % 0x1_0000_0000)
    ensures LoHi(lhs, rhs) == (lhs % 0x1_0000_0000) * (rhs / 0x1_0000_0000)
    ensures HiHi(lhs, rhs) == (lhs / 0x1_0000_0000) * (rhs / 0x1_0000_0000)
    ensures var cross := LoLo(lhs, rhs) / 0x1_0000_0000 + HiLo(lhs, rhs) % 0x1_0000_0000 + LoHi(lhs, rhs);
            cross < 0x1_0000_0000_0000_0000 && HiLo(lhs, rhs) / 0x1_0000_0000 + cross / 0x1_0000_0000 + HiHi(lhs, rhs) < 0x1_0000_0000_0000_0000
  {
    HalvesFit(lhs / 0x1_0000_0000, lhs % 0x1_0000_0000, rhs / 0x1_0000_0000, rhs % 0x1_0000_0000);
  }

  lemma HalvesFit(a: nat, b: nat, c: nat, d: nat)
    requires a < 0x1_0000_0000 && b < 0x1_0000_0000 && c < 0x1_0000_0000 && d < 0x1_0000_0000
    ensures b * d % 0x1_0000_0000_0000_0000 == b * d && a * d % 0x1_0000_0000_0000_0000 == a * d && b * c % 0x1_0000_0000_0000_0000 == b * c && a * c % 0x1_0000_0000_0000_0000 == a * c
    ensures var cross := b * d / 0x1_0000_0000 + a * d % 0x1_0000_0000 + b * c;
            cross < 0x1_0000_0000_0000_0000 && a * d / 0x1_0000_0000 + cross / 0x1_0000_0000 + a * c < 0x1_0000_0000_0000_0000
  {
    HalfProductBound(b, d);
    HalfProductBound(a, d);
    HalfProductBound(b, c);
    HalfProductBound(a, c);
    SumsFit(b * d, a * d, b * c, a * c);
  }

  lemma SumsFit(loLo: nat, hiLo: nat, loHi: nat, hiHi: nat)
    requires loLo <= 0xFFFF_FFFE_0000_0001 && hiLo <= 0xFFFF_FFFE_0000_0001
    requires loHi <= 0xFFFF_FFFE_0000_0001 && hiHi <= 0xFFFF_FFFE_0000_0001
    ensures var cross := loLo / 0x1_0000_0000 + hiLo % 0x1_0000_0000 + loHi;
            cross < 0x1_0000_0000_0000_0000 && hiLo / 0x1_0000_0000 + cross / 0x1_0000_0000 + hiHi < 0x1_0000_0000_0000_0000
  {
  }

  /** The schoolbook identity behind the portable multiply. */
  lemma SplitProduct(a: nat, b: nat, c: nat, d: nat, x: nat, y: nat)
    requires x == a * 0x1_0000_0000 + b && y == c * 0x1_0000_0000 + d
    ensures x * y == a * c * 0x1_0000_0000_0000_0000 + (a * d + b * c) * 0x1_0000_0000 + b * d
  {
    assert x * y == a * 0x1_0000_0000 * y + b * y;
    assert a * y == a * c * 0x1_0000_0000 + a * d;
    assert b * y == b * c * 0x1_0000_0000 + b * d;
  }

  /** The portable multiply is exact: high and low word together are the product. */
  lemma PortableMultIsExact(lhs: nat, rhs: nat)
    requires IsWord(lhs) && IsWord(rhs)
    ensures var p := PortableMult(lhs, rhs);
            IsWord(p.low64) && IsWord(p.high64) && p.high64 * 0x1_0000_0000_0000_0000 + p.low64 == lhs * rhs
    ensures PortableMult(lhs, rhs) == WideMult(lhs, rhs)
  {
    PortableMultNeverOverflows(lhs, rhs);
    hide LoLo, HiLo, LoHi, HiHi, Words, AddProducts;
    SplitProduct(lhs / 0x1_0000_0000, lhs % 0x1_0000_0000, rhs / 0x1_0000_0000, rhs % 0x1_0000_0000, lhs, rhs);
    AddProductsIsExact(LoLo(lhs, rhs), HiLo(lhs, rhs), LoHi(lhs, rhs), HiHi(lhs, rhs), lhs * rhs);
  }

  lemma DivModWord(x: nat, q: nat, r: nat)
    requires x == q * 0x1_0000_0000_0000_0000 + r && r < 0x1_0000_0000_0000_0000
    ensures x / 0x1_0000_0000_0000_0000 == q && x % 0x1_0000_0000_0000_0000 == r
  {
  }

  lemma AddProductsIsExact(loLo: nat, hiLo: nat, loHi: nat, hiHi: nat, product: nat)
    requires product == hiHi * 0x1_0000_0000_0000_0000 + (hiLo + loHi) * 0x1_0000_0000 + loLo
    requires var cross := loLo / 0x1_0000_0000 + hiLo % 0x1_0000_0000 + loHi;
             cross < 0x1_0000_0000_0000_0000 && hiLo / 0x1_0000_0000 + cross / 0x1_0000_0000 + hiHi < 0x1_0000_0000_0000_0000
    ensures AddProducts(loLo, hiLo, loHi, hiHi) == Words(product)
    ensures var p := Words(product); p.high64 < 0x1_0000_0000_0000_0000 && p.high64 * 0x1_0000_0000_0000_0000 + p.low64 == product
  {
    var cross := loLo / 0x1_0000_0000 + hiLo % 0x1_0000_0000 + loHi;
    var carry, rest := cross / 0x1_0000_0000, cross % 0x1_0000_0000;
    var upper, lower := hiLo / 0x1_0000_0000 + carry + hiHi, rest * 0x1_0000_0000 + loLo % 0x1_0000_0000;
    DivModWord(cross * 0x1_0000_0000, carry, rest * 0x1_0000_0000);
    assert product == upper * 0x1_0000_0000_0000_0000 + lower;
    DivModWord(product, upper, lower);
    DivModWord(cross, 0, cross);
    DivModWord(upper, 0, upper);
  }

  // ---- folding and avalanches ----

  /** The two halves of the product, xor-ed together. */
  function Fold128(p: U128): Word64 {
    Xor64(Trunc64(p.low64), Trunc64(p.high64))
  }

  function Mul128Fold64(lhs: Word64, rhs: Word64): Word64 {
    Fold128(WideMult(lhs, rhs))
  }

  /** Folding the portable product gives the same word on every target. */
  lemma PortableFoldAgrees(lhs: Word64, rhs: Word64)
    ensures Fold128(PortableMult(lhs, rhs)) == Mul128Fold64(lhs, rhs)
  {
    hide Fold128, WideMult, PortableMult;
    PortableMultIsExact(lhs, rhs);
  }

  function Xxh64Avalanche(h: Word64): Word64 {
    XorShift64(Mul64(XorShift64(Mul64(XorShift64(h, 33), PRIME64_2), 29), PRIME64_3), 32)
  }

  function Xxh3Avalanche(h: Word64): Word64 {
    XorShift64(Mul64(XorShift64(h, 37), 0x165667919E3779F9), 32)
  }

  const RRMXMX_MULT: Word64 := 0x9FB21C651E98DF25

  function RotXor(h: Word64): Word64 {
    Xor64(Xor64(h, Rotl64(h, 49)), Rotl64(h, 24))
  }

  function AddLenShift(h: Word64, len: Word64): Word64 {
    Xor64(h, Add64(Shr64(h, 35), len))
  }

  function Rrmxmx(h: Word64, len: Word64): Word64 {
    XorShift64(Mul64(AddLenShift(Mul64(RotXor(h), RRMXMX_MULT), len), RRMXMX_MULT), 28)
  }

  function LenTimesPrime(len: nat): Word64 {
    Mul64(Trunc64(len), PRIME64_1)
  }

  /** Mixes 16 bytes of input with 16 bytes of secret. */
  function Mix16B(input: Bytes, secret: Bytes, seed: Word64): Word64
    requires |input| >= 16 && |secret| >= 16
  {
    Mul128Fold64(Xor64(ReadLE64(input), Add64(ReadLE64(secret), seed)),
                 Xor64(ReadLE64(input[8..]), Sub64(ReadLE64(secret[8..]), seed)))
  }

  // ---- merging the accumulators ----

  function Mix2Accs(a: Word64, b: Word64, secret: Bytes): Word64
    requires |secret| >= 16
  {
    Mul128Fold64(Xor64(a, ReadLE64(secret)), Xor64(b, ReadLE64(secret[8..])))
  }

  function MergeSum(acc: seq<Word64>, secret: Bytes, start: Word64, n: nat): Word64
    requires |acc| >= 2 * n && |secret| >= 16 * n
  {
    if n == 0 then start
    else Add64(MergeSum(acc, secret, start, n - 1), Mix2Accs(acc[2 * n - 2], acc[2 * n - 1], secret[16 * n - 16..]))
  }

  function MergeAccs(acc: seq<Word64>, secret: Bytes, start: Word64): Word64
    requires |acc| == 8 && |secret| >= 64
  {
    Xxh3Avalanche(MergeSum(acc, secret, start, |acc| / 2))
  }

  method ComputeMergeSum(acc: seq<Word64>, secret: Bytes, start: Word64, pairs: nat) returns (sum: Word64)
    requires |acc| >= 2 * pairs && |secret| >= 16 * pairs
    ensures sum == MergeSum(acc, secret, start, pairs)
  {
    hide Add64, Mix2Accs;
    sum := start;
    for i := 0 to pairs
      invariant sum == MergeSum(acc, secret, start, i)
    {
      sum := Add64(sum, Mix2Accs(acc[2 * i], acc[2 * i + 1], secret[16 * i..]));
    }
  }

  method ComputeMergeAccs(acc: seq<Word64>, secret: Bytes, start: Word64) returns (h: Word64)
    requires |acc| == 8 && |secret| >= 64
    ensures h == MergeAccs(acc, secret, start)
  {
    hide MergeSum, Xxh3Avalanche;
    h := ComputeMergeSum(acc, secret, start, |acc| / 2);
    h := Xxh3Avalanche(h);
  }
}
