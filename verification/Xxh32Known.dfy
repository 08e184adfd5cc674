/** A known answer of the XXH32 algorithm of the xxHash specification, for an input of two stripes and a
    tail of three words and one byte. */
module Xxh32Known {
  import opened Arithmetic
  import opened Bits
  import opened HexWords
  import opened StripeFold
  import opened XxhWords
  import opened Xxh32

  const STRIPE0: Bytes := [
    0x54, 0x68, 0x65, 0x20, 0x71, 0x75, 0x69, 0x63, 0x6B, 0x20, 0x62, 0x72, 0x6F, 0x77, 0x6E, 0x20]

  const STRIPE1: Bytes := [
    0x66, 0x6F, 0x78, 0x20, 0x6A, 0x75, 0x6D, 0x70, 0x73, 0x20, 0x6F, 0x76, 0x65, 0x72, 0x20, 0x74]

  const TAIL: Bytes := [
    0x68, 0x65, 0x20, 0x6C, 0x61, 0x7A, 0x79, 0x20, 0x64, 0x6F, 0x67, 0x2E, 0x0A]

  /** "The quick brown fox jumps over the lazy dog." and a line break. */
  const FOX: Bytes := STRIPE0 + STRIPE1 + TAIL

  lemma RotationPowers()
    ensures Pow2(1) == 2 && Pow2(7) == 0x80 && Pow2(11) == 0x800 && Pow2(12) == 0x1000 && Pow2(13) == 0x2000
    ensures Pow2(14) == 0x4000 && Pow2(15) == 0x8000 && Pow2(16) == 0x1_0000 && Pow2(17) == 0x2_0000
    ensures Pow2(18) == 0x4_0000 && Pow2(19) == 0x8_0000 && Pow2(20) == 0x10_0000 && Pow2(21) == 0x20_0000
    ensures Pow2(25) == 0x200_0000 && Pow2(31) == 0x8000_0000
  {
    WordSizes();
    assert Pow2(7) == 0x80;
    assert Pow2(16) == 2 * Pow2(15) == 4 * Pow2(14) == 8 * Pow2(13) == 16 * Pow2(12) == 32 * Pow2(11);
    assert Pow2(17) == 2 * Pow2(16) && Pow2(18) == 2 * Pow2(17) && Pow2(19) == 2 * Pow2(18) && Pow2(20) == 2 * Pow2(19);
    assert Pow2(21) == 2 * Pow2(20);
    Pow2Add(14, 11);
    Pow2Add(20, 11);
  }

  /** A wrapping product, with its high word. */
  lemma Product32Is(x: Word32, y: Word32, high: nat, low: Word32)
    requires x * y == high * 0x1_0000_0000 + low
    ensures Mul32(x, y) == low
  {
    DivModUnique(x * y, 0x1_0000_0000, high, low);
  }

  /** A rotation by `r`: `high` leaves the word at the top and comes in below. */
  lemma Rotation32Is(x: Word32, r: nat, high: nat, low: nat)
    requires 0 < r < 32 && low < Pow2(32 - r) && x == high * Pow2(32 - r) + low
    ensures Rotl32(x, r) == Trunc32(low * Pow2(r) + high)
  {
    hide Pow2, Shl, Shr, Low;
    ShrIsDiv(x, 32 - r);
    DivModUnique(x, Pow2(32 - r), high, low);
    ShlIsMul(low, r);
  }

  /** A sum with a product, a rotation and another product, the common step of rounds and tail. */
  lemma TurnIs(acc: Word32, input: Word32, m: Word32, r: nat, m': Word32, t: Word32, tHigh: nat, high: nat, low: nat,
               turned: Word32, y: Word32, yHigh: nat)
    requires 0 < r < 32 && input * m == tHigh * 0x1_0000_0000 + t
    requires low < Pow2(32 - r) && Trunc32(acc + t) == high * Pow2(32 - r) + low
    requires Trunc32(low * Pow2(r) + high) == turned && turned * m' == yHigh * 0x1_0000_0000 + y
    ensures Mul32(Rotl32(Add32(acc, Mul32(input, m)), r), m') == y
  {
    hide Rotl32, Mul32, Pow2;
    Product32Is(input, m, tHigh, t);
    Rotation32Is(Add32(acc, t), r, high, low);
    Product32Is(turned, m', yHigh, y);
  }

  /** An xor-shift and a product. */
  lemma Stage32Is(x: Word32, k: nat, m: Word32, y: Word32, a: Hex, s: Hex, r: nat, high: nat)
    requires Shifted(x, Pow2(k), a, s, r) && Value(XorHex(a, s)) * m == high * 0x1_0000_0000 + y
    ensures Mul32(XorShift32(x, k), m) == y
  {
    hide Value, XorHex, Xor, Pow2, Shr, Mul32;
    ShiftIs(x, k, Value(s), r);
    XorOf(a, s);
    Product32Is(XorShift32(x, k), m, high, y);
  }

  lemma Words0()
    ensures ReadLE32(STRIPE0[0..]) == 0x20656854
    ensures ReadLE32(STRIPE0[4..]) == 0x63697571
    ensures ReadLE32(STRIPE0[8..]) == 0x7262206B
    ensures ReadLE32(STRIPE0[12..]) == 0x206E776F
  {
  }

  lemma Rounds0()
    ensures Round(0x24234428, 0x20656854) == 0x78A4C936
    ensures Round(0x85EBCA77, 0x63697571) == 0x7B8173AA
    ensures Round(0x0, 0x7262206B) == 0xCBC7F83D
    ensures Round(0x61C8864F, 0x206E776F) == 0x3A3DE928
  {
    hide Rotl32, Mul32, Pow2;
    RotationPowers();
    TurnIs(0x24234428, 0x20656854, PRIME32_2, 13, PRIME32_1, 0x7C91C70C, 0x10F285E9,
      0x1416, 0x50B34, 0xA1669416, 0x78A4C936, 0x63C04928);
    TurnIs(0x85EBCA77, 0x63697571, PRIME32_2, 13, PRIME32_1, 0xF06BC187, 0x34015A71,
      0xECA, 0x78BFE, 0xF17FCECA, 0x7B8173AA, 0x954136E2);
    TurnIs(0x0, 0x7262206B, PRIME32_2, 13, PRIME32_1, 0xF26A7FBD, 0x3BD65561,
      0x1E4D, 0x27FBD, 0x4FF7BE4D, 0xCBC7F83D, 0x316C3BB0);
    TurnIs(0x61C8864F, 0x206E776F, PRIME32_2, 13, PRIME32_1, 0x8B7C1A99, 0x10F7431A,
      0x1DA8, 0x4A0E8, 0x941D1DA8, 0x3A3DE928, 0x5B8A10F7);
  }

  const LANES0: Lanes := [0x78A4C936, 0x7B8173AA, 0xCBC7F83D, 0x3A3DE928]

  lemma FirstLanes()
    ensures Init(0) == [0x24234428, 0x85EBCA77, 0x0, 0x61C8864F]
  {
  }

  lemma Step0()
    ensures Step(Init(0), STRIPE0) == LANES0
  {
    hide Round, ReadLE32, Init;
    FirstLanes();
    Rounds0();
    Words0();
    assert |STRIPE0| == 16 && STRIPE0[0..] == STRIPE0;
  }

  lemma Words1()
    ensures ReadLE32(STRIPE1[0..]) == 0x20786F66
    ensures ReadLE32(STRIPE1[4..]) == 0x706D756A
    ensures ReadLE32(STRIPE1[8..]) == 0x766F2073
    ensures ReadLE32(STRIPE1[12..]) == 0x74207265
  {
  }

  lemma Rounds1()
    ensures Round(0x78A4C936, 0x20786F66) == 0x194E4195
    ensures Round(0x7B8173AA, 0x706D756A) == 0x4915F9CA
    ensures Round(0xCBC7F83D, 0x766F2073) == 0x9302E043
    ensures Round(0x3A3DE928, 0x74207265) == 0xFBBD8299
  {
    hide Rotl32, Mul32, Pow2;
    RotationPowers();
    TurnIs(0x78A4C936, 0x20786F66, PRIME32_2, 13, PRIME32_1, 0x6084446A, 0x10FC7A1C,
      0x1B25, 0x10DA0, 0x21B41B25, 0x194E4195, 0x14D47678);
    TurnIs(0x7B8173AA, 0x706D756A, PRIME32_2, 13, PRIME32_1, 0x7BD53846, 0x3AD06B65,
      0x1EEA, 0x6ABF0, 0xD57E1EEA, 0x4915F9CA, 0x83F21AA9);
    TurnIs(0xCBC7F83D, 0x766F2073, PRIME32_2, 13, PRIME32_1, 0x45D3D375, 0x3DF4D189,
      0x233, 0x3CBB2, 0x79764233, 0x9302E043, 0x4B114F00);
    TurnIs(0x3A3DE928, 0x74207265, PRIME32_2, 13, PRIME32_1, 0x110FDEF3, 0x3CBFD10F,
      0x969, 0x5C81B, 0xB9036969, 0xFBBD8299, 0x725832BC);
  }

  const LANES1: Lanes := [0x194E4195, 0x4915F9CA, 0x9302E043, 0xFBBD8299]

  lemma Step1()
    ensures Step(LANES0, STRIPE1) == LANES1
  {
    hide Round, ReadLE32, Init;
    Rounds1();
    Words1();
    assert |STRIPE1| == 16 && STRIPE1[0..] == STRIPE1;
  }

  lemma Parts()
    ensures |FOX| == 45
    ensures FOX[..32] == STRIPE0 + STRIPE1
    ensures FOX[32..] == TAIL
  {
    assert |STRIPE0| == 16 && |STRIPE1| == 16 && |TAIL| == 13;
  }

  lemma Consuming()
    ensures Consumed(0, STRIPE0 + STRIPE1) == LANES1
  {
    hide Step, Init;
    Step0();
    Step1();
    var both := STRIPE0 + STRIPE1;
    assert |STRIPE0| == 16 && |STRIPE1| == 16 && both[..16] == STRIPE0 && both[16..] == STRIPE1;
    assert STRIPE0[..0] == [] && STRIPE0[0..] == STRIPE0;
    assert Fold(Step, Init(0), 16, STRIPE0[..0]) == Init(0);
    assert Fold(Step, Init(0), 16, STRIPE0) == LANES0;
  }

  lemma Rotations()
    ensures Rotl32(0x194E4195, 1) == 0x329C832A
    ensures Rotl32(0x4915F9CA, 7) == 0x8AFCE524
    ensures Rotl32(0x9302E043, 12) == 0x2E043930
    ensures Rotl32(0xFBBD8299, 18) == 0xA67EEF6
  {
    hide Rotl32, Pow2;
    RotationPowers();
    Rotation32Is(0x194E4195, 1, 0x0, 0x194E4195);
    Rotation32Is(0x4915F9CA, 7, 0x24, 0x115F9CA);
    Rotation32Is(0x9302E043, 12, 0x930, 0x2E043);
    Rotation32Is(0xFBBD8299, 18, 0x3EEF6, 0x299);
  }

  lemma Converged()
    ensures Converge(LANES1) == 0xF6059074
  {
    hide Rotl32;
    Rotations();
  }

  lemma TailWords()
    ensures |TAIL| == 13
    ensures ReadLE32(TAIL[0..]) == 0x6C206568
    ensures ReadLE32(TAIL[4..]) == 0x20797A61
    ensures ReadLE32(TAIL[8..]) == 0x2E676F64
    ensures TAIL[12] == 0x0A
  {
  }

  lemma Four0()
    ensures Process4(0xF60590A1, TAIL[0..]) == 0x41CF37CC
  {
    hide Rotl32, Mul32, Pow2, ReadLE32;
    TailWords();
    RotationPowers();
    TurnIs(0xF60590A1, 0x6C206568, PRIME32_3, 17, PRIME32_4, 0x1AF4D9C8, 0x523C04F7,
      0x21F4, 0x6A69, 0xD4D221F4, 0x41CF37CC, 0x211D04B4);
  }

  lemma Four1()
    ensures Process4(0x41CF37CC, TAIL[4..]) == 0x223D479E
  {
    hide Rotl32, Mul32, Pow2, ReadLE32;
    TailWords();
    RotationPowers();
    TurnIs(0x41CF37CC, 0x20797A61, PRIME32_3, 17, PRIME32_4, 0xE792171D, 0x18B2B94E,
      0x52C2, 0x4EE9, 0x9DD252C2, 0x223D479E, 0x188E4DC5);
  }

  lemma Four2()
    ensures Process4(0x223D479E, TAIL[8..]) == 0x24AC02EF
  {
    hide Rotl32, Mul32, Pow2, ReadLE32;
    TailWords();
    RotationPowers();
    TurnIs(0x223D479E, 0x2E676F64, PRIME32_3, 17, PRIME32_4, 0x97E382D4, 0x234AC5EA,
      0x17441, 0x4A72, 0x94E57441, 0x24AC02EF, 0x172ACB84);
  }

  lemma One()
    ensures Process1(0x24AC02EF, 0x0A) == 0x631F7E20
  {
    hide Rotl32, Mul32, Pow2;
    RotationPowers();
    TurnIs(0x24AC02EF, 0xA, PRIME32_5, 11, PRIME32_1, 0xDF600CEA, 0x0,
      0x20, 0xC0FD9, 0x607EC820, 0x631F7E20, 0x3BA3289F);
  }

  lemma FoxTail()
    ensures Tail(0xF60590A1, TAIL) == 0x631F7E20
  {
    hide Process4, Process1, ReadLE32;
    TailWords();
    Four0();
    Four1();
    Four2();
    One();
    assert TAIL[0..] == TAIL && TAIL[4..][4..] == TAIL[8..] && TAIL[8..][4..] == TAIL[12..] && TAIL[12..][1..] == [];
    assert Tail(0x24AC02EF, TAIL[12..]) == Tail(0x631F7E20, []);
    assert Tail(0x223D479E, TAIL[8..]) == Tail(0x24AC02EF, TAIL[12..]);
    assert Tail(0x41CF37CC, TAIL[4..]) == Tail(0x223D479E, TAIL[8..]);
  }

  lemma FoxAvalanche()
    ensures Avalanche(0x631F7E20) == 0x51899A39
  {
    hide Mul32, Pow2, Shr, Xor;
    RotationPowers();
    Stage32Is(0x631F7E20, 15, PRIME32_2, 0xB49041F2,
      Hex(0, 0, 0, 0, 0, 0, 0, 0, 6, 3, 1, 15, 7, 14, 2, 0),
      Hex(0, 0, 0, 0, 0, 0, 0, 0, 0, 0, 0, 0, 12, 6, 3, 14),
      0x7E20, 0x33DAC72A);
    Stage32Is(0xB49041F2, 13, PRIME32_3, 0x5189CBB0,
      Hex(0, 0, 0, 0, 0, 0, 0, 0, 11, 4, 9, 0, 4, 1, 15, 2),
      Hex(0, 0, 0, 0, 0, 0, 0, 0, 0, 0, 0, 5, 10, 4, 8, 2),
      0x1F2, 0x8957A301);
    ShiftIs(0x5189CBB0, 16, 0x5189, 0xCBB0);
    XorOf(
      Hex(0, 0, 0, 0, 0, 0, 0, 0, 5, 1, 8, 9, 12, 11, 11, 0),
      Hex(0, 0, 0, 0, 0, 0, 0, 0, 0, 0, 0, 0, 5, 1, 8, 9));
  }

  /** The hash of the sentence. */
  lemma Fox()
    ensures Hash(0, FOX) == 0x51899A39
  {
    hide Consumed, Converge, Tail, Avalanche;
    Parts();
    Consuming();
    Converged();
    FoxTail();
    FoxAvalanche();
  }

  lemma EmptyAvalanche()
    ensures Avalanche(0x165667B1) == 0x2CC5D05
  {
    hide Mul32, Pow2, Shr, Xor;
    RotationPowers();
    Stage32Is(0x165667B1, 15, PRIME32_2, 0x7E00CC7B,
      Hex(0, 0, 0, 0, 0, 0, 0, 0, 1, 6, 5, 6, 6, 7, 11, 1),
      Hex(0, 0, 0, 0, 0, 0, 0, 0, 0, 0, 0, 0, 2, 12, 10, 12),
      0x67B1, 0xBAF67E7);
    Stage32Is(0x7E00CC7B, 13, PRIME32_3, 0x2CC5FC9,
      Hex(0, 0, 0, 0, 0, 0, 0, 0, 7, 14, 0, 0, 12, 12, 7, 11),
      Hex(0, 0, 0, 0, 0, 0, 0, 0, 0, 0, 0, 3, 15, 0, 0, 6),
      0xC7B, 0x5FD667DB);
    ShiftIs(0x2CC5FC9, 16, 0x2CC, 0x5FC9);
    XorOf(
      Hex(0, 0, 0, 0, 0, 0, 0, 0, 0, 2, 12, 12, 5, 15, 12, 9),
      Hex(0, 0, 0, 0, 0, 0, 0, 0, 0, 0, 0, 0, 0, 2, 12, 12));
  }

  /** The hash of nothing. */
  lemma Empty()
    ensures Hash(0, []) == 0x2CC5D05
  {
    hide Avalanche;
    EmptyAvalanche();
    var none: Bytes := [];
    assert none[0..] == none;
  }

  lemma EmptySeededAvalanche()
    ensures Avalanche(0xB48DE162) == 0x36B78AE7
  {
    hide Mul32, Pow2, Shr, Xor;
    RotationPowers();
    Stage32Is(0xB48DE162, 15, PRIME32_2, 0xF515EA3F,
      Hex(0, 0, 0, 0, 0, 0, 0, 0, 11, 4, 8, 13, 14, 1, 6, 2),
      Hex(0, 0, 0, 0, 0, 0, 0, 0, 0, 0, 0, 1, 6, 9, 1, 11),
      0x6162, 0x5E734EB2);
    Stage32Is(0xF515EA3F, 13, PRIME32_3, 0x36B7BC50,
      Hex(0, 0, 0, 0, 0, 0, 0, 0, 15, 5, 1, 5, 14, 10, 3, 15),
      Hex(0, 0, 0, 0, 0, 0, 0, 0, 0, 0, 0, 7, 10, 8, 10, 15),
      0xA3F, 0xBA62E3F0);
    ShiftIs(0x36B7BC50, 16, 0x36B7, 0xBC50);
    XorOf(
      Hex(0, 0, 0, 0, 0, 0, 0, 0, 3, 6, 11, 7, 11, 12, 5, 0),
      Hex(0, 0, 0, 0, 0, 0, 0, 0, 0, 0, 0, 0, 3, 6, 11, 7));
  }

  /** The hash of nothing, with a seed. */
  lemma EmptySeeded()
    ensures Hash(0x9E3779B1, []) == 0x36B78AE7
  {
    hide Avalanche;
    EmptySeededAvalanche();
    var none: Bytes := [];
    assert none[0..] == none;
  }

  /** The lanes a seed starts with. */
  lemma SeededLanes()
    ensures Init(PRIME32_1) == [0xC25ABDD9, 0x24234428, 0x9E3779B1, 0x0]
  {
  }
}
