/** Known answers of the published XXH3 algorithm, for inputs of 17 to 240 bytes.

    The secret counts upwards from 0, so that every piece of it is different; the inputs are zero except
    for 16 bytes, which meet a chunk from the front as well as one from the back. */
module Xxh3KnownMid {
  import opened Bits
  import opened HexWords
  import opened StripeFold
  import opened XxhWords
  import opened Xxh3Mix
  import opened Xxh3Long
  import opened Xxh3Short
  import opened Xxh3OneShot

  // ---- inputs and secrets ----

  /** 0, 1, 2, ... */
  function Ramp(n: nat): (r: Bytes)
    requires n <= 0x100
    ensures |r| == n
  {
    seq(n, i requires 0 <= i < n => i)
  }

  /** Zeros, except for a ramp of `m` bytes. */
  function Sparse(n: nat, at: nat, m: nat): (r: Bytes)
    requires m <= 0x100
    ensures |r| == n
  {
    seq(n, i requires 0 <= i < n => if at <= i < at + m then i - at else 0)
  }

  const SECRET: Secret := Ramp(136)

  function RampWord(off: nat): Word64
    requires off <= 0xF8
  {
    0x0706050403020100 + off * 0x0101010101010101
  }

  lemma RampRead(off: nat)
    requires off <= 128
    ensures ReadLE64(SECRET[off..]) == RampWord(off)
  {
  }

  lemma RampReads(off: nat)
    requires off <= 120
    ensures ReadLE64(SECRET[off..]) == RampWord(off) && ReadLE64(SECRET[off..][8..]) == RampWord(off + 8)
  {
    hide ReadLE64, RampWord;
    RampRead(off);
    RampRead(off + 8);
    assert SECRET[off..][8..] == SECRET[off + 8..];
  }

  lemma ZeroReads(n: nat, at: nat, m: nat, off: nat)
    requires m <= 0x100 && off + 16 <= n && (off + 16 <= at || at + m <= off)
    ensures ReadLE64(Sparse(n, at, m)[off..]) == 0 && ReadLE64(Sparse(n, at, m)[off..][8..]) == 0
  {
  }

  // ---- chunks ----

  /** A chunk of zeros is mixed to the folded product of its secret. */
  lemma QuietMix(input: Bytes, off: nat)
    requires |input| >= 16 && ReadLE64(input) == 0 && ReadLE64(input[8..]) == 0 && off <= 120
    ensures Mix16B(input, SECRET[off..], 0) == Mul128Fold64(RampWord(off), RampWord(off + 8))
  {
    hide Mul128Fold64, Xor64, ReadLE64, RampWord;
    RampReads(off);
    ZeroXor(RampWord(off));
    ZeroXor(RampWord(off + 8));
  }

  lemma Fold0()
    ensures Mul128Fold64(RampWord(0), RampWord(8)) == 0x18A230A111254935
  {
    hide Mul128Fold64;
    FoldIs(0x706050403020100, 0xF0E0D0C0B0A0908,
      Hex(1, 8, 12, 11, 8, 12, 5, 10, 3, 4, 1, 9, 0, 8, 0, 0),
      Hex(0, 0, 6, 9, 11, 12, 15, 11, 2, 5, 3, 12, 4, 1, 3, 5));
  }

  lemma Fold16()
    ensures Mul128Fold64(RampWord(16), RampWord(24)) == 0xA73816E3171486C4
  {
    hide Mul128Fold64;
    FoldIs(0x1716151413121110, 0x1F1E1D1C1B1A1918,
      Hex(10, 5, 15, 6, 7, 5, 2, 0, 15, 8, 15, 12, 2, 9, 8, 0),
      Hex(0, 2, 12, 14, 6, 3, 12, 3, 14, 15, 14, 8, 10, 15, 4, 4));
  }

  lemma Fold32()
    ensures Mul128Fold64(RampWord(32), RampWord(40)) == 0x461A777B07426664
  {
    hide Mul128Fold64;
    FoldIs(0x2726252423222120, 0x2F2E2D2C2B2A2928,
      Hex(4, 1, 2, 13, 6, 7, 14, 15, 12, 3, 14, 3, 4, 13, 0, 0),
      Hex(0, 7, 3, 7, 1, 0, 9, 4, 12, 4, 10, 1, 2, 11, 6, 4));
  }

  lemma Fold48()
    ensures Mul128Fold64(RampWord(48), RampWord(56)) == 0xE7D3A7AB37ABC713
  {
    hide Mul128Fold64;
    FoldIs(0x3736353433323130, 0x3F3E3D3C3B3A3938,
      Hex(14, 10, 7, 0, 6, 4, 12, 6, 9, 4, 12, 14, 7, 2, 8, 0),
      Hex(0, 13, 10, 3, 12, 3, 6, 13, 10, 3, 6, 5, 11, 5, 9, 3));
  }

  lemma Fold64()
    ensures Mul128Fold64(RampWord(64), RampWord(72)) == 0xB7AB17EBE78BD7D3
  {
    hide Mul128Fold64;
    FoldIs(0x4746454443424140, 0x4F4E4D4C4B4A4948,
      Hex(10, 1, 11, 15, 6, 11, 10, 5, 6, 11, 11, 13, 9, 10, 0, 0),
      Hex(1, 6, 1, 4, 7, 12, 4, 14, 8, 12, 3, 6, 4, 13, 13, 3));
  }

  lemma Fold80()
    ensures Mul128Fold64(RampWord(80), RampWord(88)) == 0x479347BB37A237A3
  {
    hide Mul128Fold64;
    FoldIs(0x5756555453525150, 0x5F5E5D5C5B5A5958,
      Hex(6, 7, 1, 10, 7, 12, 8, 12, 4, 8, 11, 0, 12, 3, 8, 0),
      Hex(2, 0, 8, 9, 3, 11, 3, 7, 7, 15, 1, 2, 15, 4, 2, 3));
  }

  lemma Fold96()
    ensures Mul128Fold64(RampWord(96), RampWord(104)) == 0x17839753505C4783
  {
    hide Mul128Fold64;
    FoldIs(0x6766656463626160, 0x6F6E6D6C6B6A6968,
      Hex(3, 10, 8, 1, 9, 7, 7, 11, 2, 11, 10, 7, 14, 15, 0, 0),
      Hex(2, 13, 0, 2, 0, 0, 2, 8, 7, 11, 15, 11, 10, 8, 8, 3));
  }

  lemma Fold112()
    ensures Mul128Fold64(RampWord(112), RampWord(120)) == 0x208A775396537673
  {
    hide Mul128Fold64;
    FoldIs(0x7776757473727170, 0x7F7E7D7C7B7A7978,
      Hex(1, 11, 15, 4, 11, 12, 7, 2, 1, 4, 10, 3, 1, 12, 8, 0),
      Hex(3, 11, 7, 14, 12, 11, 2, 1, 8, 2, 15, 0, 6, 10, 15, 3));
  }

  // ---- 100 bytes: all four chunks from either end ----

  const HUNDRED: Bytes := Sparse(100, 52, 16)

  lemma HundredFront3Reads()
    ensures ReadLE64(HUNDRED[48..]) == 0x302010000000000
    ensures ReadLE64(HUNDRED[48..][8..]) == 0xB0A090807060504
  {
  }

  lemma HundredFront3Keyed()
    ensures Xor64(0x302010000000000, RampWord(96)) == 0x6464646463626160
    ensures Xor64(0xB0A090807060504, RampWord(104)) == 0x646464646C6C6C6C
  {
    hide Xor64;
    XorIs(0x302010000000000, 0x6766656463626160,
      Hex(0, 3, 0, 2, 0, 1, 0, 0, 0, 0, 0, 0, 0, 0, 0, 0),
      Hex(6, 7, 6, 6, 6, 5, 6, 4, 6, 3, 6, 2, 6, 1, 6, 0));
    XorIs(0xB0A090807060504, 0x6F6E6D6C6B6A6968,
      Hex(0, 11, 0, 10, 0, 9, 0, 8, 0, 7, 0, 6, 0, 5, 0, 4),
      Hex(6, 15, 6, 14, 6, 13, 6, 12, 6, 11, 6, 10, 6, 9, 6, 8));
  }

  lemma HundredFront3Fold()
    ensures Mul128Fold64(0x6464646463626160, 0x646464646C6C6C6C) == 0x15AD399005E9193A
  {
    hide Mul128Fold64;
    FoldIs(0x6464646463626160, 0x646464646C6C6C6C,
      Hex(3, 2, 15, 3, 10, 12, 5, 13, 0, 3, 1, 5, 9, 4, 8, 0),
      Hex(2, 7, 5, 14, 9, 5, 12, 13, 0, 6, 15, 12, 8, 13, 11, 10));
  }

  lemma HundredFront3()
    ensures Mix16B(HUNDRED[48..], SECRET[96..], 0) == 0x15AD399005E9193A
  {
    hide Mul128Fold64, Xor64, ReadLE64, Sparse, RampWord;
    HundredFront3Reads();
    HundredFront3Keyed();
    HundredFront3Fold();
    RampReads(96);
  }

  lemma HundredBack2Reads()
    ensures ReadLE64(HUNDRED[52..]) == 0x706050403020100
    ensures ReadLE64(HUNDRED[52..][8..]) == 0xF0E0D0C0B0A0908
  {
  }

  lemma HundredBack2Keyed()
    ensures Xor64(0x706050403020100, RampWord(80)) == 0x5050505050505050
    ensures Xor64(0xF0E0D0C0B0A0908, RampWord(88)) == 0x5050505050505050
  {
    hide Xor64;
    XorIs(0x706050403020100, 0x5756555453525150,
      Hex(0, 7, 0, 6, 0, 5, 0, 4, 0, 3, 0, 2, 0, 1, 0, 0),
      Hex(5, 7, 5, 6, 5, 5, 5, 4, 5, 3, 5, 2, 5, 1, 5, 0));
    XorIs(0xF0E0D0C0B0A0908, 0x5F5E5D5C5B5A5958,
      Hex(0, 15, 0, 14, 0, 13, 0, 12, 0, 11, 0, 10, 0, 9, 0, 8),
      Hex(5, 15, 5, 14, 5, 13, 5, 12, 5, 11, 5, 10, 5, 9, 5, 8));
  }

  lemma HundredBack2Fold()
    ensures Mul128Fold64(0x5050505050505050, 0x5050505050505050) == 0xB6A4360036A4B6C8
  {
    hide Mul128Fold64;
    FoldIs(0x5050505050505050, 0x5050505050505050,
      Hex(10, 15, 9, 6, 7, 13, 6, 4, 4, 11, 3, 2, 1, 9, 0, 0),
      Hex(1, 9, 3, 2, 4, 11, 6, 4, 7, 13, 9, 6, 10, 15, 12, 8));
  }

  lemma HundredBack2()
    ensures Mix16B(HUNDRED[52..], SECRET[80..], 0) == 0xB6A4360036A4B6C8
  {
    hide Mul128Fold64, Xor64, ReadLE64, Sparse, RampWord;
    HundredBack2Reads();
    HundredBack2Keyed();
    HundredBack2Fold();
    RampReads(80);
  }

  lemma HundredFronts()
    ensures FrontMix(HUNDRED, SECRET, 0, 0) == 0x18A230A111254935
    ensures FrontMix(HUNDRED, SECRET, 0, 1) == 0x461A777B07426664
    ensures FrontMix(HUNDRED, SECRET, 0, 2) == 0xB7AB17EBE78BD7D3
    ensures FrontMix(HUNDRED, SECRET, 0, 3) == 0x15AD399005E9193A
  {
    hide Mul128Fold64, ReadLE64, Mix16B, Sparse, RampWord;
    ZeroReads(100, 52, 16, 0);
    QuietMix(HUNDRED[0..], 0);
    Fold0();
    ZeroReads(100, 52, 16, 16);
    QuietMix(HUNDRED[16..], 32);
    Fold32();
    ZeroReads(100, 52, 16, 32);
    QuietMix(HUNDRED[32..], 64);
    Fold64();
    HundredFront3();
  }

  lemma HundredBacks()
    ensures BackMix(HUNDRED, SECRET, 0, 0) == 0xA73816E3171486C4
    ensures BackMix(HUNDRED, SECRET, 0, 1) == 0xE7D3A7AB37ABC713
    ensures BackMix(HUNDRED, SECRET, 0, 2) == 0xB6A4360036A4B6C8
    ensures BackMix(HUNDRED, SECRET, 0, 3) == 0x208A775396537673
  {
    hide Mul128Fold64, ReadLE64, Mix16B, Sparse, RampWord;
    ZeroReads(100, 52, 16, 84);
    QuietMix(HUNDRED[84..], 16);
    Fold16();
    ZeroReads(100, 52, 16, 68);
    QuietMix(HUNDRED[68..], 48);
    Fold48();
    HundredBack2();
    ZeroReads(100, 52, 16, 36);
    QuietMix(HUNDRED[36..], 112);
    Fold112();
  }

  lemma HundredSum()
    ensures PairSum(HUNDRED, SECRET, 0, LenTimesPrime(100), 4) == 0x5FFAEED271B03874
  {
    hide FrontMix, BackMix, Sparse;
    HundredFronts();
    HundredBacks();
    assert LenTimesPrime(100) == 0xCDAB8958501B1CBC;
    assert PairSum(HUNDRED, SECRET, 0, LenTimesPrime(100), 1) == 0x8D85D0DC7854ECB5;
    assert PairSum(HUNDRED, SECRET, 0, LenTimesPrime(100), 2) == 0xBB73F002B7431A2C;
    assert PairSum(HUNDRED, SECRET, 0, LenTimesPrime(100), 3) == 0x29C33DEED573A8C7;
    assert PairSum(HUNDRED, SECRET, 0, LenTimesPrime(100), 4) == 0x5FFAEED271B03874;
  }

  lemma HundredAvalanche()
    ensures Xxh3Avalanche(0x5FFAEED271B03874) == 0x18720D049E5767F6
  {
    hide Mul64, XorShift64, Pow2;
    Powers();
    StageIs(0x5FFAEED271B03874, 37, 0x165667919E3779F9, 0x18720D0486256AF2,
      Hex(5, 15, 15, 10, 14, 14, 13, 2, 7, 1, 11, 0, 3, 8, 7, 4),
      Hex(0, 0, 0, 0, 0, 0, 0, 0, 0, 2, 15, 15, 13, 7, 7, 6),
      0x1271B03874, 0x85FF5A6DF253907);
    XorShiftIs(0x18720D0486256AF2, 32,
      Hex(1, 8, 7, 2, 0, 13, 0, 4, 8, 6, 2, 5, 6, 10, 15, 2),
      Hex(0, 0, 0, 0, 0, 0, 0, 0, 1, 8, 7, 2, 0, 13, 0, 4),
      0x86256AF2);
  }

  /** 100 bytes. */
  lemma Hundred(k: Kernel)
    ensures Hash(k, WithSecret(SECRET), HUNDRED) == 0x18720D049E5767F6
  {
    hide HashLong, PairSum, Xxh3Avalanche, Sparse, LenTimesPrime;
    HundredSum();
    HundredAvalanche();
  }

  // ---- 145 bytes: eight chunks, one more round, and the last chunk ----

  const MORE: Bytes := Sparse(145, 128, 16)

  lemma More8Reads()
    ensures ReadLE64(MORE[128..]) == 0x706050403020100
    ensures ReadLE64(MORE[128..][8..]) == 0xF0E0D0C0B0A0908
  {
  }

  lemma More8Keyed()
    ensures Xor64(0x706050403020100, RampWord(3)) == 0xD0F0D0305070503
    ensures Xor64(0xF0E0D0C0B0A0908, RampWord(11)) == 0x1D1F1D0305070503
  {
    hide Xor64;
    XorIs(0x706050403020100, 0xA09080706050403,
      Hex(0, 7, 0, 6, 0, 5, 0, 4, 0, 3, 0, 2, 0, 1, 0, 0),
      Hex(0, 10, 0, 9, 0, 8, 0, 7, 0, 6, 0, 5, 0, 4, 0, 3));
    XorIs(0xF0E0D0C0B0A0908, 0x1211100F0E0D0C0B,
      Hex(0, 15, 0, 14, 0, 13, 0, 12, 0, 11, 0, 10, 0, 9, 0, 8),
      Hex(1, 2, 1, 1, 1, 0, 0, 15, 0, 14, 0, 13, 0, 12, 0, 11));
  }

  lemma More8Fold()
    ensures Mul128Fold64(0xD0F0D0305070503, 0x1D1F1D0305070503) == 0xA8E3A8B3A29492F8
  {
    hide Mul128Fold64;
    FoldIs(0xD0F0D0305070503, 0x1D1F1D0305070503,
      Hex(10, 9, 9, 15, 14, 2, 7, 5, 6, 4, 4, 3, 1, 14, 0, 9),
      Hex(0, 1, 7, 12, 4, 10, 12, 6, 12, 6, 13, 7, 8, 12, 15, 1));
  }

  lemma More8()
    ensures Mix16B(MORE[128..], SECRET[3..], 0) == 0xA8E3A8B3A29492F8
  {
    hide Mul128Fold64, Xor64, ReadLE64, Sparse, RampWord;
    More8Reads();
    More8Keyed();
    More8Fold();
    RampReads(3);
  }

  lemma MoreLastReads()
    ensures ReadLE64(MORE[129..]) == 0x807060504030201
    ensures ReadLE64(MORE[129..][8..]) == 0xF0E0D0C0B0A09
  {
  }

  lemma MoreLastKeyed()
    ensures Xor64(0x807060504030201, RampWord(119)) == 0x767A7A7E7E7A7A76
    ensures Xor64(0xF0E0D0C0B0A09, RampWord(127)) == 0x868A8A8E8E8A8A76
  {
    hide Xor64;
    XorIs(0x807060504030201, 0x7E7D7C7B7A797877,
      Hex(0, 8, 0, 7, 0, 6, 0, 5, 0, 4, 0, 3, 0, 2, 0, 1),
      Hex(7, 14, 7, 13, 7, 12, 7, 11, 7, 10, 7, 9, 7, 8, 7, 7));
    XorIs(0xF0E0D0C0B0A09, 0x868584838281807F,
      Hex(0, 0, 0, 15, 0, 14, 0, 13, 0, 12, 0, 11, 0, 10, 0, 9),
      Hex(8, 6, 8, 5, 8, 4, 8, 3, 8, 2, 8, 1, 8, 0, 7, 15));
  }

  lemma MoreLastFold()
    ensures Mul128Fold64(0x767A7A7E7E7A7A76, 0x868A8A8E8E8A8A76) == 0xF42077A7F44074E0
  {
    hide Mul128Fold64;
    FoldIs(0x767A7A7E7E7A7A76, 0x868A8A8E8E8A8A76,
      Hex(12, 10, 6, 4, 4, 13, 14, 3, 12, 10, 1, 4, 0, 14, 6, 4),
      Hex(3, 14, 4, 4, 3, 10, 4, 4, 3, 14, 5, 4, 7, 10, 8, 4));
  }

  lemma MoreLast()
    ensures Mix16B(MORE[129..], SECRET[119..], 0) == 0xF42077A7F44074E0
  {
    hide Mul128Fold64, Xor64, ReadLE64, Sparse, RampWord;
    MoreLastReads();
    MoreLastKeyed();
    MoreLastFold();
    RampReads(119);
  }

  lemma MoreChunks()
    ensures ChunkSum(MORE, SECRET, 0, LenTimesPrime(145), 8) == 0xC280C28547938153
  {
    hide Mul128Fold64, ReadLE64, Mix16B, Sparse, RampWord, Xor64;
    assert LenTimesPrime(145) == 0x9D6BED8CDA8DB677;
    ZeroReads(145, 128, 16, 0);
    QuietMix(MORE[0..], 0);
    Fold0();
    assert ChunkSum(MORE, SECRET, 0, LenTimesPrime(145), 1) == 0xB60E1E2DEBB2FFAC;
    ZeroReads(145, 128, 16, 16);
    QuietMix(MORE[16..], 16);
    Fold16();
    assert ChunkSum(MORE, SECRET, 0, LenTimesPrime(145), 2) == 0x5D46351102C78670;
    ZeroReads(145, 128, 16, 32);
    QuietMix(MORE[32..], 32);
    Fold32();
    assert ChunkSum(MORE, SECRET, 0, LenTimesPrime(145), 3) == 0xA360AC8C0A09ECD4;
    ZeroReads(145, 128, 16, 48);
    QuietMix(MORE[48..], 48);
    Fold48();
    assert ChunkSum(MORE, SECRET, 0, LenTimesPrime(145), 4) == 0x8B34543741B5B3E7;
    ZeroReads(145, 128, 16, 64);
    QuietMix(MORE[64..], 64);
    Fold64();
    assert ChunkSum(MORE, SECRET, 0, LenTimesPrime(145), 5) == 0x42DF6C2329418BBA;
    ZeroReads(145, 128, 16, 80);
    QuietMix(MORE[80..], 80);
    Fold80();
    assert ChunkSum(MORE, SECRET, 0, LenTimesPrime(145), 6) == 0x8A72B3DE60E3C35D;
    ZeroReads(145, 128, 16, 96);
    QuietMix(MORE[96..], 96);
    Fold96();
    assert ChunkSum(MORE, SECRET, 0, LenTimesPrime(145), 7) == 0xA1F64B31B1400AE0;
    ZeroReads(145, 128, 16, 112);
    QuietMix(MORE[112..], 112);
    Fold112();
    assert ChunkSum(MORE, SECRET, 0, LenTimesPrime(145), 8) == 0xC280C28547938153;
  }

  lemma MoreMiddle()
    ensures Xxh3Avalanche(0xC280C28547938153) == 0x454C1968EB483A67
  {
    hide Mul64, XorShift64, Pow2;
    Powers();
    StageIs(0xC280C28547938153, 37, 0x165667919E3779F9, 0x454C1968AE04230F,
      Hex(12, 2, 8, 0, 12, 2, 8, 5, 4, 7, 9, 3, 8, 1, 5, 3),
      Hex(0, 0, 0, 0, 0, 0, 0, 0, 0, 6, 1, 4, 0, 6, 1, 4),
      0x547938153, 0x10F8B6A93DCD1263);
    XorShiftIs(0x454C1968AE04230F, 32,
      Hex(4, 5, 4, 12, 1, 9, 6, 8, 10, 14, 0, 4, 2, 3, 0, 15),
      Hex(0, 0, 0, 0, 0, 0, 0, 0, 4, 5, 4, 12, 1, 9, 6, 8),
      0xAE04230F);
  }

  lemma MoreRound()
    ensures ChunkSum(MORE[128..], SECRET[3..], 0, 0x454C1968EB483A67, 1) == 0xEE2FC21C8DDCCD5F
  {
    hide Mix16B, Sparse;
    More8();
    assert MORE[128..][0..] == MORE[128..] && SECRET[3..][0..] == SECRET[3..];
  }

  lemma MoreAvalanche()
    ensures Xxh3Avalanche(0xE25039C4821D423F) == 0xFD6856DC4BD128B5
  {
    hide Mul64, XorShift64, Pow2;
    Powers();
    StageIs(0xE25039C4821D423F, 37, 0x165667919E3779F9, 0xFD6856DCB6B97E69,
      Hex(14, 2, 5, 0, 3, 9, 12, 4, 8, 2, 1, 13, 4, 2, 3, 15),
      Hex(0, 0, 0, 0, 0, 0, 0, 0, 0, 7, 1, 2, 8, 1, 12, 14),
      0x4821D423F, 0x13BF47794E0166B2);
    XorShiftIs(0xFD6856DCB6B97E69, 32,
      Hex(15, 13, 6, 8, 5, 6, 13, 12, 11, 6, 11, 9, 7, 14, 6, 9),
      Hex(0, 0, 0, 0, 0, 0, 0, 0, 15, 13, 6, 8, 5, 6, 13, 12),
      0xB6B97E69);
  }

  /** 145 bytes. */
  lemma More(k: Kernel)
    ensures Hash(k, WithSecret(SECRET), MORE) == 0xFD6856DC4BD128B5
  {
    hide HashLong, ChunkSum, Mix16B, Xxh3Avalanche, Sparse, LenTimesPrime;
    MoreChunks();
    MoreMiddle();
    MoreRound();
    MoreLast();
    MoreAvalanche();
    assert Add64(0xEE2FC21C8DDCCD5F, 0xF42077A7F44074E0) == 0xE25039C4821D423F;
  }
}
