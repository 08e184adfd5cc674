/** Known answers of the published XXH3 algorithm, for inputs of at most 16 bytes.

    Each length class is pinned by inputs whose hash is known.  The words on the way are spelled out,
    because a solver cannot unfold a 64-bit product or exclusive-or by itself; every step is checked. */
module Xxh3KnownShort {
  import opened Bits
  import opened HexWords
  import opened StripeFold
  import opened XxhWords
  import opened Xxh3Mix
  import opened Xxh3Long
  import opened Xxh3Short
  import opened Xxh3OneShot

  // ---- words of the default secret ----

  lemma SixRows(a: Bytes, b: Bytes, c: Bytes, d: Bytes, e: Bytes, f: Bytes)
    requires |a| == |b| == |c| == |d| == |e| == |f| == 32
    ensures var s := a + b + c + d + e + f; |s| == 192 && s[0..32] == a && s[32..64] == b && s[64..96] == c
  {
  }

  /** The rows of the default secret. */
  lemma Rows()
    ensures |K_SECRET| == SECRET_DEFAULT_SIZE
    ensures K_SECRET[0..32] == K_SECRET_0 && K_SECRET[32..64] == K_SECRET_1 && K_SECRET[64..96] == K_SECRET_2
  {
    assert |K_SECRET_0| == |K_SECRET_1| == |K_SECRET_2| == |K_SECRET_3| == |K_SECRET_4| == |K_SECRET_5| == 32;
    SixRows(K_SECRET_0, K_SECRET_1, K_SECRET_2, K_SECRET_3, K_SECRET_4, K_SECRET_5);
  }

  lemma InRow(p: Bytes, row: Bytes, start: nat, off: nat)
    requires start + 32 <= |p| && p[start..start + 32] == row && off + 8 <= 32
    ensures |row| == 32 && ReadLE64(p[start + off..]) == ReadLE64(row[off..])
  {
    assert |row| == 32;
    var r, q := row[off..off + 8], p[start + off..start + off + 8];
    forall k | 0 <= k < 8 ensures r[k] == q[k] {
      assert p[start..start + 32][off + k] == p[start + off + k];
    }
    assert r == q;
    SameRead(p, start + off, row, off);
  }

  lemma Row0()
    ensures ReadLE64(K_SECRET_0[0..]) == 0xBE4BA423396CFEB8
  {
  }

  lemma Secret0()
    ensures |K_SECRET| == SECRET_DEFAULT_SIZE && ReadLE64(K_SECRET[0..]) == 0xBE4BA423396CFEB8
  {
    hide ReadLE64;
    Rows();
    Row0();
    InRow(K_SECRET, K_SECRET_0, 0, 0);
  }

  lemma Row8()
    ensures ReadLE64(K_SECRET_0[8..]) == 0x1CAD21F72C81017C
  {
  }

  lemma Secret8()
    ensures |K_SECRET| == SECRET_DEFAULT_SIZE && ReadLE64(K_SECRET[8..]) == 0x1CAD21F72C81017C
  {
    hide ReadLE64;
    Rows();
    Row8();
    InRow(K_SECRET, K_SECRET_0, 0, 8);
  }

  lemma Row16()
    ensures ReadLE64(K_SECRET_0[16..]) == 0xDB979083E96DD4DE
  {
  }

  lemma Secret16()
    ensures |K_SECRET| == SECRET_DEFAULT_SIZE && ReadLE64(K_SECRET[16..]) == 0xDB979083E96DD4DE
  {
    hide ReadLE64;
    Rows();
    Row16();
    InRow(K_SECRET, K_SECRET_0, 0, 16);
  }

  lemma Row24()
    ensures ReadLE64(K_SECRET_0[24..]) == 0x1F67B3B7A4A44072
  {
  }

  lemma Secret24()
    ensures |K_SECRET| == SECRET_DEFAULT_SIZE && ReadLE64(K_SECRET[24..]) == 0x1F67B3B7A4A44072
  {
    hide ReadLE64;
    Rows();
    Row24();
    InRow(K_SECRET, K_SECRET_0, 0, 24);
  }

  lemma Row32()
    ensures ReadLE64(K_SECRET_1[0..]) == 0x78E5C0CC4EE679CB
  {
  }

  lemma Secret32()
    ensures |K_SECRET| == SECRET_DEFAULT_SIZE && ReadLE64(K_SECRET[32..]) == 0x78E5C0CC4EE679CB
  {
    hide ReadLE64;
    Rows();
    Row32();
    InRow(K_SECRET, K_SECRET_1, 32, 0);
  }

  lemma Row40()
    ensures ReadLE64(K_SECRET_1[8..]) == 0x2172FFCC7DD05A82
  {
  }

  lemma Secret40()
    ensures |K_SECRET| == SECRET_DEFAULT_SIZE && ReadLE64(K_SECRET[40..]) == 0x2172FFCC7DD05A82
  {
    hide ReadLE64;
    Rows();
    Row40();
    InRow(K_SECRET, K_SECRET_1, 32, 8);
  }

  lemma Row48()
    ensures ReadLE64(K_SECRET_1[16..]) == 0x8E2443F7744608B8
  {
  }

  lemma Secret48()
    ensures |K_SECRET| == SECRET_DEFAULT_SIZE && ReadLE64(K_SECRET[48..]) == 0x8E2443F7744608B8
  {
    hide ReadLE64;
    Rows();
    Row48();
    InRow(K_SECRET, K_SECRET_1, 32, 16);
  }

  lemma Row56()
    ensures ReadLE64(K_SECRET_1[24..]) == 0x4C263A81E69035E0
  {
  }

  lemma Secret56()
    ensures |K_SECRET| == SECRET_DEFAULT_SIZE && ReadLE64(K_SECRET[56..]) == 0x4C263A81E69035E0
  {
    hide ReadLE64;
    Rows();
    Row56();
    InRow(K_SECRET, K_SECRET_1, 32, 24);
  }

  lemma Row64()
    ensures ReadLE64(K_SECRET_2[0..]) == 0xCB00C391BB52283C
  {
  }

  lemma Secret64()
    ensures |K_SECRET| == SECRET_DEFAULT_SIZE && ReadLE64(K_SECRET[64..]) == 0xCB00C391BB52283C
  {
    hide ReadLE64;
    Rows();
    Row64();
    InRow(K_SECRET, K_SECRET_2, 64, 0);
  }

  // ---- no input ----

  const PRIME_SEED: Word64 := 0x9E3779B185EBCA8D

  lemma EmptyWord()
    ensures |K_SECRET| == SECRET_DEFAULT_SIZE
    ensures Xor64(ReadLE64(K_SECRET[56..]), ReadLE64(K_SECRET[64..])) == 0x8726F9105DC21DDC
  {
    hide Xor64, ReadLE64;
    Secret56();
    Secret64();
    XorIs(0x4C263A81E69035E0, 0xCB00C391BB52283C,
      Hex(4, 12, 2, 6, 3, 10, 8, 1, 14, 6, 9, 0, 3, 5, 14, 0),
      Hex(12, 11, 0, 0, 12, 3, 9, 1, 11, 11, 5, 2, 2, 8, 3, 12));
  }

  lemma EmptyAvalanche()
    ensures Xxh64Avalanche(0x8726F9105DC21DDC) == 0x2D06800538D394C2
  {
    hide Mul64, XorShift64, Pow2;
    Powers();
    StageIs(0x8726F9105DC21DDC, 33, PRIME64_2, 0xF93720A750524EC,
      Hex(8, 7, 2, 6, 15, 9, 1, 0, 5, 13, 12, 2, 1, 13, 13, 12),
      Hex(0, 0, 0, 0, 0, 0, 0, 0, 4, 3, 9, 3, 7, 12, 8, 8),
      0x5DC21DDC, 0x66C9DDD42AC8663C);
    StageIs(0xF93720A750524EC, 29, PRIME64_3, 0x2D06800515D514C7,
      Hex(0, 15, 9, 3, 7, 2, 0, 10, 7, 5, 0, 5, 2, 4, 14, 12),
      Hex(0, 0, 0, 0, 0, 0, 0, 0, 7, 12, 9, 11, 9, 0, 5, 3),
      0x150524EC, 0x15BEDA44DA72224);
    XorShiftIs(0x2D06800515D514C7, 32,
      Hex(2, 13, 0, 6, 8, 0, 0, 5, 1, 5, 13, 5, 1, 4, 12, 7),
      Hex(0, 0, 0, 0, 0, 0, 0, 0, 2, 13, 0, 6, 8, 0, 0, 5),
      0x15D514C7);
  }

  /** The empty input. */
  lemma Empty(k: Kernel)
    ensures Hash(k, DEFAULT, []) == 0x2D06800538D394C2
  {
    hide HashLong, CustomSecret, Xor64, ReadLE64, Xxh64Avalanche;
    EmptyWord();
    EmptyAvalanche();
    ZeroXor(0x8726F9105DC21DDC);
  }

  lemma EmptySeededAvalanche()
    ensures Xxh64Avalanche(0x191180A1D829D751) == 0xA8A6B918B2F0364A
  {
    hide Mul64, XorShift64, Pow2;
    Powers();
    StageIs(0x191180A1D829D751, 33, PRIME64_2, 0xE39B0945B1A8044F,
      Hex(1, 9, 1, 1, 8, 0, 10, 1, 13, 8, 2, 9, 13, 7, 5, 1),
      Hex(0, 0, 0, 0, 0, 0, 0, 0, 0, 12, 8, 8, 12, 0, 5, 0),
      0x1D829D751, 0x1310C2B5F62814A7);
    StageIs(0xE39B0945B1A8044F, 29, PRIME64_3, 0xA8A6B9181A568F52,
      Hex(14, 3, 9, 11, 0, 9, 4, 5, 11, 1, 10, 8, 0, 4, 4, 15),
      Hex(0, 0, 0, 0, 0, 0, 0, 7, 1, 12, 13, 8, 4, 10, 2, 13),
      0x11A8044F, 0x13DC251222E427D0);
    XorShiftIs(0xA8A6B9181A568F52, 32,
      Hex(10, 8, 10, 6, 11, 9, 1, 8, 1, 10, 5, 6, 8, 15, 5, 2),
      Hex(0, 0, 0, 0, 0, 0, 0, 0, 10, 8, 10, 6, 11, 9, 1, 8),
      0x1A568F52);
  }

  /** The empty input, with a seed. */
  lemma EmptySeeded(k: Kernel)
    ensures Hash(k, WithSeed(PRIME_SEED), []) == 0xA8A6B918B2F0364A
  {
    hide HashLong, CustomSecret, Xor64, ReadLE64, Xxh64Avalanche;
    EmptyWord();
    EmptySeededAvalanche();
    XorIs(0x9E3779B185EBCA8D, 0x8726F9105DC21DDC,
      Hex(9, 14, 3, 7, 7, 9, 11, 1, 8, 5, 14, 11, 12, 10, 8, 13),
      Hex(8, 7, 2, 6, 15, 9, 1, 0, 5, 13, 12, 2, 1, 13, 13, 12));
  }

  // ---- one to three bytes ----

  const ABC: Bytes := [0x61, 0x62, 0x63]

  lemma AbcBitflip()
    ensures |K_SECRET| == SECRET_DEFAULT_SIZE
    ensures Add64(Xor32(ReadLE32(K_SECRET), ReadLE32(K_SECRET[4..])), PRIME_SEED) == 0x9E3779B20D132528
  {
    hide Xor, ReadLE32;
    Secret0();
    assert K_SECRET[0..] == K_SECRET;
    assert ReadLE32(K_SECRET) == 0x396CFEB8 && ReadLE32(K_SECRET[4..]) == 0xBE4BA423;
    XorOf(
      Hex(0, 0, 0, 0, 0, 0, 0, 0, 3, 9, 6, 12, 15, 14, 11, 8),
      Hex(0, 0, 0, 0, 0, 0, 0, 0, 11, 14, 4, 11, 10, 4, 2, 3));
  }

  lemma AbcAvalanche()
    ensures Xxh64Avalanche(0x9E3779B26F72264B) == 0xE279AB87437FE1D8
  {
    hide Mul64, XorShift64, Pow2;
    Powers();
    StageIs(0x9E3779B26F72264B, 33, PRIME64_2, 0x480510833062B90E,
      Hex(9, 14, 3, 7, 7, 9, 11, 2, 6, 15, 7, 2, 2, 6, 4, 11),
      Hex(0, 0, 0, 0, 0, 0, 0, 0, 4, 15, 1, 11, 11, 12, 13, 9),
      0x6F72264B, 0x7854787B1AF7ACF2);
    StageIs(0x480510833062B90E, 29, PRIME64_3, 0xE279AB87A1064A5F,
      Hex(4, 8, 0, 5, 1, 0, 8, 3, 3, 0, 6, 2, 11, 9, 0, 14),
      Hex(0, 0, 0, 0, 0, 0, 0, 2, 4, 0, 2, 8, 8, 4, 1, 9),
      0x1062B90E, 0x648BE4AACC95373);
    XorShiftIs(0xE279AB87A1064A5F, 32,
      Hex(14, 2, 7, 9, 10, 11, 8, 7, 10, 1, 0, 6, 4, 10, 5, 15),
      Hex(0, 0, 0, 0, 0, 0, 0, 0, 14, 2, 7, 9, 10, 11, 8, 7),
      0xA1064A5F);
  }

  /** The input "abc", with a seed. */
  lemma Abc(k: Kernel)
    ensures Hash(k, WithSeed(PRIME_SEED), ABC) == 0xE279AB87437FE1D8
  {
    hide HashLong, CustomSecret, Xor64, Xor32, Add64, ReadLE32, Xxh64Avalanche;
    AbcBitflip();
    AbcAvalanche();
    assert Combined(ABC) == 0x62610363;
    XorIs(0x62610363, 0x9E3779B20D132528,
      Hex(0, 0, 0, 0, 0, 0, 0, 0, 6, 2, 6, 1, 0, 3, 6, 3),
      Hex(9, 14, 3, 7, 7, 9, 11, 2, 0, 13, 1, 3, 2, 5, 2, 8));
  }

  // ---- four to sixteen bytes ----

  /** The first bytes of the generator that the published answers are stated on. */
  const SANITY: Bytes := [
    0x00, 0x52, 0x92, 0x9B, 0xB7, 0x32, 0xA3, 0x24, 0x2D, 0x00, 0xAF, 0x95, 0x0E, 0xEC, 0xB8, 0x93,
    0xE3, 0xDF, 0xEF, 0x93, 0xAA, 0xD6, 0xCD, 0x2A]

  lemma SwapIs(x: Word32, b0: nat, b1: nat, b2: nat, b3: nat)
    requires b0 < 0x100 && b1 < 0x100 && b2 < 0x100 && b3 < 0x100 && x == Bytes4(b0, b1, b2, b3)
    ensures Swap32(x) == Bytes4(b3, b2, b1, b0)
  {
    hide Bytes4;
    DigitsOf(b0, b1, b2, b3);
  }

  lemma HalvesSwap(x: Word64, high: Word32, low: Word32)
    requires x == high * 0x1_0000_0000 + low
    ensures Swap64(x) == Swap32(high) + Swap32(low) * 0x1_0000_0000
  {
    hide Swap32;
  }

  lemma SixSeed()
    ensures Xor64(PRIME_SEED, Swap32(Trunc32(PRIME_SEED)) * 0x1_0000_0000) == 0x13FD923485EBCA8D
  {
    hide Xor64, Swap32;
    SwapIs(0x85EBCA8D, 0x8D, 0xCA, 0xEB, 0x85);
    XorIs(0x9E3779B185EBCA8D, 0x8DCAEB8500000000,
      Hex(9, 14, 3, 7, 7, 9, 11, 1, 8, 5, 14, 11, 12, 10, 8, 13),
      Hex(8, 13, 12, 10, 14, 11, 8, 5, 0, 0, 0, 0, 0, 0, 0, 0));
  }

  lemma SixBitflip()
    ensures |K_SECRET| == SECRET_DEFAULT_SIZE
    ensures Sub64(Xor64(ReadLE64(K_SECRET[8..]), ReadLE64(K_SECRET[16..])), 0x13FD923485EBCA8D) == 0xB33D1F4040010B15
  {
    hide Xor64, ReadLE64;
    Secret8();
    Secret16();
    XorIs(0x1CAD21F72C81017C, 0xDB979083E96DD4DE,
      Hex(1, 12, 10, 13, 2, 1, 15, 7, 2, 12, 8, 1, 0, 1, 7, 12),
      Hex(13, 11, 9, 7, 9, 0, 8, 3, 14, 9, 6, 13, 13, 4, 13, 14));
  }

  lemma RotationPowers()
    ensures Pow2(15) == 0x8000 && Pow2(24) == 0x100_0000 && Pow2(40) == 0x100_0000_0000 && Pow2(49) == 0x2_0000_0000_0000
  {
    WordSizes();
    Pow2Add(8, 16);
    Pow2Add(8, 32);
    Pow2Add(16, 32);
    assert Pow2(49) == 2 * Pow2(48) && Pow2(16) == 2 * Pow2(15);
  }

  lemma SixRotations()
    ensures Rotl64(0x28AF4D4072B69087, 49) == 0x210E515E9A80E56D
    ensures Rotl64(0x28AF4D4072B69087, 24) == 0x4072B6908728AF4D
  {
    hide Rotl64, Pow2;
    RotationPowers();
    RotationIs(0x28AF4D4072B69087, 49, 0x515E9A80E56D, 0x1087);
    RotationIs(0x28AF4D4072B69087, 24, 0x28AF4D, 0x4072B69087);
  }

  lemma SixRotXor()
    ensures RotXor(0x28AF4D4072B69087) == 0x49D3AA8E6F1EDAA7
  {
    hide Rotl64, Xor64;
    SixRotations();
    XorIs(0x28AF4D4072B69087, 0x210E515E9A80E56D,
      Hex(2, 8, 10, 15, 4, 13, 4, 0, 7, 2, 11, 6, 9, 0, 8, 7),
      Hex(2, 1, 0, 14, 5, 1, 5, 14, 9, 10, 8, 0, 14, 5, 6, 13));
    XorIs(0x9A11C1EE83675EA, 0x4072B6908728AF4D,
      Hex(0, 9, 10, 1, 1, 12, 1, 14, 14, 8, 3, 6, 7, 5, 14, 10),
      Hex(4, 0, 7, 2, 11, 6, 9, 0, 8, 7, 2, 8, 10, 15, 4, 13));
  }

  lemma SixAddLen()
    ensures AddLenShift(0xFAF5D93655151323, 6) == 0xFAF5D9364A4BA80F
  {
    hide Xor64, Pow2, Shr;
    Powers();
    ShiftIs(0xFAF5D93655151323, 35, 0x1F5EBB26, 0x655151323);
    XorIs(0xFAF5D93655151323, 0x1F5EBB2C,
      Hex(15, 10, 15, 5, 13, 9, 3, 6, 5, 5, 1, 5, 1, 3, 2, 3),
      Hex(0, 0, 0, 0, 0, 0, 0, 0, 1, 15, 5, 14, 11, 11, 2, 12));
  }

  lemma SixMix()
    ensures Rrmxmx(0x28AF4D4072B69087, 6) == 0x84589C116AB59AB9
  {
    hide RotXor, AddLenShift, Mul64, XorShift64, Pow2;
    SixRotXor();
    SixAddLen();
    ProductIs(0x49D3AA8E6F1EDAA7, RRMXMX_MULT, 0x2E0DD44B5E0A2F9E, 0xFAF5D93655151323);
    ProductIs(0xFAF5D9364A4BA80F, RRMXMX_MULT, 0x9C8D4CAFC4A3F4B5, 0x84589C192F3C5B2B);
    Powers();
    XorShiftIs(0x84589C192F3C5B2B, 28,
      Hex(8, 4, 5, 8, 9, 12, 1, 9, 2, 15, 3, 12, 5, 11, 2, 11),
      Hex(0, 0, 0, 0, 0, 0, 0, 8, 4, 5, 8, 9, 12, 1, 9, 2),
      0xF3C5B2B);
  }

  lemma SixInput()
    ensures Input64(SANITY[..6]) == 0x9B92520032B79B92
  {
  }

  /** Six bytes, with a seed. */
  lemma Six(k: Kernel)
    ensures Hash(k, WithSeed(PRIME_SEED), SANITY[..6]) == 0x84589C116AB59AB9
  {
    hide HashLong, CustomSecret, Xor64, Swap32, Sub64, ReadLE64, Input64, Rrmxmx;
    SixSeed();
    SixBitflip();
    SixInput();
    SixMix();
    XorIs(0x9B92520032B79B92, 0xB33D1F4040010B15,
      Hex(9, 11, 9, 2, 5, 2, 0, 0, 3, 2, 11, 7, 9, 11, 9, 2),
      Hex(11, 3, 3, 13, 1, 15, 4, 0, 4, 0, 0, 1, 0, 11, 1, 5));
  }

  lemma NineFlips()
    ensures |K_SECRET| == SECRET_DEFAULT_SIZE
    ensures Xor64(ReadLE64(K_SECRET[24..]), ReadLE64(K_SECRET[32..])) == 0x6782737BEA4239B9
    ensures Xor64(ReadLE64(K_SECRET[40..]), ReadLE64(K_SECRET[48..])) == 0xAF56BC3B0996523A
  {
    hide Xor64, ReadLE64;
    Secret24();
    Secret32();
    Secret40();
    Secret48();
    XorIs(0x1F67B3B7A4A44072, 0x78E5C0CC4EE679CB,
      Hex(1, 15, 6, 7, 11, 3, 11, 7, 10, 4, 10, 4, 4, 0, 7, 2),
      Hex(7, 8, 14, 5, 12, 0, 12, 12, 4, 14, 14, 6, 7, 9, 12, 11));
    XorIs(0x2172FFCC7DD05A82, 0x8E2443F7744608B8,
      Hex(2, 1, 7, 2, 15, 15, 12, 12, 7, 13, 13, 0, 5, 10, 8, 2),
      Hex(8, 14, 2, 4, 4, 3, 15, 7, 7, 4, 4, 6, 0, 8, 11, 8));
  }

  const HELLO_WORLD: Bytes := [0x68, 0x65, 0x6C, 0x6C, 0x6F, 0x20, 0x77, 0x6F, 0x72, 0x6C, 0x64]

  lemma HelloWorldReads()
    ensures ReadLE64(HELLO_WORLD) == 0x6F77206F6C6C6568
    ensures ReadLE64(HELLO_WORLD[|HELLO_WORLD| - 8..]) == 0x646C726F77206F6C
  {
  }

  lemma HelloWorldFlips()
    ensures Add64(0x6782737BEA4239B9, 0) == 0x6782737BEA4239B9
    ensures Sub64(0xAF56BC3B0996523A, 0) == 0xAF56BC3B0996523A
    ensures Xor64(0x6F77206F6C6C6568, 0x6782737BEA4239B9) == 0x8F55314862E5CD1
    ensures Xor64(0x646C726F77206F6C, 0xAF56BC3B0996523A) == 0xCB3ACE547EB63D56
  {
    hide Xor64;
    XorIs(0x6F77206F6C6C6568, 0x6782737BEA4239B9,
      Hex(6, 15, 7, 7, 2, 0, 6, 15, 6, 12, 6, 12, 6, 5, 6, 8),
      Hex(6, 7, 8, 2, 7, 3, 7, 11, 14, 10, 4, 2, 3, 9, 11, 9));
    XorIs(0x646C726F77206F6C, 0xAF56BC3B0996523A,
      Hex(6, 4, 6, 12, 7, 2, 6, 15, 7, 7, 2, 0, 6, 15, 6, 12),
      Hex(10, 15, 5, 6, 11, 12, 3, 11, 0, 9, 9, 6, 5, 2, 3, 10));
  }

  lemma HelloWorldFold()
    ensures Mul128Fold64(0x8F55314862E5CD1, 0xCB3ACE547EB63D56) == 0xBD0431B88C90EB74
  {
    hide Mul128Fold64;
    FoldIs(0x8F55314862E5CD1, 0xCB3ACE547EB63D56,
      Hex(11, 10, 1, 8, 10, 6, 1, 6, 15, 10, 4, 6, 15, 11, 3, 6),
      Hex(0, 7, 1, 12, 9, 7, 10, 14, 7, 6, 13, 6, 1, 0, 4, 2));
  }

  lemma HelloWorldSwap()
    ensures Swap64(0x8F55314862E5CD1) == 0xD15C2E861453F508
  {
    hide Swap32, Swap64;
    HalvesSwap(0x8F55314862E5CD1, 0x8F55314, 0x862E5CD1);
    SwapIs(0x8F55314, 0x14, 0x53, 0xF5, 0x08);
    SwapIs(0x862E5CD1, 0xD1, 0x5C, 0x2E, 0x86);
  }

  lemma HelloWorldAvalanche()
    ensures Xxh3Avalanche(0x599B2E931F9B1DDD) == 0xD447B1EA40E6988B
  {
    hide Mul64, XorShift64, Pow2;
    Powers();
    StageIs(0x599B2E931F9B1DDD, 37, 0x165667919E3779F9, 0xD447B1EA94A12961,
      Hex(5, 9, 9, 11, 2, 14, 9, 3, 1, 15, 9, 11, 1, 13, 13, 13),
      Hex(0, 0, 0, 0, 0, 0, 0, 0, 0, 2, 12, 12, 13, 9, 7, 4),
      0x131F9B1DDD, 0x7D19462B1F52A4B);
    XorShiftIs(0xD447B1EA94A12961, 32,
      Hex(13, 4, 4, 7, 11, 1, 14, 10, 9, 4, 10, 1, 2, 9, 6, 1),
      Hex(0, 0, 0, 0, 0, 0, 0, 0, 13, 4, 4, 7, 11, 1, 14, 10),
      0x94A12961);
  }

  /** The input "hello world". */
  lemma HelloWorld(k: Kernel)
    ensures Hash(k, DEFAULT, HELLO_WORLD) == 0xD447B1EA40E6988B
  {
    hide HashLong, CustomSecret, Xor64, ReadLE64, Swap64, Mul128Fold64, Xxh3Avalanche, Sub64;
    NineFlips();
    HelloWorldReads();
    HelloWorldFlips();
    HelloWorldFold();
    HelloWorldSwap();
    HelloWorldAvalanche();
  }

  const TWELVE: Bytes := [0x00, 0x52, 0x92, 0x9B, 0xB7, 0x32, 0xA3, 0x24, 0x2D, 0x00, 0xAF, 0x95]

  lemma TwelveReads()
    ensures ReadLE64(TWELVE) == 0x24A332B79B925200
    ensures ReadLE64(TWELVE[|TWELVE| - 8..]) == 0x95AF002D24A332B7
  {
  }

  lemma TwelveFlips()
    ensures Add64(0x6782737BEA4239B9, PRIME_SEED) == 0x5B9ED2D702E0446
    ensures Sub64(0xAF56BC3B0996523A, PRIME_SEED) == 0x111F428983AA87AD
    ensures Xor64(0x24A332B79B925200, 0x5B9ED2D702E0446) == 0x211ADF9AEBBC5646
    ensures Xor64(0x95AF002D24A332B7, 0x111F428983AA87AD) == 0x84B042A4A709B51A
  {
    hide Xor64;
    XorIs(0x24A332B79B925200, 0x5B9ED2D702E0446,
      Hex(2, 4, 10, 3, 3, 2, 11, 7, 9, 11, 9, 2, 5, 2, 0, 0),
      Hex(0, 5, 11, 9, 14, 13, 2, 13, 7, 0, 2, 14, 0, 4, 4, 6));
    XorIs(0x95AF002D24A332B7, 0x111F428983AA87AD,
      Hex(9, 5, 10, 15, 0, 0, 2, 13, 2, 4, 10, 3, 3, 2, 11, 7),
      Hex(1, 1, 1, 15, 4, 2, 8, 9, 8, 3, 10, 10, 8, 7, 10, 13));
  }

  lemma TwelveFold()
    ensures Mul128Fold64(0x211ADF9AEBBC5646, 0x84B042A4A709B51A) == 0x553A134518106624
  {
    hide Mul128Fold64;
    FoldIs(0x211ADF9AEBBC5646, 0x84B042A4A709B51A,
      Hex(4, 4, 1, 2, 11, 5, 2, 6, 12, 12, 9, 6, 4, 1, 1, 12),
      Hex(1, 1, 2, 8, 10, 6, 6, 3, 13, 4, 8, 6, 2, 7, 3, 8));
  }

  lemma TwelveSwap()
    ensures Swap64(0x211ADF9AEBBC5646) == 0x4656BCEB9ADF1A21
  {
    hide Swap32, Swap64;
    HalvesSwap(0x211ADF9AEBBC5646, 0x211ADF9A, 0xEBBC5646);
    SwapIs(0x211ADF9A, 0x9A, 0xDF, 0x1A, 0x21);
    SwapIs(0xEBBC5646, 0x46, 0x56, 0xBC, 0xEB);
  }

  lemma TwelveAvalanche()
    ensures Xxh3Avalanche(0x204112D559F9356B) == 0xE7303E1B2336DE0E
  {
    hide Mul64, XorShift64, Pow2;
    Powers();
    StageIs(0x204112D559F9356B, 37, 0x165667919E3779F9, 0xE7303E1BC406E015,
      Hex(2, 0, 4, 1, 1, 2, 13, 5, 5, 9, 15, 9, 3, 5, 6, 11),
      Hex(0, 0, 0, 0, 0, 0, 0, 0, 0, 1, 0, 2, 0, 8, 9, 6),
      0x1559F9356B, 0x2D07A8730B02457);
    XorShiftIs(0xE7303E1BC406E015, 32,
      Hex(14, 7, 3, 0, 3, 14, 1, 11, 12, 4, 0, 6, 14, 0, 1, 5),
      Hex(0, 0, 0, 0, 0, 0, 0, 0, 14, 7, 3, 0, 3, 14, 1, 11),
      0xC406E015);
  }

  /** Twelve bytes, with a seed. */
  lemma Twelve(k: Kernel)
    ensures Hash(k, WithSeed(PRIME_SEED), TWELVE) == 0xE7303E1B2336DE0E
  {
    hide HashLong, CustomSecret, Xor64, ReadLE64, Swap64, Mul128Fold64, Xxh3Avalanche, Sub64;
    NineFlips();
    TwelveReads();
    TwelveFlips();
    TwelveFold();
    TwelveSwap();
    TwelveAvalanche();
  }
}
