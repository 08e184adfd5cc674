/** A known answer of the XXH64 algorithm of the xxHash specification, for an input of one stripe and a
    tail of eight bytes, four bytes and one byte. */
module Xxh64Known {
  import opened Bits
  import opened HexWords
  import opened StripeFold
  import opened XxhWords
  import opened Xxh3Mix
  import opened Xxh64

  /** "The quick brown fox jumps over the lazy dog." and a line break. */
  const STRIPE: Bytes := [
    0x54, 0x68, 0x65, 0x20, 0x71, 0x75, 0x69, 0x63, 0x6B, 0x20, 0x62, 0x72, 0x6F, 0x77, 0x6E, 0x20,
    0x66, 0x6F, 0x78, 0x20, 0x6A, 0x75, 0x6D, 0x70, 0x73, 0x20, 0x6F, 0x76, 0x65, 0x72, 0x20, 0x74]

  const TAIL: Bytes := [
    0x68, 0x65, 0x20, 0x6C, 0x61, 0x7A, 0x79, 0x20, 0x64, 0x6F, 0x67, 0x2E, 0x0A]

  const FOX: Bytes := STRIPE + TAIL

  lemma RotationPowers()
    ensures Pow2(1) == 2 && Pow2(7) == 0x80 && Pow2(11) == 0x800 && Pow2(12) == 0x1000 && Pow2(18) == 0x4_0000
    ensures Pow2(23) == 0x80_0000 && Pow2(27) == 0x800_0000 && Pow2(31) == 0x8000_0000
  {
    assert Pow2(7) == 0x80 && Pow2(12) == 2 * Pow2(11) == 4 * Pow2(10) == 8 * Pow2(9) == 16 * Pow2(8) == 32 * Pow2(7);
    Pow2Add(11, 7);
    Pow2Add(12, 11);
    Pow2Add(27, 4);
    Pow2Add(23, 4);
    assert Pow2(4) == 16;
  }

  lemma HighPowers()
    ensures Pow2(33) == 0x2_0000_0000 && Pow2(37) == 0x20_0000_0000 && Pow2(41) == 0x200_0000_0000
    ensures Pow2(46) == 0x4000_0000_0000 && Pow2(52) == 0x10_0000_0000_0000 && Pow2(53) == 0x20_0000_0000_0000
    ensures Pow2(57) == 0x200_0000_0000_0000 && Pow2(63) == 0x8000_0000_0000_0000
  {
    RotationPowers();
    WordSizes();
    Pow2Add(32, 1);
    Pow2Add(27, 10);
    Pow2Add(33, 8);
    Pow2Add(23, 23);
    Pow2Add(41, 11);
    Pow2Add(52, 1);
    Pow2Add(46, 11);
    Pow2Add(32, 31);
    assert Pow2(10) == 0x400;
  }

  /** The products and the rotation of a round: `t` and `y` are the wrapped products. */
  lemma RoundIs(acc: Word64, input: Word64, t: Word64, tHigh: nat, high: nat, low: nat, y: Word64, yHigh: nat)
    requires input * PRIME64_2 == tHigh * 0x1_0000_0000_0000_0000 + t
    requires low < 0x2_0000_0000 && Trunc64(acc + t) == high * 0x2_0000_0000 + low && high < 0x8000_0000
    requires (low * 0x8000_0000 + high) * PRIME64_1 == yHigh * 0x1_0000_0000_0000_0000 + y
    ensures Round(acc, input) == y
  {
    hide Rotl64, Mul64, Pow2;
    RotationPowers();
    HighPowers();
    ProductIs(input, PRIME64_2, tHigh, t);
    RotationIs(Add64(acc, t), 31, high, low);
    ProductIs(low * 0x8000_0000 + high, PRIME64_1, yHigh, y);
  }

  lemma Word0()
    ensures ReadLE64(STRIPE[0..]) == 0x6369757120656854
  {
  }

  lemma Word1()
    ensures ReadLE64(STRIPE[8..]) == 0x206E776F7262206B
  {
  }

  lemma Word2()
    ensures ReadLE64(STRIPE[16..]) == 0x706D756A20786F66
  {
  }

  lemma Word3()
    ensures ReadLE64(STRIPE[24..]) == 0x74207265766F2073
  {
  }

  lemma Rounds()
    ensures Round(0x60EA27EEADC0B5D6, 0x6369757120656854) == 0x1BF961D28F3A149D
    ensures Round(0xC2B2AE3D27D4EB4F, 0x206E776F7262206B) == 0xBD18AA2EE4D901F
    ensures Round(0x0, 0x706D756A20786F66) == 0x9986F59CC4FE6078
    ensures Round(0x61C8864E7A143579, 0x74207265766F2073) == 0x79F80495CC7EBC76
  {
    hide Round;
    RoundIs(0x60EA27EEADC0B5D6, 0x6369757120656854, 0xD173518947A04DEC, 0x4B9B4DFCD0A0FF25,
      0x192EBCBB, 0x1F56103C2, 0x1BF961D28F3A149D, 0x9AEF434019790CE4);
    RoundIs(0xC2B2AE3D27D4EB4F, 0x206E776F7262206B, 0xE042491685A63A05, 0x18AA596454B7E794,
      0x517A7BA9, 0x1AD7B2554, 0xBD18AA2EE4D901F, 0x84B78954249C4903);
    RoundIs(0x0, 0x706D756A20786F66, 0xECBAC3915DE5027A, 0x55816B9B51C72363,
      0x765D61C8, 0x15DE5027A, 0x9986F59CC4FE6078, 0x6C1F9507A3889903);
    RoundIs(0x61C8864E7A143579, 0x74207265766F2073, 0x46965866F350947D, 0x5851A44A39DA4F92,
      0x542F6F5A, 0x16D64C9F6, 0x79F80495CC7EBC76, 0x70E9B17FD299EE3C);
  }

  const LANES: Lanes :=
        [0x1BF961D28F3A149D, 0xBD18AA2EE4D901F,
         0x9986F59CC4FE6078, 0x79F80495CC7EBC76]

  lemma FirstLanes()
    ensures Init(0) == [0x60EA27EEADC0B5D6, 0xC2B2AE3D27D4EB4F, 0x0, 0x61C8864E7A143579]
  {
  }

  lemma FirstStep()
    ensures Step(Init(0), STRIPE) == LANES
  {
    hide Round, ReadLE64, Init;
    FirstLanes();
    Rounds();
    Word0();
    Word1();
    Word2();
    Word3();
    assert |STRIPE| == 32 && STRIPE[0..] == STRIPE;
  }

  lemma Parts()
    ensures |FOX| == 45
    ensures FOX[..32] == STRIPE
    ensures FOX[32..] == TAIL
  {
    assert |STRIPE| == 32 && |TAIL| == 13;
  }

  lemma Consuming()
    ensures Consumed(0, STRIPE) == LANES
  {
    hide Step, Init;
    FirstStep();
    assert |STRIPE| == 32 && STRIPE[..0] == [] && STRIPE[0..] == STRIPE;
    assert Fold(Step, Init(0), 32, STRIPE[..0]) == Init(0);
  }

  lemma Rotations()
    ensures Rotl64(0x1BF961D28F3A149D, 1) == 0x37F2C3A51E74293A
    ensures Rotl64(0xBD18AA2EE4D901F, 7) == 0xE8C5517726C80F85
    ensures Rotl64(0x9986F59CC4FE6078, 12) == 0x6F59CC4FE6078998
    ensures Rotl64(0x79F80495CC7EBC76, 18) == 0x125731FAF1D9E7E0
  {
    hide Rotl64, Pow2;
    RotationPowers();
    HighPowers();
    RotationIs(0x1BF961D28F3A149D, 1, 0x0, 0x1BF961D28F3A149D);
    RotationIs(0xBD18AA2EE4D901F, 7, 0x5, 0x1D18AA2EE4D901F);
    RotationIs(0x9986F59CC4FE6078, 12, 0x998, 0x6F59CC4FE6078);
    RotationIs(0x79F80495CC7EBC76, 18, 0x1E7E0, 0x495CC7EBC76);
  }

  lemma Merge0()
    ensures MergeRound(0xA26913671D1DAA37, 0x1BF961D28F3A149D) == 0x739083290851E7D7
  {
    hide Round, Xor64, Mul64;
    RoundIs(0x0, 0x1BF961D28F3A149D, 0x8EF58E1A80DC7B73, 0x15468291C43548A9,
      0x477AC70D, 0x80DC7B73, 0xE2C7D07A8CBE39DB, 0x27D20068B521BD33);
    XorIs(0xA26913671D1DAA37, 0xE2C7D07A8CBE39DB,
      Hex(10, 2, 6, 9, 1, 3, 6, 7, 1, 13, 1, 13, 10, 10, 3, 7),
      Hex(14, 2, 12, 7, 13, 0, 7, 10, 8, 12, 11, 14, 3, 9, 13, 11));
    ProductIs(0x40AEC31D91A393EC, PRIME64_1, 0x27F9E0B7A0217FAF, 0xEDA4B8B1459F3974);
  }

  lemma Merge1()
    ensures MergeRound(0x739083290851E7D7, 0xBD18AA2EE4D901F) == 0xCD0C5C927E433BF7
  {
    hide Round, Xor64, Mul64;
    RoundIs(0x0, 0xBD18AA2EE4D901F, 0xD526EB9BCFE7EE91, 0x8FD0ACD1CE00073,
      0x6A9375CD, 0x1CFE7EE91, 0x6C4239D9B2E5E11B, 0x8F5AD64C4A583C9A);
    XorIs(0x739083290851E7D7, 0x6C4239D9B2E5E11B,
      Hex(7, 3, 9, 0, 8, 3, 2, 9, 0, 8, 5, 1, 14, 7, 13, 7),
      Hex(6, 12, 4, 2, 3, 9, 13, 9, 11, 2, 14, 5, 14, 1, 1, 11));
    ProductIs(0x1FD2BAF0BAB406CC, PRIME64_1, 0x13AAF4C768A80C4D, 0x4720921ABB908D94);
  }

  lemma Merge2()
    ensures MergeRound(0xCD0C5C927E433BF7, 0x9986F59CC4FE6078) == 0x962F3F76B777EA40
  {
    hide Round, Xor64, Mul64;
    RoundIs(0x0, 0x9986F59CC4FE6078, 0x65912428786DED08, 0x74C36E75FC461286,
      0x32C89214, 0x786DED08, 0xBD41959F8764D08C, 0x2536F89449C3A4D1);
    XorIs(0xCD0C5C927E433BF7, 0xBD41959F8764D08C,
      Hex(12, 13, 0, 12, 5, 12, 9, 2, 7, 14, 4, 3, 3, 11, 15, 7),
      Hex(11, 13, 4, 1, 9, 5, 9, 15, 8, 7, 6, 4, 13, 0, 8, 12));
    ProductIs(0x704DC90DF927EB7B, PRIME64_1, 0x4568582F7656A20B, 0x104374FEF4C53BDD);
  }

  lemma Merge3()
    ensures MergeRound(0x962F3F76B777EA40, 0x79F80495CC7EBC76) == 0x9007C00F586BFAF0
  {
    hide Round, Xor64, Mul64;
    RoundIs(0x0, 0x79F80495CC7EBC76, 0x424AB0BA7DD47A6A, 0x5CC314F06B515DD3,
      0x2125585D, 0x7DD47A6A, 0xBF6114A960C9FB0B, 0x26E2340248AB3E8E);
    XorIs(0x962F3F76B777EA40, 0xBF6114A960C9FB0B,
      Hex(9, 6, 2, 15, 3, 15, 7, 6, 11, 7, 7, 7, 14, 10, 4, 0),
      Hex(11, 15, 6, 1, 1, 4, 10, 9, 6, 0, 12, 9, 15, 11, 0, 11));
    ProductIs(0x294E2BDFD7BE114B, PRIME64_1, 0x198732822BA3737A, 0xA1BF59795B94C8D);
  }

  lemma Converged()
    ensures Converge(LANES) == 0x9007C00F586BFAF0
  {
    hide Rotl64, MergeRound;
    Rotations();
    Merge0();
    Merge1();
    Merge2();
    Merge3();
  }

  lemma Eight()
    ensures Process8(0x9007C00F586BFB1D, TAIL) == 0x2EA257A42973B9CE
  {
    hide Round, Xor64, Mul64, Rotl64, Pow2, ReadLE64;
    TailWords();
    RotationPowers();
    HighPowers();
    RoundIs(0x0, 0x20797A616C206568, 0xD3EF8660ED35C318, 0x18B2B94F3EDBA02B,
      0x69F7C330, 0xED35C318, 0xAF785FB17EBBCE50, 0x494D4ADC924EB40D);
    XorIs(0x9007C00F586BFB1D, 0xAF785FB17EBBCE50,
      Hex(9, 0, 0, 7, 12, 0, 0, 15, 5, 8, 6, 11, 15, 11, 1, 13),
      Hex(10, 15, 7, 8, 5, 15, 11, 1, 7, 14, 11, 11, 12, 14, 5, 0));
    RotationIs(0x3F7F9FBE26D0354D, 27, 0x1FBFCFD, 0x1E26D0354D);
    ProductIs(0xF13681AA69FBFCFD, PRIME64_1, 0x9513E967112EFB6D, 0xA8B68D2C66C10B6B);
  }

  lemma Four()
    ensures Process4(0x2EA257A42973B9CE, TAIL[8..]) == 0x93BF74C779B807CF
  {
    hide Xor64, Mul64, Rotl64, Pow2, ReadLE32;
    TailWords();
    RotationPowers();
    HighPowers();
    ProductIs(0x2E676F64, PRIME64_1, 0x1CADE507, 0xB7ECC2AC4B3CA5BC);
    XorIs(0x2EA257A42973B9CE, 0xB7ECC2AC4B3CA5BC,
      Hex(2, 14, 10, 2, 5, 7, 10, 4, 2, 9, 7, 3, 11, 9, 12, 14),
      Hex(11, 7, 14, 12, 12, 2, 10, 12, 4, 11, 3, 12, 10, 5, 11, 12));
    RotationIs(0x994E9508624F1C72, 23, 0x4CA74A, 0x108624F1C72);
    ProductIs(0x8431278E394CA74A, PRIME64_2, 0x64898420457A7525, 0x7D690D15DB808DD6);
  }

  lemma One()
    ensures Process1(0x93BF74C779B807CF, 0x0A) == 0xB343D4EBA0716C09
  {
    hide Xor64, Mul64, Rotl64, Pow2;
    RotationPowers();
    HighPowers();
    ProductIs(10, PRIME64_5, 0x1, 0x8E512FD6DF600DB2);
    XorIs(0x93BF74C779B807CF, 0x8E512FD6DF600DB2,
      Hex(9, 3, 11, 15, 7, 4, 12, 7, 7, 9, 11, 8, 0, 7, 12, 15),
      Hex(8, 14, 5, 1, 2, 15, 13, 6, 13, 15, 6, 0, 0, 13, 11, 2));
    RotationIs(0x1DEE5B11A6D80A7D, 11, 0xEF, 0xE5B11A6D80A7D);
    ProductIs(0x72D88D36C053E8EF, PRIME64_1, 0x46FA8A462003E88F, 0xB343D4EBA0716C09);
  }

  lemma TailWords()
    ensures |TAIL| == 13
    ensures ReadLE64(TAIL) == 0x20797A616C206568
    ensures ReadLE32(TAIL[8..]) == 0x2E676F64
    ensures TAIL[12] == 0x0A
  {
  }

  lemma FoxTail()
    ensures Tail(0x9007C00F586BFB1D, TAIL) == 0xB343D4EBA0716C09
  {
    hide Process8, Process4, Process1;
    Eight();
    Four();
    One();
    TailWords();
    assert TAIL[8..][4..] == TAIL[12..] && TAIL[12..][1..] == [];
    assert Tail(0x93BF74C779B807CF, TAIL[12..]) == Tail(0xB343D4EBA0716C09, []);
    assert Tail(0x2EA257A42973B9CE, TAIL[8..]) == Tail(0x93BF74C779B807CF, TAIL[12..]);
  }

  lemma FoxAvalanche()
    ensures Xxh64Avalanche(0xB343D4EBA0716C09) == 0x286A3C5FC357D5CD
  {
    hide Mul64, XorShift64, Pow2;
    Powers();
    StageIs(0xB343D4EBA0716C09, 33, PRIME64_2, 0x992D4BDCC57D5444,
      Hex(11, 3, 4, 3, 13, 4, 14, 11, 10, 0, 7, 1, 6, 12, 0, 9),
      Hex(0, 0, 0, 0, 0, 0, 0, 0, 5, 9, 10, 1, 14, 10, 7, 5),
      0x1A0716C09, 0x88568687CD2A4750);
    StageIs(0x992D4BDCC57D5444, 29, PRIME64_3, 0x286A3C5FEB3DE992,
      Hex(9, 9, 2, 13, 4, 11, 13, 12, 12, 5, 7, 13, 5, 4, 4, 4),
      Hex(0, 0, 0, 0, 0, 0, 0, 4, 12, 9, 6, 10, 5, 14, 14, 6),
      0x57D5444, 0xD5D97C78C1E8E6B);
    XorShiftIs(0x286A3C5FEB3DE992, 32,
      Hex(2, 8, 6, 10, 3, 12, 5, 15, 14, 11, 3, 13, 14, 9, 9, 2),
      Hex(0, 0, 0, 0, 0, 0, 0, 0, 2, 8, 6, 10, 3, 12, 5, 15),
      0xEB3DE992);
  }

  /** The hash of the sentence. */
  lemma Fox()
    ensures Hash(0, FOX) == 0x286A3C5FC357D5CD
  {
    hide Consumed, Converge, Tail, Xxh64Avalanche;
    Parts();
    Consuming();
    Converged();
    FoxTail();
    FoxAvalanche();
  }

  lemma EmptyAvalanche()
    ensures Xxh64Avalanche(0x27D4EB2F165667C5) == 0xEF46DB3751D8E999
  {
    hide Mul64, XorShift64, Pow2;
    Powers();
    StageIs(0x27D4EB2F165667C5, 33, PRIME64_2, 0xBEB13DDA13C2ED4E,
      Hex(2, 7, 13, 4, 14, 11, 2, 15, 1, 6, 5, 6, 6, 7, 12, 5),
      Hex(0, 0, 0, 0, 0, 0, 0, 0, 1, 3, 14, 10, 7, 5, 9, 7),
      0x1165667C5, 0x1E4B276164D31384);
    StageIs(0xBEB13DDA13C2ED4E, 29, PRIME64_3, 0xEF46DB37BE9E32AE,
      Hex(11, 14, 11, 1, 3, 13, 13, 10, 1, 3, 12, 2, 14, 13, 4, 14),
      Hex(0, 0, 0, 0, 0, 0, 0, 5, 15, 5, 8, 9, 14, 14, 13, 0),
      0x13C2ED4E, 0x10A39819A54D6418);
    XorShiftIs(0xEF46DB37BE9E32AE, 32,
      Hex(14, 15, 4, 6, 13, 11, 3, 7, 11, 14, 9, 14, 3, 2, 10, 14),
      Hex(0, 0, 0, 0, 0, 0, 0, 0, 14, 15, 4, 6, 13, 11, 3, 7),
      0xBE9E32AE);
  }

  /** The hash of nothing. */
  lemma Empty()
    ensures Hash(0, []) == 0xEF46DB3751D8E999
  {
    hide Xxh64Avalanche;
    EmptyAvalanche();
    var none: Bytes := [];
    assert none[0..] == none;
  }

  lemma EmptySeededAvalanche()
    ensures Xxh64Avalanche(0x27D4EB2FB48DE176) == 0xAC75FDA2929B17EF
  {
    hide Mul64, XorShift64, Pow2;
    Powers();
    StageIs(0x27D4EB2FB48DE176, 33, PRIME64_2, 0x15E223734FF57C6F,
      Hex(2, 7, 13, 4, 14, 11, 2, 15, 11, 4, 8, 13, 14, 1, 7, 6),
      Hex(0, 0, 0, 0, 0, 0, 0, 0, 1, 3, 14, 10, 7, 5, 9, 7),
      0x1B48DE176, 0x1E4B2761DFC7E3BF);
    StageIs(0x15E223734FF57C6F, 29, PRIME64_3, 0xAC75FDA23EEEEA4D,
      Hex(1, 5, 14, 2, 2, 3, 7, 3, 4, 15, 15, 5, 7, 12, 6, 15),
      Hex(0, 0, 0, 0, 0, 0, 0, 0, 10, 15, 1, 1, 1, 11, 9, 10),
      0xFF57C6F, 0x1E8D1E10965A028);
    XorShiftIs(0xAC75FDA23EEEEA4D, 32,
      Hex(10, 12, 7, 5, 15, 13, 10, 2, 3, 14, 14, 14, 14, 10, 4, 13),
      Hex(0, 0, 0, 0, 0, 0, 0, 0, 10, 12, 7, 5, 15, 13, 10, 2),
      0x3EEEEA4D);
  }

  /** The hash of nothing, with a seed. */
  lemma EmptySeeded()
    ensures Hash(0x9E3779B1, []) == 0xAC75FDA2929B17EF
  {
    hide Xxh64Avalanche;
    EmptySeededAvalanche();
    var none: Bytes := [];
    assert none[0..] == none;
  }

  /** The lanes a seed starts with. */
  lemma SeededLanes()
    ensures Init(PRIME32_1) == [0x60EA27EF4BF82F87, 0xC2B2AE3DC60C6500,
                       0x9E3779B1, 0x61C8864F184BAF2A]
  {
  }
}
