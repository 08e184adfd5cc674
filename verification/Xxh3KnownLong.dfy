/** A known answer of the published XXH3 algorithm for a long input.

    The secret counts upwards from 0; the input of four stripes is zero except for the second one. */
module Xxh3KnownLong {
  import opened Arithmetic
  import opened Bits
  import opened HexWords
  import opened StripeFold
  import opened XxhWords
  import opened Xxh3Mix
  import opened Xxh3Long
  import opened Xxh3OneShot
  import opened Xxh3Kernel
  import opened Xxh3KnownMid

  const LONG: Bytes := Sparse(256, 64, 64)

  function Stripe(n: nat): Bytes
    requires n < 4
  {
    LONG[64 * n..64 * n + 64]
  }

  // ---- words of stripes and of the secret ----

  lemma SecretWord(off: nat, i: nat)
    requires off + 64 <= 136 && i < 8
    ensures IsStripe(SecretAt(SECRET, off)) && Data(SecretAt(SECRET, off), i) == RampWord(off + 8 * i)
  {
    hide RampWord, ReadLE64, Ramp;
    RampRead(off + 8 * i);
    PieceRead(SECRET, off, 8 * i);
  }

  lemma StripeWord(n: nat, i: nat)
    requires n < 4 && i < 8
    ensures IsStripe(Stripe(n)) && Data(Stripe(n), i) == if n == 1 then RampWord(8 * i) else 0
  {
    hide RampWord;
    var p := LONG[64 * n + 8 * i..];
    forall k | 0 <= k < 8 ensures p[k] == if n == 1 then 8 * i + k else 0 {
      assert p[k] == LONG[64 * n + 8 * i + k];
    }
    PieceRead(LONG, 64 * n, 8 * i);
    RampBytes(p, 8 * i, n == 1);
  }

  lemma RampBytes(p: Bytes, off: nat, ramp: bool)
    requires |p| >= 8 && off <= 0xF8 && forall k :: 0 <= k < 8 ==> p[k] == if ramp then off + k else 0
    ensures ReadLE64(p) == if ramp then RampWord(off) else 0
  {
  }

  /** The product of the halves of a word. */
  lemma HalvesIs(x: Word64, high: nat, low: nat)
    requires high < 0x1_0000_0000 && low < 0x1_0000_0000 && x == high * 0x1_0000_0000 + low
    ensures HalvesProduct(x) == low * high
  {
    hide Mult32to64;
    DivModUnique(x, 0x1_0000_0000, high, low);
    HalfWords(low, high);
  }

  lemma HalfWords(low: nat, high: nat)
    requires low < 0x1_0000_0000 && high < 0x1_0000_0000
    ensures Mult32to64(low, high) == low * high
  {
    HalfProductBound(low, high);
  }

  // ---- one stripe of zeros ----

  /** Every lane receives the product of its own piece of the secret. */
  ghost predicate Quiet(acc: Acc, off: nat, acc': Acc)
    requires off <= 128
  {
    forall i :: 0 <= i < 8 ==> acc'[i] == Add64(acc[i], HalvesProduct(RampWord(off + 8 * i)))
  }

  lemma QuietStripe(acc: Acc, n: nat, off: nat, acc': Acc)
    requires n < 4 && n != 1 && off + 64 <= 136 && Quiet(acc, off, acc')
    ensures SCALAR.acc512(acc, Stripe(n), SecretAt(SECRET, off)) == acc'
  {
    hide Stripe, SecretAt, Data, Xor64, HalvesProduct, RampWord;
    StripeWord(n, 0);
    SecretWord(off, 0);
    var r := Acc512(acc, Stripe(n), SecretAt(SECRET, off));
    forall i | 0 <= i < 8 ensures r[i] == acc'[i] {
      StripeWord(n, i);
      StripeWord(n, Flip(i));
      SecretWord(off, i);
      ZeroXor(RampWord(off + 8 * i));
      assert Add64(acc[i], 0) == acc[i];
    }
    assert r == acc';
  }

  lemma NextStripe(n: nat)
    requires n < 3
    ensures Consumed(SCALAR, SECRET, LONG[..64 * (n + 1)])
         == Step(SCALAR, SECRET, Consumed(SCALAR, SECRET, LONG[..64 * n]), Stripe(n))
  {
    hide Step;
    var d := LONG[..64 * (n + 1)];
    assert d[..|d| - 64] == LONG[..64 * n] && d[|d| - 64..] == Stripe(n);
  }

  // ---- the products of the secret ----

  lemma Products()
    ensures HalvesProduct(RampWord(0)) == 0x1520221C0D0400
    ensures HalvesProduct(RampWord(8)) == 0xA631A3FD5DD460
    ensures HalvesProduct(RampWord(16)) == 0x1B844A7E02FA540
    ensures HalvesProduct(RampWord(24)) == 0x34B592DC48276A0
    ensures HalvesProduct(RampWord(32)) == 0x55F6F35AA564880
    ensures HalvesProduct(RampWord(40)) == 0x7F486BF91AB1AE0
    ensures HalvesProduct(RampWord(48)) == 0xB0A9FCB7A80EDC0
    ensures HalvesProduct(RampWord(56)) == 0xEA1BA5964D7C120
    ensures HalvesProduct(RampWord(64)) == 0x12B9D66950AF9500
    ensures HalvesProduct(RampWord(72)) == 0x1752F3FB3E086960
  {
    hide HalvesProduct;
    HalvesIs(0x706050403020100, 0x7060504, 0x3020100);
    HalvesIs(0xF0E0D0C0B0A0908, 0xF0E0D0C, 0xB0A0908);
    HalvesIs(0x1716151413121110, 0x17161514, 0x13121110);
    HalvesIs(0x1F1E1D1C1B1A1918, 0x1F1E1D1C, 0x1B1A1918);
    HalvesIs(0x2726252423222120, 0x27262524, 0x23222120);
    HalvesIs(0x2F2E2D2C2B2A2928, 0x2F2E2D2C, 0x2B2A2928);
    HalvesIs(0x3736353433323130, 0x37363534, 0x33323130);
    HalvesIs(0x3F3E3D3C3B3A3938, 0x3F3E3D3C, 0x3B3A3938);
    HalvesIs(0x4746454443424140, 0x47464544, 0x43424140);
    HalvesIs(0x4F4E4D4C4B4A4948, 0x4F4E4D4C, 0x4B4A4948);
  }

  lemma LastProducts()
    ensures HalvesProduct(RampWord(65)) == 0x1345EC067245A185
    ensures HalvesProduct(RampWord(73)) == 0x17EF29C89FCE95F5
    ensures HalvesProduct(RampWord(81)) == 0x1D19690CCED88AE5
    ensures HalvesProduct(RampWord(89)) == 0x22C4A9D2FF638055
    ensures HalvesProduct(RampWord(97)) == 0x28F0EC1B316F7645
    ensures HalvesProduct(RampWord(105)) == 0x2F9E2FE564FC6CB5
    ensures HalvesProduct(RampWord(113)) == 0x36CC75319A0A63A5
    ensures HalvesProduct(RampWord(121)) == 0x3E7BBBFFD0995B15
  {
    hide HalvesProduct;
    HalvesIs(0x4847464544434241, 0x48474645, 0x44434241);
    HalvesIs(0x504F4E4D4C4B4A49, 0x504F4E4D, 0x4C4B4A49);
    HalvesIs(0x5857565554535251, 0x58575655, 0x54535251);
    HalvesIs(0x605F5E5D5C5B5A59, 0x605F5E5D, 0x5C5B5A59);
    HalvesIs(0x6867666564636261, 0x68676665, 0x64636261);
    HalvesIs(0x706F6E6D6C6B6A69, 0x706F6E6D, 0x6C6B6A69);
    HalvesIs(0x7877767574737271, 0x78777675, 0x74737271);
    HalvesIs(0x807F7E7D7C7B7A79, 0x807F7E7D, 0x7C7B7A79);
  }

  // ---- stripe by stripe ----

  lemma After0()
    ensures Consumed(SCALAR, SECRET, LONG[..0]) == Run(INIT_ACC, 0)
  {
  }

  const ACC1: Acc :=
        [0x152022DEBFB23D, 0x9EDDAB5583499EE7, 0xC46AF2E50804908F, 0x19A1C0DF62B9F099,
         0x8B4B39AD6D08F6E3, 0x7F486C01796E557, 0x32DF8AFA90D75585, 0xEA1BA5A030F3AD1]

  lemma Quiet0()
    ensures Quiet(INIT_ACC, 0, ACC1)
  {
    hide HalvesProduct, RampWord;
    Products();
  }

  lemma After1()
    ensures Consumed(SCALAR, SECRET, LONG[..64]) == Run(ACC1, 1)
  {
    hide Consumed, Stripe, SecretAt, Quiet;
    After0();
    NextStripe(0);
    Quiet0();
    QuietStripe(INIT_ACC, 0, 0, ACC1);
  }

  const ACC2: Acc :=
        [0xF63ADEFEA8A3B85, 0xA82837228D102227, 0xE3C990C223DF29E7, 0x3D107AE49AA48DE9,
         0xBAB9E79A98F3A04B, 0x315F32AD417D88B7, 0x725E48F7CCD20EFD, 0x7E89192FDF722441]

  lemma Loud0()
    ensures HalvesProduct(Xor64(RampWord(0), RampWord(8))) == 0x4080C100C08040
    ensures HalvesProduct(Xor64(RampWord(8), RampWord(16))) == 0x24486C906C48240
    ensures HalvesProduct(Xor64(RampWord(16), RampWord(24))) == 0x4080C100C08040
    ensures HalvesProduct(Xor64(RampWord(24), RampWord(32))) == 0xC58A4F124D88C40
  {
    hide HalvesProduct, Xor64;
    XorIs(0x706050403020100, 0xF0E0D0C0B0A0908,
      Hex(0, 7, 0, 6, 0, 5, 0, 4, 0, 3, 0, 2, 0, 1, 0, 0),
      Hex(0, 15, 0, 14, 0, 13, 0, 12, 0, 11, 0, 10, 0, 9, 0, 8));
    HalvesIs(0x808080808080808, 0x8080808, 0x8080808);
    XorIs(0xF0E0D0C0B0A0908, 0x1716151413121110,
      Hex(0, 15, 0, 14, 0, 13, 0, 12, 0, 11, 0, 10, 0, 9, 0, 8),
      Hex(1, 7, 1, 6, 1, 5, 1, 4, 1, 3, 1, 2, 1, 1, 1, 0));
    HalvesIs(0x1818181818181818, 0x18181818, 0x18181818);
    XorIs(0x1716151413121110, 0x1F1E1D1C1B1A1918,
      Hex(1, 7, 1, 6, 1, 5, 1, 4, 1, 3, 1, 2, 1, 1, 1, 0),
      Hex(1, 15, 1, 14, 1, 13, 1, 12, 1, 11, 1, 10, 1, 9, 1, 8));
    HalvesIs(0x808080808080808, 0x8080808, 0x8080808);
    XorIs(0x1F1E1D1C1B1A1918, 0x2726252423222120,
      Hex(1, 15, 1, 14, 1, 13, 1, 12, 1, 11, 1, 10, 1, 9, 1, 8),
      Hex(2, 7, 2, 6, 2, 5, 2, 4, 2, 3, 2, 2, 2, 1, 2, 0));
    HalvesIs(0x3838383838383838, 0x38383838, 0x38383838);
  }

  lemma Loud4()
    ensures HalvesProduct(Xor64(RampWord(32), RampWord(40))) == 0x4080C100C08040
    ensures HalvesProduct(Xor64(RampWord(40), RampWord(48))) == 0x24486C906C48240
    ensures HalvesProduct(Xor64(RampWord(48), RampWord(56))) == 0x4080C100C08040
    ensures HalvesProduct(Xor64(RampWord(56), RampWord(64))) == 0x38B129A1A930B840
  {
    hide HalvesProduct, Xor64;
    XorIs(0x2726252423222120, 0x2F2E2D2C2B2A2928,
      Hex(2, 7, 2, 6, 2, 5, 2, 4, 2, 3, 2, 2, 2, 1, 2, 0),
      Hex(2, 15, 2, 14, 2, 13, 2, 12, 2, 11, 2, 10, 2, 9, 2, 8));
    HalvesIs(0x808080808080808, 0x8080808, 0x8080808);
    XorIs(0x2F2E2D2C2B2A2928, 0x3736353433323130,
      Hex(2, 15, 2, 14, 2, 13, 2, 12, 2, 11, 2, 10, 2, 9, 2, 8),
      Hex(3, 7, 3, 6, 3, 5, 3, 4, 3, 3, 3, 2, 3, 1, 3, 0));
    HalvesIs(0x1818181818181818, 0x18181818, 0x18181818);
    XorIs(0x3736353433323130, 0x3F3E3D3C3B3A3938,
      Hex(3, 7, 3, 6, 3, 5, 3, 4, 3, 3, 3, 2, 3, 1, 3, 0),
      Hex(3, 15, 3, 14, 3, 13, 3, 12, 3, 11, 3, 10, 3, 9, 3, 8));
    HalvesIs(0x808080808080808, 0x8080808, 0x8080808);
    XorIs(0x3F3E3D3C3B3A3938, 0x4746454443424140,
      Hex(3, 15, 3, 14, 3, 13, 3, 12, 3, 11, 3, 10, 3, 9, 3, 8),
      Hex(4, 7, 4, 6, 4, 5, 4, 4, 4, 3, 4, 2, 4, 1, 4, 0));
    HalvesIs(0x7878787878787878, 0x78787878, 0x78787878);
  }

  lemma LoudLane(i: nat)
    requires i < 8
    ensures IsStripe(Stripe(1)) && IsStripe(SecretAt(SECRET, 8))
    ensures AccLane(ACC1, Stripe(1), SecretAt(SECRET, 8), i)
         == Add64(Add64(ACC1[i], RampWord(8 * Flip(i))), HalvesProduct(Xor64(RampWord(8 * i), RampWord(8 + 8 * i))))
  {
    hide Stripe, SecretAt, Data, Xor64, HalvesProduct, Add64, RampWord;
    StripeWord(1, i);
    StripeWord(1, Flip(i));
    SecretWord(8, i);
  }

  lemma LoudSums0(i: nat)
    requires i < 4
    ensures Add64(Add64(ACC1[i], RampWord(8 * Flip(i))), HalvesProduct(Xor64(RampWord(8 * i), RampWord(8 + 8 * i)))) == ACC2[i]
  {
    hide HalvesProduct, Xor64;
    Loud0();
  }

  lemma LoudSums4(i: nat)
    requires 4 <= i < 8
    ensures Add64(Add64(ACC1[i], RampWord(8 * Flip(i))), HalvesProduct(Xor64(RampWord(8 * i), RampWord(8 + 8 * i)))) == ACC2[i]
  {
    hide HalvesProduct, Xor64;
    Loud4();
  }

  /** The stripe that is not zero: every lane receives its neighbour's word and its own product. */
  lemma LoudStripe()
    ensures SCALAR.acc512(ACC1, Stripe(1), SecretAt(SECRET, 8)) == ACC2
  {
    hide Stripe, SecretAt, AccLane, HalvesProduct, Xor64, Add64, RampWord;
    LoudLane(0);
    var r := Acc512(ACC1, Stripe(1), SecretAt(SECRET, 8));
    forall i | 0 <= i < 8 ensures r[i] == ACC2[i] {
      LoudLane(i);
      if i < 4 {
        LoudSums0(i);
      } else {
        LoudSums4(i);
      }
    }
    assert r == ACC2;
  }

  lemma After2()
    ensures Consumed(SCALAR, SECRET, LONG[..128]) == Run(ACC2, 2)
  {
    hide Consumed, Stripe, SecretAt, Quiet;
    After1();
    NextStripe(1);
    LoudStripe();
  }

  const ACC3: Acc :=
        [0x111BF297CAB9E0C5, 0xAB739050519298C7, 0xE928FFF7CE357267, 0x450501A42C4FA8C9,
         0xC5C4876613748E0B, 0x4000ED06A65549D7, 0x85181F611D81A3FD, 0x95DC0D2B1D7A8DA1]

  lemma Quiet2()
    ensures Quiet(ACC2, 16, ACC3)
  {
    hide HalvesProduct, RampWord;
    Products();
  }

  lemma After3()
    ensures Consumed(SCALAR, SECRET, LONG[..192]) == Run(ACC3, 3)
  {
    hide Consumed, Stripe, SecretAt, Quiet;
    After2();
    NextStripe(2);
    Quiet2();
    QuietStripe(ACC2, 2, 16, ACC3);
  }

  // ---- the last stripe and the merge ----

  const FINAL: Acc :=
        [0x2461DE9E3CFF824A, 0xC362BA18F1612EBC, 0x64269049D0DFD4C, 0x67C9AB772BB3291E,
         0xEEB5738144E40450, 0x6F9F1CEC0B51B68C, 0xBBE49492B78C07A2, 0xD457C92AEE13E8B6]

  lemma QuietLast()
    ensures Quiet(ACC3, 65, FINAL)
  {
    hide HalvesProduct, RampWord;
    LastProducts();
  }

  lemma LastBytes()
    ensures |LONG| == 256 && (|LONG| - 1) / 64 * 64 == 192 && LONG[|LONG| - 64..] == Stripe(3)
    ensures |SECRET| - 64 - 7 == 65
  {
    hide Sparse, Ramp;
    assert (256 - 1) / 64 == 3;
  }

  lemma Final()
    ensures FinalAcc(SCALAR, SECRET, LONG) == FINAL
  {
    hide Consumed, SecretAt, Stripe, Quiet, Sparse, Ramp, AccLane;
    After3();
    QuietLast();
    QuietStripe(ACC3, 3, 65, FINAL);
    LastBytes();
  }

  lemma MergeWords(n: nat)
    requires n < 4
    ensures ReadLE64(SECRET[11..][16 * n..]) == RampWord(11 + 16 * n)
    ensures ReadLE64(SECRET[11..][16 * n..][8..]) == RampWord(19 + 16 * n)
  {
    hide ReadLE64, RampWord;
    RampReads(11 + 16 * n);
    assert SECRET[11..][16 * n..] == SECRET[11 + 16 * n..];
  }

  lemma Merge0Keyed()
    ensures Xor64(0x2461DE9E3CFF824A, RampWord(11)) == 0x3670CE9132F28E41
    ensures Xor64(0xC362BA18F1612EBC, RampWord(19)) == 0xD97BA20FE7743AAF
  {
    hide Xor64;
    XorIs(0x2461DE9E3CFF824A, 0x1211100F0E0D0C0B,
      Hex(2, 4, 6, 1, 13, 14, 9, 14, 3, 12, 15, 15, 8, 2, 4, 10),
      Hex(1, 2, 1, 1, 1, 0, 0, 15, 0, 14, 0, 13, 0, 12, 0, 11));
    XorIs(0xC362BA18F1612EBC, 0x1A19181716151413,
      Hex(12, 3, 6, 2, 11, 10, 1, 8, 15, 1, 6, 1, 2, 14, 11, 12),
      Hex(1, 10, 1, 9, 1, 8, 1, 7, 1, 6, 1, 5, 1, 4, 1, 3));
  }

  lemma Merge0Fold()
    ensures Mul128Fold64(0x3670CE9132F28E41, 0xD97BA20FE7743AAF) == 0x7F1B6F23FC026BB3
  {
    hide Mul128Fold64;
    FoldIs(0x3670CE9132F28E41, 0xD97BA20FE7743AAF,
      Hex(5, 1, 2, 4, 8, 6, 14, 0, 14, 4, 7, 13, 15, 8, 6, 15),
      Hex(2, 14, 3, 15, 14, 9, 12, 3, 1, 8, 7, 15, 9, 3, 13, 12));
  }

  lemma Merge0()
    ensures Mix2Accs(0x2461DE9E3CFF824A, 0xC362BA18F1612EBC, SECRET[11..][0..]) == 0x7F1B6F23FC026BB3
  {
    hide Mul128Fold64, Xor64, ReadLE64, RampWord;
    MergeWords(0);
    Merge0Keyed();
    Merge0Fold();
  }

  lemma Merge1Keyed()
    ensures Xor64(0x64269049D0DFD4C, RampWord(27)) == 0x2463491B8310E157
    ensures Xor64(0x67C9AB772BB3291E, RampWord(35)) == 0x4DE083500D960D3D
  {
    hide Xor64;
    XorIs(0x64269049D0DFD4C, 0x2221201F1E1D1C1B,
      Hex(0, 6, 4, 2, 6, 9, 0, 4, 9, 13, 0, 13, 15, 13, 4, 12),
      Hex(2, 2, 2, 1, 2, 0, 1, 15, 1, 14, 1, 13, 1, 12, 1, 11));
    XorIs(0x67C9AB772BB3291E, 0x2A29282726252423,
      Hex(6, 7, 12, 9, 10, 11, 7, 7, 2, 11, 11, 3, 2, 9, 1, 14),
      Hex(2, 10, 2, 9, 2, 8, 2, 7, 2, 6, 2, 5, 2, 4, 2, 3));
  }

  lemma Merge1Fold()
    ensures Mul128Fold64(0x2463491B8310E157, 0x4DE083500D960D3D) == 0xEACAAE3CE7AC1140
  {
    hide Mul128Fold64;
    FoldIs(0x2463491B8310E157, 0x4DE083500D960D3D,
      Hex(14, 1, 13, 11, 6, 8, 11, 11, 8, 10, 7, 1, 1, 12, 11, 11),
      Hex(0, 11, 1, 1, 12, 6, 8, 7, 6, 13, 13, 13, 0, 13, 15, 11));
  }

  lemma Merge1()
    ensures Mix2Accs(0x64269049D0DFD4C, 0x67C9AB772BB3291E, SECRET[11..][16..]) == 0xEACAAE3CE7AC1140
  {
    hide Mul128Fold64, Xor64, ReadLE64, RampWord;
    MergeWords(1);
    Merge1Keyed();
    Merge1Fold();
  }

  lemma Merge2Keyed()
    ensures Xor64(0xEEB5738144E40450, RampWord(43)) == 0xDC8443AE6AC9287B
    ensures Xor64(0x6F9F1CEC0B51B68C, RampWord(51)) == 0x55A624DB3D6482BF
  {
    hide Xor64;
    XorIs(0xEEB5738144E40450, 0x3231302F2E2D2C2B,
      Hex(14, 14, 11, 5, 7, 3, 8, 1, 4, 4, 14, 4, 0, 4, 5, 0),
      Hex(3, 2, 3, 1, 3, 0, 2, 15, 2, 14, 2, 13, 2, 12, 2, 11));
    XorIs(0x6F9F1CEC0B51B68C, 0x3A39383736353433,
      Hex(6, 15, 9, 15, 1, 12, 14, 12, 0, 11, 5, 1, 11, 6, 8, 12),
      Hex(3, 10, 3, 9, 3, 8, 3, 7, 3, 6, 3, 5, 3, 4, 3, 3));
  }

  lemma Merge2Fold()
    ensures Mul128Fold64(0xDC8443AE6AC9287B, 0x55A624DB3D6482BF) == 0x22EEA431B1B52740
  {
    hide Mul128Fold64;
    FoldIs(0xDC8443AE6AC9287B, 0x55A624DB3D6482BF,
      Hex(6, 11, 2, 9, 10, 3, 12, 13, 15, 1, 10, 15, 10, 9, 12, 5),
      Hex(4, 9, 12, 7, 0, 7, 15, 12, 4, 0, 1, 10, 8, 14, 8, 5));
  }

  lemma Merge2()
    ensures Mix2Accs(0xEEB5738144E40450, 0x6F9F1CEC0B51B68C, SECRET[11..][32..]) == 0x22EEA431B1B52740
  {
    hide Mul128Fold64, Xor64, ReadLE64, RampWord;
    MergeWords(2);
    Merge2Keyed();
    Merge2Fold();
  }

  lemma Merge3Keyed()
    ensures Xor64(0xBBE49492B78C07A2, RampWord(59)) == 0xF9A5D4AD89B13B99
    ensures Xor64(0xD457C92AEE13E8B6, RampWord(67)) == 0x9E1E816DA856ACF5
  {
    hide Xor64;
    XorIs(0xBBE49492B78C07A2, 0x4241403F3E3D3C3B,
      Hex(11, 11, 14, 4, 9, 4, 9, 2, 11, 7, 8, 12, 0, 7, 10, 2),
      Hex(4, 2, 4, 1, 4, 0, 3, 15, 3, 14, 3, 13, 3, 12, 3, 11));
    XorIs(0xD457C92AEE13E8B6, 0x4A49484746454443,
      Hex(13, 4, 5, 7, 12, 9, 2, 10, 14, 14, 1, 3, 14, 8, 11, 6),
      Hex(4, 10, 4, 9, 4, 8, 4, 7, 4, 6, 4, 5, 4, 4, 4, 3));
  }

  lemma Merge3Fold()
    ensures Mul128Fold64(0xF9A5D4AD89B13B99, 0x9E1E816DA856ACF5) == 0x9E9C348ACF4F0AA8
  {
    hide Mul128Fold64;
    FoldIs(0xF9A5D4AD89B13B99, 0x9E1E816DA856ACF5,
      Hex(0, 4, 10, 14, 2, 12, 6, 3, 4, 8, 0, 14, 13, 5, 6, 13),
      Hex(9, 10, 3, 2, 1, 8, 14, 9, 8, 7, 4, 1, 13, 15, 12, 5));
  }

  lemma Merge3()
    ensures Mix2Accs(0xBBE49492B78C07A2, 0xD457C92AEE13E8B6, SECRET[11..][48..]) == 0x9E9C348ACF4F0AA8
  {
    hide Mul128Fold64, Xor64, ReadLE64, RampWord;
    MergeWords(3);
    Merge3Keyed();
    Merge3Fold();
  }

  lemma Merged()
    ensures MergeSum(FINAL, SECRET[11..], LenTimesPrime(256), 4) == 0x62EAA7A3507D35DB
  {
    hide Mix2Accs;
    Merge0();
    Merge1();
    Merge2();
    Merge3();
    assert LenTimesPrime(256) == 0x3779B185EBCA8700;
    assert MergeSum(FINAL, SECRET[11..], LenTimesPrime(256), 1) == 0xB69520A9E7CCF2B3;
    assert MergeSum(FINAL, SECRET[11..], LenTimesPrime(256), 2) == 0xA15FCEE6CF7903F3;
    assert MergeSum(FINAL, SECRET[11..], LenTimesPrime(256), 3) == 0xC44E7318812E2B33;
    assert MergeSum(FINAL, SECRET[11..], LenTimesPrime(256), 4) == 0x62EAA7A3507D35DB;
  }

  lemma LongAvalanche()
    ensures Xxh3Avalanche(0x62EAA7A3507D35DB) == 0x4E8D40386123B58E
  {
    hide Mul64, XorShift64, Pow2;
    Powers();
    StageIs(0x62EAA7A3507D35DB, 37, 0x165667919E3779F9, 0x4E8D40382FAEF5B6,
      Hex(6, 2, 14, 10, 10, 7, 10, 3, 5, 0, 7, 13, 3, 5, 13, 11),
      Hex(0, 0, 0, 0, 0, 0, 0, 0, 0, 3, 1, 7, 5, 5, 3, 13),
      0x3507D35DB, 0x8A18D4107871724);
    XorShiftIs(0x4E8D40382FAEF5B6, 32,
      Hex(4, 14, 8, 13, 4, 0, 3, 8, 2, 15, 10, 14, 15, 5, 11, 6),
      Hex(0, 0, 0, 0, 0, 0, 0, 0, 4, 14, 8, 13, 4, 0, 3, 8),
      0x2FAEF5B6);
  }

  /** 256 bytes. */
  lemma Long()
    ensures Hash(SCALAR, WithSecret(SECRET), LONG) == 0x4E8D40386123B58E
  {
    hide FinalAcc, MergeSum, Xxh3Avalanche, Sparse, LenTimesPrime;
    Final();
    Merged();
    LongAvalanche();
  }
}
