/** The second, compile-time implementation of 64-bit XXH3.

    It walks the middle lengths with its own loops and inlines the long-input loops over an
    accumulator array.  For every input, secret and seed it computes the hash of `Xxh3OneShot`
    with the scalar routines. */
module ConstexprXxh3 {
  import opened Bits
  import opened StripeFold
  import opened XxhWords
  import opened Xxh3Mix
  import opened Xxh3Long
  import opened Xxh3Short
  import opened Xxh3OneShot
  import opened Xxh3Kernel
  import opened ConstexprWords

  function ConstMix16B(input: Bytes, secret: Bytes, seed: Word64): (r: Word64)
    requires |input| >= 16 && |secret| >= 16
    ensures r == Mix16B(input, secret, seed)
  {
    Mul128Fold64(Xor64(ConstReadLE64(input), Add64(ConstReadLE64(secret), seed)),
                 Xor64(ConstReadLE64(input[8..]), Sub64(ConstReadLE64(secret[8..]), seed)))
  }

  // ---- at most 16 bytes ----

  method ConstLen1to3(input: Bytes, secret: Secret, seed: Word64) returns (h: Word64)
    requires 1 <= |input| <= 3
    ensures h == Len1to3(input, secret, seed)
  {
    hide Xxh64Avalanche, Xor64, Add64, Xor32, ReadLE32, ConstReadLE32, ConstCombined, Combined;
    var keyed := Xor64(ConstCombined(input), Add64(Xor32(ConstReadLE32(secret), ConstReadLE32(secret[4..])), seed));
    h := Xxh64Avalanche(keyed);
  }

  method ConstLen4to8(input: Bytes, secret: Secret, seed: Word64) returns (h: Word64)
    requires 4 <= |input| <= 8
    ensures h == Len4to8(input, secret, seed)
  {
    hide Rrmxmx, Xor64, Sub64, ReadLE32, ConstReadLE32, ReadLE64, ConstReadLE64, Swap32, ConstSwap32;
    Swap32Agrees(Trunc32(seed));
    var keyed := Xor64(ConstReadLE32(input[|input| - 4..]) + ConstReadLE32(input) * 0x1_0000_0000,
                       Sub64(Xor64(ConstReadLE64(secret[8..]), ConstReadLE64(secret[16..])),
                             Xor64(seed, ConstSwap32(Trunc32(seed)) * 0x1_0000_0000)));
    h := Rrmxmx(keyed, |input|);
  }

  method ConstLen9to16(input: Bytes, secret: Secret, seed: Word64) returns (h: Word64)
    requires 9 <= |input| <= 16
    ensures h == Len9to16(input, secret, seed)
  {
    hide Xxh3Avalanche, Xor64, Add64, Sub64, ReadLE64, ConstReadLE64, Swap64, ConstSwap64, Mul128Fold64;
    var inputLo := Xor64(ConstReadLE64(input),
                         Add64(Xor64(ConstReadLE64(secret[24..]), ConstReadLE64(secret[32..])), seed));
    var inputHi := Xor64(ConstReadLE64(input[|input| - 8..]),
                         Sub64(Xor64(ConstReadLE64(secret[40..]), ConstReadLE64(secret[48..])), seed));
    Swap64Agrees(inputLo);
    h := Xxh3Avalanche(Add64(Add64(Add64(|input|, ConstSwap64(inputLo)), inputHi), Mul128Fold64(inputLo, inputHi)));
  }

  method ConstLen0to16(input: Bytes, secret: Secret, seed: Word64) returns (h: Word64)
    requires |input| <= 16
    ensures h == Len0to16(input, secret, seed)
  {
    hide Xxh64Avalanche, Xor64, ReadLE64, ConstReadLE64, Len1to3, Len4to8, Len9to16;
    if |input| == 0 {
      h := Xxh64Avalanche(Xor64(seed, Xor64(ConstReadLE64(secret[56..]), ConstReadLE64(secret[64..]))));
    } else if |input| < 4 {
      h := ConstLen1to3(input, secret, seed);
    } else if |input| <= 8 {
      h := ConstLen4to8(input, secret, seed);
    } else {
      h := ConstLen9to16(input, secret, seed);
    }
  }

  // ---- 17 to 240 bytes ----

  /** The two ends meet: chunks from the front at `i` and from the back before `j`, outermost first. */
  method Const17to128(input: Bytes, secret: Secret, seed: Word64) returns (h: Word64)
    requires 16 < |input| <= 128
    ensures h == Len17to128(input, secret, seed)
  {
    hide Add64, Mix16B, ConstMix16B, Xxh3Avalanche, LenTimesPrime;
    var acc := LenTimesPrime(|input|);
    var secretOff: nat := 0;
    var i: nat, j: nat := 0, |input|;
    ghost var n: nat := 0;
    while j > i
      invariant n <= NbPairs(|input|) && i == 16 * n && j == |input| - 16 * n && secretOff == 32 * n
      invariant acc == PairSum(input, secret, seed, LenTimesPrime(|input|), n)
      decreases j
    {
      assert n < NbPairs(|input|) <= 4 && |input| >= 16 * (n + 1);
      acc := Add64(acc, ConstMix16B(input[i..], secret[secretOff..], seed));
      acc := Add64(acc, ConstMix16B(input[j - 16..], secret[secretOff + 16..], seed));
      secretOff := secretOff + 32;
      i, j, n := i + 16, j - 16, n + 1;
    }
    h := Xxh3Avalanche(acc);
  }

  method Const129to240(input: Bytes, secret: Secret, seed: Word64) returns (h: Word64)
    requires 128 < |input| <= 240
    ensures h == Len129to240(input, secret, seed)
  {
    hide Add64, Mix16B, ConstMix16B, Xxh3Avalanche, LenTimesPrime;
    var acc := LenTimesPrime(|input|);
    var i: nat := 0;
    while i < 128
      invariant i <= 128 && i % 16 == 0
      invariant acc == ChunkSum(input, secret, seed, LenTimesPrime(|input|), i / 16)
    {
      acc := Add64(acc, ConstMix16B(input[i..], secret[i..], seed));
      i := i + 16;
    }
    acc := Xxh3Avalanche(acc);
    ghost var mid := acc;
    i := 128;
    while i < |input| / 16 * 16
      invariant 128 <= i <= |input| / 16 * 16 && i % 16 == 0
      invariant acc == ChunkSum(input[128..], secret[3..], seed, mid, i / 16 - 8)
    {
      ghost var n := i / 16 - 8;
      assert input[i..] == input[128..][16 * n..] && secret[i - 128 + 3..] == secret[3..][16 * n..];
      acc := Add64(acc, ConstMix16B(input[i..], secret[i - 128 + 3..], seed));
      i := i + 16;
    }
    acc := Add64(acc, ConstMix16B(input[|input| - 16..], secret[SECRET_SIZE_MIN - 17..], seed));
    h := Xxh3Avalanche(acc);
  }

  // ---- longer inputs ----

  /** `accumulate_512` */
  method ConstAccumulate512(acc: array<Word64>, input: Bytes, secret: Bytes)
    requires acc.Length == 8 && IsStripe(input) && IsStripe(secret)
    modifies acc
    ensures acc[..] == Acc512(old(acc[..]), input, secret)
  {
    hide Add64, Data, Xor64, ConstReadLE64, HalvesProduct;
    ghost var was: Acc := acc[..];
    for i := 0 to 8
      invariant forall j :: 0 <= j < 8 ==> acc[j] == AfterRounds(was, input, secret, i, j)
    {
      ConstRound(acc, input, secret, i);
      forall j | 0 <= j < 8
        ensures acc[j] == AfterRounds(was, input, secret, i + 1, j)
      {
        OneMoreRound(was, input, secret, i, j);
        assert acc[j] == acc[..][j];
      }
    }
  }

  /** The body of that loop; the product needs no explicit mask on its high factor. */
  method ConstRound(acc: array<Word64>, input: Bytes, secret: Bytes, i: nat)
    requires acc.Length == 8 && IsStripe(input) && IsStripe(secret) && i < 8
    modifies acc
    ensures acc[..] == old(acc[..])[Flip(i) := Add64(old(acc[Flip(i)]), Data(input, i))]
                                   [i := Add64(old(acc[i]), HalvesProduct(DataKey(input, secret, i)))]
  {
    hide Add64, ReadLE64, Xor64, Mul64, ConstReadLE64;
    var dataVal := ConstReadLE64(input[8 * i..]);
    var dataKey := Xor64(dataVal, ConstReadLE64(secret[i * 8..]));
    MulOfHalves(dataKey);
    acc[Flip(i)] := Add64(acc[Flip(i)], dataVal);
    acc[i] := Add64(acc[i], Mul64(dataKey % 0x1_0000_0000, dataKey / 0x1_0000_0000));
  }

  lemma NoStripe(acc: Acc, input: Bytes, secret: Bytes)
    ensures AccumulateFn(SCALAR, acc, input, secret, 0) == acc
  {
  }

  lemma OneMoreStripe(acc: Acc, input: Bytes, secret: Bytes, i: nat)
    requires |input| >= (i + 1) * 64 && i * 8 + 64 <= |secret|
    ensures AccumulateFn(SCALAR, acc, input, secret, i + 1)
         == Acc512(AccumulateFn(SCALAR, acc, input, secret, i), input[i * 64..(i + 1) * 64], secret[i * 8..i * 8 + 64])
  {
    hide Acc512;
  }

  /** A stretch of stripes inside one block. */
  method ConstStripes(acc: array<Word64>, input: Bytes, secret: Bytes, n: nat)
    requires acc.Length == 8 && |input| >= n * 64 && (n > 0 ==> (n - 1) * 8 + 64 <= |secret|)
    modifies acc
    ensures acc[..] == AccumulateFn(SCALAR, old(acc[..]), input, secret, n)
  {
    hide Acc512, AccumulateFn;
    NoStripe(acc[..], input, secret);
    for i := 0 to n
      invariant acc[..] == AccumulateFn(SCALAR, old(acc[..]), input, secret, i)
    {
      OneMoreStripe(old(acc[..]), input, secret, i);
      ConstAccumulate512(acc, input[i * 64..(i + 1) * 64], secret[i * 8..i * 8 + 64]);
    }
  }

  method ConstScramble(acc: array<Word64>, secret: Bytes)
    requires acc.Length == 8 && IsStripe(secret)
    modifies acc
    ensures acc[..] == Scramble(old(acc[..]), secret)
  {
    hide Shr64, ReadLE64, ConstReadLE64, Xor64, Mul64;
    for i := 0 to 8
      invariant forall j :: 0 <= j < i ==> acc[j] == ScrambleLane(old(acc[j]), Data(secret, j))
      invariant forall j :: i <= j < 8 ==> acc[j] == old(acc[j])
    {
      acc[i] := Mul64(Xor64(Xor64(acc[i], Shr64(acc[i], 47)), ConstReadLE64(secret[8 * i..])), PRIME32_1);
    }
  }

  method ConstBlock(acc: array<Word64>, input: Bytes, secret: Secret)
    requires acc.Length == 8 && |input| >= NbStripesPerBlock(secret) * 64
    modifies acc
    ensures Run(acc[..], 0) == Continue(SCALAR, secret, Run(old(acc[..]), 0), input[..NbStripesPerBlock(secret) * 64])
  {
    hide Continue, Scramble, AccumulateFn;
    ghost var was: Acc := acc[..];
    AccumulateIsContinue(SCALAR, secret, Run(was, 0), input, NbStripesPerBlock(secret));
    assert secret[8 * Run(was, 0).soFar..] == secret;
    ConstStripes(acc, input, secret, NbStripesPerBlock(secret));
    assert SecretAt(secret, |secret| - 64) == secret[|secret| - 64..];
    ConstScramble(acc, secret[|secret| - 64..]);
  }

  /** All full blocks. */
  method ConstBlocks(acc: array<Word64>, input: Bytes, secret: Secret, nbBlocks: nat)
    requires acc.Length == 8 && acc[..] == INIT_ACC
    requires nbBlocks * (64 * NbStripesPerBlock(secret)) <= |input|
    modifies acc
    ensures nbBlocks * NbStripesPerBlock(secret) * 64 <= |input|
    ensures Run(acc[..], 0) == Consumed(SCALAR, secret, input[..nbBlocks * NbStripesPerBlock(secret) * 64])
  {
    hide Continue;
    var nbStripesPerBlock := NbStripesPerBlock(secret);
    var blockLen := 64 * nbStripesPerBlock;
    NothingConsumed(SCALAR, secret, Run(INIT_ACC, 0), input);
    Times64(nbBlocks, nbStripesPerBlock);
    ghost var stripes := 0;
    for n := 0 to nbBlocks
      invariant stripes == n * nbStripesPerBlock && n * blockLen == stripes * 64
      invariant Run(acc[..], 0) == Consumed(SCALAR, secret, input[..stripes * 64])
    {
      OneMoreBlock(n, nbBlocks, nbStripesPerBlock);
      ContinueTwice(SCALAR, secret, Run(INIT_ACC, 0), input, stripes, nbStripesPerBlock);
      ConstBlock(acc, input[n * blockLen..], secret);
      stripes := stripes + nbStripesPerBlock;
    }
  }

  /** The stripes after the last full block, and the last stripe. */
  method ConstTail(acc: array<Word64>, input: Bytes, secret: Secret, nbBlocks: nat)
    requires acc.Length == 8 && |input| > 64
    requires nbBlocks == (|input| - 1) / (64 * NbStripesPerBlock(secret))
    requires nbBlocks * NbStripesPerBlock(secret) * 64 < |input|
    requires Run(acc[..], 0) == Consumed(SCALAR, secret, input[..nbBlocks * NbStripesPerBlock(secret) * 64])
    modifies acc
    ensures acc[..] == FinalAcc(SCALAR, secret, input)
  {
    hide Continue, Acc512, AccumulateFn;
    ghost var perBlock := NbStripesPerBlock(secret);
    ghost var was: Acc := acc[..];
    var blockLen := 64 * NbStripesPerBlock(secret);
    BlocksAndStripes(|input| - 1, perBlock);
    Times64(nbBlocks, perBlock);
    var nbStripes := (|input| - 1 - blockLen * nbBlocks) / 64;
    ContinueTwice(SCALAR, secret, Run(INIT_ACC, 0), input, nbBlocks * perBlock, nbStripes);
    AccumulateIsContinue(SCALAR, secret, Run(was, 0), input[nbBlocks * blockLen..], nbStripes);
    assert secret[8 * Run(was, 0).soFar..] == secret;
    ConstStripes(acc, input[nbBlocks * blockLen..], secret, nbStripes);
    var last := |secret| - 64 - 7;
    ConstAccumulate512(acc, input[|input| - 64..], secret[last..last + 64]);
  }

  /** `hashLong_64b_internal` */
  method ConstHashLong(input: Bytes, secret: Secret) returns (result: Word64)
    requires |input| > 64
    ensures result == HashLong(SCALAR, secret, input)
  {
    hide Continue, FinalAcc, MergeSum, Xxh3Avalanche, LenTimesPrime, Add64, Mix2Accs, ConstReadLE64;
    var acc := new Word64[8](i requires 0 <= i < 8 => INIT_ACC[i]);
    assert acc[..] == INIT_ACC;
    var nbBlocks := (|input| - 1) / (64 * NbStripesPerBlock(secret));
    BlocksAndStripes(|input| - 1, NbStripesPerBlock(secret));
    Times64(nbBlocks, NbStripesPerBlock(secret));
    ConstBlocks(acc, input, secret, nbBlocks);
    ConstTail(acc, input, secret, nbBlocks);
    result := ConstMerge(acc[..], secret, LenTimesPrime(|input|));
  }

  lemma OneMorePair(acc: Acc, secret: Secret, start: Word64, i: nat)
    requires i < 4
    ensures MergeSum(acc, secret[11..], start, i + 1)
         == Add64(MergeSum(acc, secret[11..], start, i),
                  Mul128Fold64(Xor64(acc[2 * i], ReadLE64(secret[11 + 16 * i..])),
                               Xor64(acc[2 * i + 1], ReadLE64(secret[11 + 16 * i + 8..]))))
  {
    hide Add64, Mul128Fold64, Xor64, ReadLE64;
    assert secret[11..][16 * i..] == secret[11 + 16 * i..];
    assert secret[11 + 16 * i..][8..] == secret[11 + 16 * i + 8..];
  }

  method ConstMerge(acc: Acc, secret: Secret, start: Word64) returns (result: Word64)
    ensures result == MergeAccs(acc, secret[11..], start)
  {
    hide Add64, Mul128Fold64, Xor64, ReadLE64, ConstReadLE64, Xxh3Avalanche, Mix2Accs;
    result := start;
    for i := 0 to 4
      invariant result == MergeSum(acc, secret[11..], start, i)
    {
      OneMorePair(acc, secret, start, i);
      result := Add64(result, Mul128Fold64(Xor64(acc[2 * i], ConstReadLE64(secret[11 + 16 * i..])),
                                           Xor64(acc[2 * i + 1], ConstReadLE64(secret[11 + 16 * i + 8..]))));
    }
    result := Xxh3Avalanche(result);
  }

  // ---- the derived secret ----

  lemma StoredByte(v: Word64, i: nat)
    requires i < 8
    ensures WriteLE64(v)[i] == ByteOf(v, 8 * i)
  {
    hide ByteOf, WriteLE32;
    StoredHalves(v);
  }

  /** `writeLE64`, byte by byte. */
  method ConstWriteLE64(dst: array<Byte>, off: nat, v: Word64)
    requires off + 8 <= dst.Length
    modifies dst
    ensures dst[off..off + 8] == WriteLE64(v)
    ensures dst[..off] == old(dst[..off]) && dst[off + 8..] == old(dst[off + 8..])
  {
    hide WriteLE64, Shr, Low;
    for i := 0 to 8
      invariant dst[off..off + i] == WriteLE64(v)[..i]
      invariant dst[..off] == old(dst[..off]) && dst[off + 8..] == old(dst[off + 8..])
    {
      WordSizes();
      ShrIsDiv(Shr(v, i * 8), 8);
      StoredByte(v, i);
      dst[off + i] := Shr(v, i * 8) % 0x100;
      assert dst[off..off + i + 1] == dst[off..off + i] + [dst[off + i]];
    }
  }

  /** One round of the derivation: 16 bytes. */
  method ConstSecretRound(secret: array<Byte>, base: Bytes, seed: Word64, i: nat)
    requires secret.Length == |base| && i + 16 <= |base|
    modifies secret
    ensures secret[..i] == old(secret[..i])
    ensures secret[i..i + 16] == WriteLE64(Add64(ReadLE64(base[i..]), seed)) + WriteLE64(Sub64(ReadLE64(base[i + 8..]), seed))
  {
    hide Add64, Sub64, ReadLE64, ConstReadLE64, WriteLE64;
    ConstWriteLE64(secret, i, Add64(ConstReadLE64(base[i..]), seed));
    ghost var first := secret[..i + 8];
    ConstWriteLE64(secret, i + 8, Sub64(ConstReadLE64(base[i + 8..]), seed));
    assert secret[..i + 8] == first;
    assert secret[i..i + 8] == first[i..];
    assert secret[i..i + 16] == secret[i..i + 8] + secret[i + 8..i + 16];
    assert secret[..i] == first[..i];
  }

  method ConstDeriveSecret(secret: array<Byte>, base: Bytes, seed: Word64)
    requires secret.Length == |base| && |base| % 16 == 0
    modifies secret
    ensures secret[..] == SeededRounds(base, seed, |base| / 16)
  {
    hide Add64, Sub64, ReadLE64, WriteLE64;
    var i: nat := 0;
    while i < |base|
      invariant i <= |base| && i % 16 == 0
      invariant secret[..i] == SeededRounds(base, seed, i / 16)
    {
      ConstSecretRound(secret, base, seed, i);
      assert secret[..i + 16] == secret[..i] + secret[i..i + 16];
      i := i + 16;
    }
    assert secret[..] == secret[..|base|];
  }

  // ---- entry points ----

  /** The routine handed to the dispatcher for long inputs: run with a given secret, or derive one. */
  datatype LongInput = Use(secret: Secret) | Derive(seed: Word64)

  function SecretOf(long: LongInput): Secret {
    match long
    case Use(secret) => secret
    case Derive(seed) => CustomSecret(seed)
  }

  /** `XXH3_64bits_internal` */
  method ConstInternal(input: Bytes, seed: Word64, secret: Secret, long: LongInput) returns (h: Word64)
    ensures h == if |input| <= 240 then HashShort(input, secret, seed) else HashLong(SCALAR, SecretOf(long), input)
  {
    hide HashLong, Len0to16, Len17to128, Len129to240, CustomSecret, SeededRounds;
    if |input| <= 16 {
      h := ConstLen0to16(input, secret, seed);
    } else if |input| <= 128 {
      h := Const17to128(input, secret, seed);
    } else if |input| <= 240 {
      h := Const129to240(input, secret, seed);
    } else if long.Use? {
      h := ConstHashLong(input, long.secret);
    } else {
      var derived := new Byte[SECRET_DEFAULT_SIZE];
      KSecretSize();
      ConstDeriveSecret(derived, K_SECRET, long.seed);
      CustomSecretRounds(long.seed);
      h := ConstHashLong(input, derived[..]);
    }
  }

  method ConstXxh3(input: Bytes) returns (h: Word64)
    ensures h == Hash(SCALAR, DEFAULT, input)
  {
    hide HashShort, HashLong;
    h := ConstInternal(input, 0, K_SECRET, Use(K_SECRET));
  }

  method ConstXxh3WithSecret(input: Bytes, secret: Secret) returns (h: Word64)
    ensures h == Hash(SCALAR, WithSecret(secret), input)
  {
    hide HashShort, HashLong;
    h := ConstInternal(input, 0, secret, Use(secret));
  }

  method ConstXxh3WithSeed(input: Bytes, seed: Word64) returns (h: Word64)
    ensures h == Hash(SCALAR, WithSeed(seed), input)
  {
    hide HashShort, HashLong, CustomSecret;
    if seed == 0 {
      SeedZeroIsUnseeded(SCALAR, input);
      h := ConstXxh3(input);
    } else {
      h := ConstInternal(input, seed, K_SECRET, Derive(seed));
    }
  }
}
