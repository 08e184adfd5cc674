/** The one-shot entry points of 64-bit XXH3 and the secret derived from a seed. */
module Xxh3OneShot {
  import opened StripeFold
  import opened XxhWords
  import opened Xxh3Mix
  import opened Xxh3Long
  import opened Xxh3Short

  const SECRET_DEFAULT_SIZE: nat := 192

  const K_SECRET_0: Bytes := [
    0xb8, 0xfe, 0x6c, 0x39, 0x23, 0xa4, 0x4b, 0xbe, 0x7c, 0x01, 0x81, 0x2c, 0xf7, 0x21, 0xad, 0x1c,
    0xde, 0xd4, 0x6d, 0xe9, 0x83, 0x90, 0x97, 0xdb, 0x72, 0x40, 0xa4, 0xa4, 0xb7, 0xb3, 0x67, 0x1f]
  const K_SECRET_1: Bytes := [
    0xcb, 0x79, 0xe6, 0x4e, 0xcc, 0xc0, 0xe5, 0x78, 0x82, 0x5a, 0xd0, 0x7d, 0xcc, 0xff, 0x72, 0x21,
    0xb8, 0x08, 0x46, 0x74, 0xf7, 0x43, 0x24, 0x8e, 0xe0, 0x35, 0x90, 0xe6, 0x81, 0x3a, 0x26, 0x4c]
  const K_SECRET_2: Bytes := [
    0x3c, 0x28, 0x52, 0xbb, 0x91, 0xc3, 0x00, 0xcb, 0x88, 0xd0, 0x65, 0x8b, 0x1b, 0x53, 0x2e, 0xa3,
    0x71, 0x64, 0x48, 0x97, 0xa2, 0x0d, 0xf9, 0x4e, 0x38, 0x19, 0xef, 0x46, 0xa9, 0xde, 0xac, 0xd8]
  const K_SECRET_3: Bytes := [
    0xa8, 0xfa, 0x76, 0x3f, 0xe3, 0x9c, 0x34, 0x3f, 0xf9, 0xdc, 0xbb, 0xc7, 0xc7, 0x0b, 0x4f, 0x1d,
    0x8a, 0x51, 0xe0, 0x4b, 0xcd, 0xb4, 0x59, 0x31, 0xc8, 0x9f, 0x7e, 0xc9, 0xd9, 0x78, 0x73, 0x64]
  const K_SECRET_4: Bytes := [
    0xea, 0xc5, 0xac, 0x83, 0x34, 0xd3, 0xeb, 0xc3, 0xc5, 0x81, 0xa0, 0xff, 0xfa, 0x13, 0x63, 0xeb,
    0x17, 0x0d, 0xdd, 0x51, 0xb7, 0xf0, 0xda, 0x49, 0xd3, 0x16, 0x55, 0x26, 0x29, 0xd4, 0x68, 0x9e]
  const K_SECRET_5: Bytes := [
    0x2b, 0x16, 0xbe, 0x58, 0x7d, 0x47, 0xa1, 0xfc, 0x8f, 0xf8, 0xb8, 0xd1, 0x7a, 0xd0, 0x31, 0xce,
    0x45, 0xcb, 0x3a, 0x8f, 0x95, 0x16, 0x04, 0x28, 0xaf, 0xd7, 0xfb, 0xca, 0xbb, 0x4b, 0x40, 0x7e]

  /** The default secret. */
  const K_SECRET: Secret := K_SECRET_0 + K_SECRET_1 + K_SECRET_2 + K_SECRET_3 + K_SECRET_4 + K_SECRET_5

  lemma KSecretSize()
    ensures |K_SECRET| == SECRET_DEFAULT_SIZE
  {
  }

  /** The first `n` 16-byte rounds of the secret derived from `seed`. */
  function SeededRounds(base: Bytes, seed: Word64, n: nat): (s: Bytes)
    requires |base| >= 16 * n
    ensures |s| == 16 * n
  {
    if n == 0 then []
    else
      SeededRounds(base, seed, n - 1)
      + (WriteLE64(Add64(ReadLE64(base[16 * (n - 1)..]), seed))
         + WriteLE64(Sub64(ReadLE64(base[16 * (n - 1) + 8..]), seed)))
  }

  function CustomSecret(seed: Word64): Secret {
    KSecretSize();
    SeededRounds(K_SECRET, seed, 12)
  }

  lemma CustomSecretRounds(seed: Word64)
    ensures |K_SECRET| == SECRET_DEFAULT_SIZE
    ensures CustomSecret(seed) == SeededRounds(K_SECRET, seed, |K_SECRET| / 16)
  {
    hide SeededRounds;
    KSecretSize();
  }

  /** Seed 0 derives the base secret itself. */
  lemma {:induction false} ZeroSeedRounds(base: Bytes, n: nat)
    requires |base| >= 16 * n
    ensures SeededRounds(base, 0, n) == base[..16 * n]
  {
    hide WriteLE64, ReadLE64;
    if n > 0 {
      var off := 16 * (n - 1);
      ZeroSeedRounds(base, n - 1);
      WriteRead64(base[off..]);
      WriteRead64(base[off + 8..]);
      assert base[..off + 16] == base[..off] + (base[off..][..8] + base[off + 8..][..8]);
    }
  }

  lemma ZeroSeedSecret()
    ensures CustomSecret(0) == K_SECRET
  {
    hide SeededRounds;
    KSecretSize();
    ZeroSeedRounds(K_SECRET, 12);
    assert K_SECRET[..192] == K_SECRET;
  }

  /** The words of a derived secret: the seed is added to every even one and subtracted from every odd one. */
  lemma {:induction false} DerivedWords(base: Bytes, seed: Word64, n: nat, j: nat)
    requires |base| >= 16 * n && j < n
    ensures var s := SeededRounds(base, seed, n);
            && ReadLE64(s[16 * j..]) == Add64(ReadLE64(base[16 * j..]), seed)
            && ReadLE64(s[16 * j + 8..]) == Sub64(ReadLE64(base[16 * j + 8..]), seed)
  {
    hide WriteLE64, ReadLE64, Add64, Sub64;
    var s, front := SeededRounds(base, seed, n), SeededRounds(base, seed, n - 1);
    if j < n - 1 {
      DerivedWords(base, seed, n - 1, j);
      SameRead(s, 16 * j, front, 16 * j);
      SameRead(s, 16 * j + 8, front, 16 * j + 8);
    } else {
      var lo, hi := Add64(ReadLE64(base[16 * j..]), seed), Sub64(ReadLE64(base[16 * j + 8..]), seed);
      ReadWrite64(lo);
      ReadWrite64(hi);
      assert s[16 * j..] == WriteLE64(lo) + WriteLE64(hi);
      ReadsEight(s[16 * j..]);
      assert s[16 * j..][..8] == WriteLE64(lo) && s[16 * j + 8..] == WriteLE64(hi);
    }
  }

  lemma NoSeed(w: Word64)
    ensures Add64(w, 0) == w && Sub64(w, 0) == w
  {
  }

  /** Mixing with a seed is mixing with the secret derived from it. */
  lemma MixSeeded(chunk: Bytes, seed: Word64, j: nat)
    requires |chunk| >= 16 && j < 12
    ensures |K_SECRET| == |CustomSecret(seed)| == SECRET_DEFAULT_SIZE
    ensures Mix16B(chunk, K_SECRET[16 * j..], seed) == Mix16B(chunk, CustomSecret(seed)[16 * j..], 0)
  {
    hide ReadLE64, SeededRounds, Mul128Fold64, Xor64, Add64, Sub64;
    KSecretSize();
    DerivedWords(K_SECRET, seed, 12, j);
    NoSeed(ReadLE64(CustomSecret(seed)[16 * j..]));
    NoSeed(ReadLE64(CustomSecret(seed)[16 * j + 8..]));
    assert K_SECRET[16 * j..][8..] == K_SECRET[16 * j + 8..];
    assert CustomSecret(seed)[16 * j..][8..] == CustomSecret(seed)[16 * j + 8..];
  }

  /** For 17 to 128 bytes the seeded hash is the unseeded one with the secret derived from the seed. */
  lemma SeedIsSecret17to128(input: Bytes, seed: Word64)
    requires 16 < |input| <= 128
    ensures HashShort(input, K_SECRET, seed) == HashShort(input, CustomSecret(seed), 0)
  {
    hide CustomSecret, PairSum, Xxh3Avalanche;
    PairsSeeded(input, seed, LenTimesPrime(|input|), NbPairs(|input|));
  }

  lemma {:induction false} PairsSeeded(input: Bytes, seed: Word64, start: Word64, n: nat)
    requires n <= 4 && |input| >= 16 * n
    ensures PairSum(input, K_SECRET, seed, start, n) == PairSum(input, CustomSecret(seed), 0, start, n)
  {
    hide CustomSecret, Mix16B, Add64;
    if n > 0 {
      PairsSeeded(input, seed, start, n - 1);
      MixSeeded(input[16 * (n - 1)..], seed, 2 * (n - 1));
      MixSeeded(input[|input| - 16 * n..], seed, 2 * (n - 1) + 1);
    }
  }

  /** `XXH3_initCustomSecret`: fills a buffer from a base secret, round by round. */
  method InitCustomSecret(customSecret: array<Byte>, base: Bytes, seed: Word64)
    requires customSecret.Length == |base| && |base| % 16 == 0
    modifies customSecret
    ensures customSecret[..] == SeededRounds(base, seed, |base| / 16)
  {
    hide Add64, Sub64, ReadLE64, WriteLE64;
    for i := 0 to |base| / 16
      invariant customSecret[..16 * i] == SeededRounds(base, seed, i)
    {
      var lo := Add64(ReadLE64(base[16 * i..]), seed);
      var hi := Sub64(ReadLE64(base[16 * i + 8..]), seed);
      StoreLE64(customSecret, 16 * i, lo);
      ghost var first := customSecret[..16 * i + 8];
      StoreLE64(customSecret, 16 * i + 8, hi);
      assert customSecret[..16 * i + 8] == first;
      assert customSecret[..16 * (i + 1)] == first + customSecret[16 * i + 8..16 * i + 16];
    }
    assert customSecret[..] == customSecret[..|base|];
  }

  method StoreLE64(dst: array<Byte>, off: nat, v: Word64)
    requires off + 8 <= dst.Length
    modifies dst
    ensures dst[off..off + 8] == WriteLE64(v)
    ensures dst[..off] == old(dst[..off]) && dst[off + 8..] == old(dst[off + 8..])
  {
    hide WriteLE32;
    var p := WriteLE64(v);
    forall i | 0 <= i < 8 {
      dst[off + i] := p[i];
    }
  }

  // ---- the hash of an input, by mode ----

  datatype Mode =
    | WithSecret(secret: Secret)
    | WithSeed(seed: Word64)
    | WithSecretAndSeed(secret: Secret, seed: Word64)

  const DEFAULT: Mode := WithSecret(K_SECRET)

  /** What inputs of up to 240 bytes are mixed with. */
  function ShortSecret(mode: Mode): Secret {
    if mode.WithSecret? then mode.secret else K_SECRET
  }

  function ShortSeed(mode: Mode): Word64 {
    if mode.WithSecret? then 0 else mode.seed
  }

  /** What longer inputs are mixed with. */
  function LongSecret(mode: Mode): Secret {
    match mode
    case WithSecret(secret) => secret
    case WithSeed(seed) => CustomSecret(seed)
    case WithSecretAndSeed(secret, _) => secret
  }

  function Hash(k: Kernel, mode: Mode, input: Bytes): Word64 {
    if |input| <= MIDSIZE_MAX then HashShort(input, ShortSecret(mode), ShortSeed(mode))
    else HashLong(k, LongSecret(mode), input)
  }

  /** Seed 0 is the unseeded hash, because the secret it derives is the default one. */
  lemma SeedZeroIsUnseeded(k: Kernel, input: Bytes)
    ensures Hash(k, WithSeed(0), input) == Hash(k, DEFAULT, input)
  {
    hide HashShort, HashLong, CustomSecret;
    ZeroSeedSecret();
  }

  // ---- entry points ----

  /** `XXH3_64bits_internal`; the long-input routine is known by the secret it runs with. */
  method HashInternal(k: Kernel, input: Bytes, seed: Word64, secret: Secret, longSecret: Secret) returns (h: Word64)
    ensures h == if |input| <= MIDSIZE_MAX then HashShort(input, secret, seed) else HashLong(k, longSecret, input)
  {
    hide HashLong, Len0to16, Len17to128, Len129to240;
    if |input| <= 16 {
      return Len0to16(input, secret, seed);
    }
    if |input| <= 128 {
      h := ComputeLen17to128(input, secret, seed);
      return;
    }
    if |input| <= MIDSIZE_MAX {
      h := ComputeLen129to240(input, secret, seed);
      return;
    }
    h := ComputeHashLong(k, input, longSecret);
  }

  method Xxh3Hash(k: Kernel, input: Bytes) returns (h: Word64)
    ensures h == Hash(k, DEFAULT, input)
  {
    hide HashShort, HashLong;
    h := HashInternal(k, input, 0, K_SECRET, K_SECRET);
  }

  method Xxh3HashWithSecret(k: Kernel, input: Bytes, secret: Secret) returns (h: Word64)
    ensures h == Hash(k, WithSecret(secret), input)
  {
    hide HashShort, HashLong;
    h := HashInternal(k, input, 0, secret, secret);
  }

  /** `XXH3_hashLong_64b_withSeed`: derives a secret, except for seed 0 in builds that do not
      optimise for size. */
  method ComputeHashLongWithSeed(k: Kernel, input: Bytes, seed: Word64, sizeOpt: bool) returns (h: Word64)
    requires |input| > MIDSIZE_MAX
    ensures h == HashLong(k, CustomSecret(seed), input)
  {
    hide HashLong, CustomSecret, SeededRounds;
    if !sizeOpt && seed == 0 {
      ZeroSeedSecret();
      h := ComputeHashLong(k, input, K_SECRET);
      return;
    }
    var customSecret := new Byte[SECRET_DEFAULT_SIZE];
    KSecretSize();
    InitCustomSecret(customSecret, K_SECRET, seed);
    CustomSecretRounds(seed);
    h := ComputeHashLong(k, input, customSecret[..]);
  }

  /** `XXH3_64bits_withSeed` */
  method Xxh3HashWithSeed(k: Kernel, input: Bytes, seed: Word64, sizeOpt: bool := false) returns (h: Word64)
    ensures h == Hash(k, WithSeed(seed), input)
  {
    hide HashShort, HashLong, CustomSecret;
    if |input| <= MIDSIZE_MAX {
      h := HashInternal(k, input, seed, K_SECRET, K_SECRET);
    } else {
      h := ComputeHashLongWithSeed(k, input, seed, sizeOpt);
    }
  }

  method Xxh3HashWithSecretAndSeed(k: Kernel, input: Bytes, secret: Secret, seed: Word64) returns (h: Word64)
    ensures h == Hash(k, WithSecretAndSeed(secret, seed), input)
  {
    hide HashShort, HashLong;
    if |input| <= MIDSIZE_MAX {
      h := HashInternal(k, input, seed, K_SECRET, K_SECRET);
    } else {
      h := ComputeHashLong(k, input, secret);
    }
  }
}
