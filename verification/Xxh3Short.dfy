/** XXH3, inputs of at most 240 bytes: one formula per length class, and the loops and nested
    conditionals that evaluate the two larger classes. */
module Xxh3Short {
  import opened StripeFold
  import opened XxhWords
  import opened Xxh3Mix
  import opened Xxh3Long

  // ---- 0 to 16 bytes ----

  /** The bytes of a 1 to 3 byte input, and its length, laid out in one word. */
  function Combined(input: Bytes): Word32
    requires 1 <= |input| <= 3
  {
    Bytes4(input[|input| - 1], |input|, input[0], input[|input| / 2])
  }

  function Len1to3(input: Bytes, secret: Secret, seed: Word64): Word64
    requires 1 <= |input| <= 3
  {
    var bitflip := Add64(Xor32(ReadLE32(secret), ReadLE32(secret[4..])), seed);
    Xxh64Avalanche(Xor64(Combined(input), bitflip))
  }

  /** The last four bytes below the first four: together they cover 4 to 8 bytes. */
  function Input64(input: Bytes): Word64
    requires 4 <= |input| <= 8
  {
    ReadLE32(input[|input| - 4..]) + ReadLE32(input) * 0x1_0000_0000
  }

  function Len4to8(input: Bytes, secret: Secret, seed: Word64): Word64
    requires 4 <= |input| <= 8
  {
    var seed' := Xor64(seed, Swap32(Trunc32(seed)) * 0x1_0000_0000);
    var bitflip := Sub64(Xor64(ReadLE64(secret[8..]), ReadLE64(secret[16..])), seed');
    Rrmxmx(Xor64(Input64(input), bitflip), |input|)
  }

  function Len9to16(input: Bytes, secret: Secret, seed: Word64): Word64
    requires 9 <= |input| <= 16
  {
    var bitflip1 := Add64(Xor64(ReadLE64(secret[24..]), ReadLE64(secret[32..])), seed);
    var bitflip2 := Sub64(Xor64(ReadLE64(secret[40..]), ReadLE64(secret[48..])), seed);
    var lo := Xor64(ReadLE64(input), bitflip1);
    var hi := Xor64(ReadLE64(input[|input| - 8..]), bitflip2);
    Xxh3Avalanche(Add64(Add64(Add64(|input|, Swap64(lo)), hi), Mul128Fold64(lo, hi)))
  }

  function Len0to16(input: Bytes, secret: Secret, seed: Word64): Word64
    requires |input| <= 16
  {
    if |input| > 8 then Len9to16(input, secret, seed)
    else if |input| >= 4 then Len4to8(input, secret, seed)
    else if |input| > 0 then Len1to3(input, secret, seed)
    else Xxh64Avalanche(Xor64(seed, Xor64(ReadLE64(secret[56..]), ReadLE64(secret[64..]))))
  }

  // ---- 17 to 128 bytes ----

  /** The i-th 16-byte chunk from the front and from the back, each with its piece of secret. */
  function FrontMix(input: Bytes, secret: Secret, seed: Word64, i: nat): Word64
    requires i < 4 && |input| >= 16 * (i + 1)
  {
    Mix16B(input[16 * i..], secret[32 * i..], seed)
  }

  function BackMix(input: Bytes, secret: Secret, seed: Word64, i: nat): Word64
    requires i < 4 && |input| >= 16 * (i + 1)
  {
    Mix16B(input[|input| - 16 * (i + 1)..], secret[32 * i + 16..], seed)
  }

  /** `n` chunks from either end, outermost first. */
  function PairSum(input: Bytes, secret: Secret, seed: Word64, start: Word64, n: nat): Word64
    requires n <= 4 && |input| >= 16 * n
  {
    if n == 0 then start
    else Add64(Add64(PairSum(input, secret, seed, start, n - 1), FrontMix(input, secret, seed, n - 1)),
               BackMix(input, secret, seed, n - 1))
  }

  function NbPairs(len: nat): nat {
    (len + 31) / 32
  }

  function Len17to128(input: Bytes, secret: Secret, seed: Word64): Word64
    requires 16 < |input| <= 128
  {
    Xxh3Avalanche(PairSum(input, secret, seed, LenTimesPrime(|input|), NbPairs(|input|)))
  }

  /** Terms may be added before or after the outer pairs: the sum does not depend on the order. */
  lemma {:induction false} PairSumStart(input: Bytes, secret: Secret, seed: Word64, start: Word64, x: Word64, n: nat)
    requires n <= 4 && |input| >= 16 * n
    ensures PairSum(input, secret, seed, Add64(start, x), n) == Add64(PairSum(input, secret, seed, start, n), x)
  {
    hide Add64, FrontMix, BackMix;
    if n > 0 {
      PairSumStart(input, secret, seed, start, x, n - 1);
      var s := PairSum(input, secret, seed, start, n - 1);
      var f, b := FrontMix(input, secret, seed, n - 1), BackMix(input, secret, seed, n - 1);
      AddSwap(s, x, f);
      AddSwap(Add64(s, f), x, b);
    }
  }

  /** Adding the innermost pair first and then the remaining ones gives the same sum. */
  lemma InnermostFirst(input: Bytes, secret: Secret, seed: Word64, start: Word64, n: nat)
    requires 0 < n <= 4 && |input| >= 16 * n
    ensures var s := Add64(Add64(start, FrontMix(input, secret, seed, n - 1)), BackMix(input, secret, seed, n - 1));
            PairSum(input, secret, seed, s, n - 1) == PairSum(input, secret, seed, start, n)
  {
    hide Add64, FrontMix, BackMix;
    var f, b := FrontMix(input, secret, seed, n - 1), BackMix(input, secret, seed, n - 1);
    PairSumStart(input, secret, seed, start, f, n - 1);
    PairSumStart(input, secret, seed, Add64(start, f), b, n - 1);
  }

  method AddPair(acc: Word64, input: Bytes, secret: Secret, seed: Word64, i: nat) returns (acc': Word64)
    requires i < 4 && |input| >= 16 * (i + 1)
    ensures PairSum(input, secret, seed, acc', i) == PairSum(input, secret, seed, acc, i + 1)
  {
    hide Add64, Mix16B, PairSum;
    acc' := Add64(acc, Mix16B(input[16 * i..], secret[32 * i..], seed));
    acc' := Add64(acc', Mix16B(input[|input| - 16 * (i + 1)..], secret[32 * i + 16..], seed));
    InnermostFirst(input, secret, seed, acc, i + 1);
  }

  /** The nested conditionals of the speed-optimised build. */
  method ComputeLen17to128(input: Bytes, secret: Secret, seed: Word64) returns (h: Word64)
    requires 16 < |input| <= 128
    ensures h == Len17to128(input, secret, seed)
  {
    hide Xxh3Avalanche, LenTimesPrime, Add64, FrontMix, BackMix;
    var acc := LenTimesPrime(|input|);
    if |input| > 32 {
      if |input| > 64 {
        if |input| > 96 {
          acc := AddPair(acc, input, secret, seed, 3);
        }
        acc := AddPair(acc, input, secret, seed, 2);
      }
      acc := AddPair(acc, input, secret, seed, 1);
    }
    acc := AddPair(acc, input, secret, seed, 0);
    h := Xxh3Avalanche(acc);
  }

  /** The counted-down loop of the size-optimised build. */
  method ComputeLen17to128SizeOpt(input: Bytes, secret: Secret, seed: Word64) returns (h: Word64)
    requires 16 < |input| <= 128
    ensures h == Len17to128(input, secret, seed)
  {
    hide Xxh3Avalanche, LenTimesPrime, Add64, FrontMix, BackMix;
    var acc := LenTimesPrime(|input|);
    ghost var start := acc;
    var i := (|input| - 1) / 32;
    while true
      invariant 0 <= i < 4 && |input| >= 16 * (i + 1)
      invariant PairSum(input, secret, seed, acc, i + 1) == PairSum(input, secret, seed, start, NbPairs(|input|))
      decreases i
    {
      acc := AddPair(acc, input, secret, seed, i);
      if i == 0 {
        break;
      }
      i := i - 1;
    }
    h := Xxh3Avalanche(acc);
  }

  // ---- 129 to 240 bytes ----

  /** `n` consecutive 16-byte chunks of the input, with secret taken from its start. */
  function ChunkSum(input: Bytes, secret: Bytes, seed: Word64, start: Word64, n: nat): Word64
    requires |input| >= 16 * n && |secret| >= 16 * n
  {
    if n == 0 then start
    else Add64(ChunkSum(input, secret, seed, start, n - 1),
               Mix16B(input[16 * (n - 1)..], secret[16 * (n - 1)..], seed))
  }

  function Len129to240(input: Bytes, secret: Secret, seed: Word64): Word64
    requires 128 < |input| <= 240
  {
    var acc := Xxh3Avalanche(ChunkSum(input, secret, seed, LenTimesPrime(|input|), 8));
    var acc' := ChunkSum(input[128..], secret[3..], seed, acc, |input| / 16 - 8);
    Xxh3Avalanche(Add64(acc', Mix16B(input[|input| - 16..], secret[SECRET_SIZE_MIN - 17..], seed)))
  }

  method ComputeLen129to240(input: Bytes, secret: Secret, seed: Word64) returns (h: Word64)
    requires 128 < |input| <= 240
    ensures h == Len129to240(input, secret, seed)
  {
    hide Add64, Mix16B, Xxh3Avalanche, LenTimesPrime;
    var acc := LenTimesPrime(|input|);
    var nbRounds := |input| / 16;
    for i := 0 to 8
      invariant acc == ChunkSum(input, secret, seed, LenTimesPrime(|input|), i)
    {
      acc := Add64(acc, Mix16B(input[16 * i..], secret[16 * i..], seed));
    }
    acc := Xxh3Avalanche(acc);
    ghost var mid := acc;
    for i := 8 to nbRounds
      invariant acc == ChunkSum(input[128..], secret[3..], seed, mid, i - 8)
    {
      assert input[16 * i..] == input[128..][16 * (i - 8)..];
      assert secret[16 * (i - 8) + 3..] == secret[3..][16 * (i - 8)..];
      acc := Add64(acc, Mix16B(input[16 * i..], secret[16 * (i - 8) + 3..], seed));
    }
    acc := Add64(acc, Mix16B(input[|input| - 16..], secret[SECRET_SIZE_MIN - 17..], seed));
    h := Xxh3Avalanche(acc);
  }

  // ---- all short inputs ----

  const MIDSIZE_MAX: nat := 240

  function HashShort(input: Bytes, secret: Secret, seed: Word64): Word64
    requires |input| <= MIDSIZE_MAX
  {
    if |input| <= 16 then Len0to16(input, secret, seed)
    else if |input| <= 128 then Len17to128(input, secret, seed)
    else Len129to240(input, secret, seed)
  }
}
