/** XXH3, inputs of more than 240 bytes: the stripe run that defines the result and the loops
    that compute it.

    The accumulate and scramble routines are function values, as they are function pointers in
    the repository: everything here holds for every choice of the two. */
module Xxh3Long {
  import opened Arithmetic
  import opened StripeFold
  import opened XxhWords
  import opened Xxh3Mix

  const SECRET_SIZE_MIN: nat := 136

  type Acc = a: seq<Word64> | |a| == 8 witness [0, 0, 0, 0, 0, 0, 0, 0]

  type Secret = s: Bytes | |s| >= SECRET_SIZE_MIN witness seq(136, _ => 0)

  /** The pair of routines a build of the library selects (scalar, SSE2, ...). */
  datatype Kernel = Kernel(acc512: (Acc, Bytes, Bytes) -> Acc, scramble: (Acc, Bytes) -> Acc)

  /** The accumulators together with the number of stripes already taken from the current block. */
  datatype Run = Run(acc: Acc, soFar: nat)

  const INIT_ACC: Acc := [PRIME32_3, PRIME64_1, PRIME64_2, PRIME64_3,
                          PRIME64_4, PRIME32_2, PRIME64_5, PRIME32_1]

  function NbStripesPerBlock(secret: Secret): nat {
    (|secret| - 64) / 8
  }

  function SecretAt(secret: Bytes, off: nat): Bytes {
    if off + 64 <= |secret| then secret[off..off + 64] else []
  }

  /** One stripe: mix it in, and scramble when it is the last stripe of a block. */
  function Step(k: Kernel, secret: Secret, r: Run, stripe: Bytes): Run {
    var a := k.acc512(r.acc, stripe, SecretAt(secret, 8 * r.soFar));
    if r.soFar + 1 == NbStripesPerBlock(secret)
    then Run(k.scramble(a, SecretAt(secret, |secret| - 64)), 0)
    else Run(a, r.soFar + 1)
  }

  function StepFn(k: Kernel, secret: Secret): (Run, Bytes) -> Run {
    (r: Run, stripe: Bytes) => Step(k, secret, r, stripe)
  }

  function Continue(k: Kernel, secret: Secret, r: Run, data: Bytes): Run {
    Fold(StepFn(k, secret), r, 64, data)
  }

  /** The state after whole stripes `data`, from the start of the hash. */
  function Consumed(k: Kernel, secret: Secret, data: Bytes): Run {
    Continue(k, secret, Run(INIT_ACC, 0), data)
  }

  /** All stripes strictly before the last byte are consumed in the ordinary way; the last 64 bytes
      are then mixed in once more with their own piece of the secret. */
  function FinalAcc(k: Kernel, secret: Secret, data: Bytes): Acc
    requires |data| >= 64
  {
    k.acc512(Consumed(k, secret, data[..(|data| - 1) / 64 * 64]).acc,
             data[|data| - 64..],
             SecretAt(secret, |secret| - 64 - 7))
  }

  function HashLong(k: Kernel, secret: Secret, data: Bytes): Word64
    requires |data| >= 64
  {
    MergeAccs(FinalAcc(k, secret, data), secret[11..], LenTimesPrime(|data|))
  }

  // ---- the block position ----

  /** The block counter is the number of consumed stripes modulo the block size, and stays below it. */
  lemma {:induction false} SoFarIsCountModBlock(k: Kernel, secret: Secret, data: Bytes, n: nat)
    requires |data| == n * 64
    ensures Consumed(k, secret, data).soFar == n % NbStripesPerBlock(secret)
  {
    if n > 0 {
      SoFarIsCountModBlock(k, secret, data[..|data| - 64], n - 1);
      ModSucc(n - 1, NbStripesPerBlock(secret));
    }
  }

  lemma ModSucc(n: nat, m: nat)
    requires m > 0
    ensures (n + 1) % m == if n % m + 1 == m then 0 else n % m + 1
  {
    var q, r := n / m, n % m;
    assert n == q * m + r;
    if r + 1 == m {
      assert n + 1 == (q + 1) * m;
      DivModUnique(n + 1, m, q + 1, 0);
    } else {
      DivModUnique(n + 1, m, q, r + 1);
    }
  }

  // ---- accumulating a run of stripes inside one block ----

  /** `XXH3_accumulate`: consecutive stripes against consecutive 8-byte shifts of the secret. */
  function AccumulateFn(k: Kernel, acc: Acc, input: Bytes, secret: Bytes, n: nat): Acc
    requires |input| >= n * 64
  {
    if n == 0 then acc
    else k.acc512(AccumulateFn(k, acc, input, secret, n - 1),
                  input[(n - 1) * 64..n * 64],
                  SecretAt(secret, (n - 1) * 8))
  }

  /** Within a block, accumulating is exactly a stretch of the run; at the block end the run has
      scrambled as well. */
  lemma {:induction false} AccumulateIsContinue(k: Kernel, secret: Secret, r: Run, input: Bytes, n: nat)
    requires |input| >= n * 64
    requires r.soFar < NbStripesPerBlock(secret) && r.soFar + n <= NbStripesPerBlock(secret)
    ensures var a := AccumulateFn(k, r.acc, input, secret[8 * r.soFar..], n);
            Continue(k, secret, r, input[..n * 64]) ==
            if r.soFar + n < NbStripesPerBlock(secret) then Run(a, r.soFar + n)
            else Run(k.scramble(a, SecretAt(secret, |secret| - 64)), 0)
  {
    if n > 0 {
      AccumulateIsContinue(k, secret, r, input, n - 1);
      var data := input[..n * 64];
      hide SecretAt;
      assert data[..|data| - 64] == input[..(n - 1) * 64];
      assert data[|data| - 64..] == input[(n - 1) * 64..n * 64];
      var off := 8 * r.soFar;
      ShiftedSecret(secret, off, (n - 1) * 8);
    }
  }

  lemma ShiftedSecret(secret: Bytes, shift: nat, off: nat)
    requires shift <= |secret|
    ensures SecretAt(secret[shift..], off) == SecretAt(secret, shift + off)
  {
  }

  method Accumulate(k: Kernel, acc: Acc, input: Bytes, secret: Bytes, nbStripes: nat) returns (res: Acc)
    requires |input| >= nbStripes * 64
    requires nbStripes > 0 ==> (nbStripes - 1) * 8 + 64 <= |secret|
    ensures res == AccumulateFn(k, acc, input, secret, nbStripes)
  {
    res := acc;
    for n := 0 to nbStripes
      invariant res == AccumulateFn(k, acc, input, secret, n)
    {
      var ins := input[n * 64..];
      assert ins[..64] == input[n * 64..(n + 1) * 64];
      var off := n * 8;
      res := k.acc512(res, ins[..64], secret[off..off + 64]);
    }
  }

  /** Two consecutive stretches of whole stripes. */
  lemma ContinueTwice(k: Kernel, secret: Secret, r: Run, data: Bytes, m: nat, n: nat)
    requires |data| >= (m + n) * 64
    ensures Continue(k, secret, r, data[..(m + n) * 64])
         == Continue(k, secret, Continue(k, secret, r, data[..m * 64]),
                     data[m * 64..][..n * 64])
  {
    var a, b := data[..m * 64], data[m * 64..][..n * 64];
    assert data[..(m + n) * 64] == a + b;
    FoldAppend(StepFn(k, secret), r, 64, a, b, n);
  }

  /** `XXH3_consumeStripes`: at most one block of stripes, starting anywhere inside a block. */
  method ConsumeStripes(k: Kernel, acc: Acc, nbStripesSoFar: nat, nbStripesPerBlock: nat,
                        input: Bytes, nbStripes: nat, secret: Secret, secretLimit: nat)
    returns (acc': Acc, soFar': nat)
    requires nbStripesPerBlock == NbStripesPerBlock(secret) && secretLimit == |secret| - 64
    requires nbStripes <= nbStripesPerBlock && nbStripesSoFar < nbStripesPerBlock
    requires |input| >= nbStripes * 64
    ensures Run(acc', soFar')
         == Continue(k, secret, Run(acc, nbStripesSoFar), input[..nbStripes * 64])
    ensures soFar' < nbStripesPerBlock
  {
    hide Continue;
    ghost var r := Run(acc, nbStripesSoFar);
    if nbStripesPerBlock - nbStripesSoFar <= nbStripes {
      var toEnd := nbStripesPerBlock - nbStripesSoFar;
      var afterBlock := nbStripes - toEnd;
      acc' := Accumulate(k, acc, input, secret[nbStripesSoFar * 8..], toEnd);
      acc' := k.scramble(acc', secret[secretLimit..secretLimit + 64]);
      AccumulateIsContinue(k, secret, r, input, toEnd);
      ContinueTwice(k, secret, r, input, toEnd, afterBlock);
      AccumulateIsContinue(k, secret, Run(acc', 0), input[toEnd * 64..], afterBlock);
      acc' := Accumulate(k, acc', input[toEnd * 64..], secret, afterBlock);
      soFar' := afterBlock;
    } else {
      AccumulateIsContinue(k, secret, r, input, nbStripes);
      acc' := Accumulate(k, acc, input, secret[nbStripesSoFar * 8..], nbStripes);
      soFar' := nbStripesSoFar + nbStripes;
    }
  }

  // ---- the one-shot loop ----

  /** Counting stripes block by block and then singly gives the plain stripe count. */
  lemma BlocksAndStripes(n: nat, perBlock: nat)
    requires perBlock > 0
    ensures var blockLen := 64 * perBlock;
            var blocks := n / blockLen;
            && blocks * blockLen <= n
            && var rest := (n - blockLen * blocks) / 64;
            && rest < perBlock && n / 64 == blocks * perBlock + rest
  {
    var blockLen := 64 * perBlock;
    var blocks, left := n / blockLen, n % blockLen;
    assert n == blocks * blockLen + left;
    var rest, bytes := left / 64, left % 64;
    assert blocks * blockLen == 64 * (blocks * perBlock);
    DivModUnique(n, 64, blocks * perBlock + rest, bytes);
  }

  /** A whole block, from a block start to the next one. */
  method ConsumeBlock(k: Kernel, acc: Acc, input: Bytes, secret: Secret) returns (acc': Acc)
    requires |input| >= NbStripesPerBlock(secret) * 64
    ensures Run(acc', 0) == Continue(k, secret, Run(acc, 0), input[..NbStripesPerBlock(secret) * 64])
  {
    var nbStripesPerBlock := (|secret| - 64) / 8;
    hide Continue;
    AccumulateIsContinue(k, secret, Run(acc, 0), input, nbStripesPerBlock);
    assert secret[8 * Run(acc, 0).soFar..] == secret;
    acc' := Accumulate(k, acc, input, secret, nbStripesPerBlock);
    assert SecretAt(secret, |secret| - 64) == secret[|secret| - 64..];
    acc' := k.scramble(acc', secret[|secret| - 64..]);
  }

  /** `XXH3_hashLong_internal_loop`. */
  method HashLongLoop(k: Kernel, input: Bytes, secret: Secret) returns (acc: Acc)
    requires |input| > 64
    ensures acc == FinalAcc(k, secret, input)
  {
    hide Continue, FinalAcc;
    acc := INIT_ACC;
    var nbStripesPerBlock := NbStripesPerBlock(secret);
    assert nbStripesPerBlock > 0;
    hide NbStripesPerBlock;
    var blockLen := 64 * nbStripesPerBlock;
    var nbBlocks := (|input| - 1) / blockLen;
    BlocksAndStripes(|input| - 1, nbStripesPerBlock);
    NothingConsumed(k, secret, Run(INIT_ACC, 0), input);
    ghost var stripes := 0;
    for n := 0 to nbBlocks
      invariant stripes == n * nbStripesPerBlock && n * blockLen == stripes * 64
      invariant Run(acc, 0) == Consumed(k, secret, input[..stripes * 64])
    {
      OneMoreBlock(n, nbBlocks, nbStripesPerBlock);
      ContinueTwice(k, secret, Run(INIT_ACC, 0), input, stripes, nbStripesPerBlock);
      acc := ConsumeBlock(k, acc, input[n * blockLen..], secret);
      stripes := stripes + nbStripesPerBlock;
    }
    acc := HashLongTail(k, acc, input, secret, nbBlocks, blockLen);
  }

  /** The last partial block and the last stripe. */
  method HashLongTail(k: Kernel, acc: Acc, input: Bytes, secret: Secret, nbBlocks: nat, blockLen: nat)
    returns (acc': Acc)
    requires |input| > 64 && blockLen == 64 * NbStripesPerBlock(secret)
    requires nbBlocks == (|input| - 1) / blockLen
    requires nbBlocks * blockLen < |input|
    requires Run(acc, 0) == Consumed(k, secret, input[..nbBlocks * blockLen])
    ensures acc' == FinalAcc(k, secret, input)
  {
    hide Continue;
    ghost var perBlock := NbStripesPerBlock(secret);
    BlocksAndStripes(|input| - 1, perBlock);
    assert nbBlocks * blockLen == nbBlocks * perBlock * 64;
    var nbStripes := (|input| - 1 - blockLen * nbBlocks) / 64;
    ContinueTwice(k, secret, Run(INIT_ACC, 0), input, nbBlocks * perBlock, nbStripes);
    AccumulateIsContinue(k, secret, Run(acc, 0), input[nbBlocks * blockLen..], nbStripes);
    acc' := Accumulate(k, acc, input[nbBlocks * blockLen..], secret, nbStripes);
    var last := |secret| - 64 - 7;
    acc' := k.acc512(acc', input[|input| - 64..], secret[last..last + 64]);
  }

  lemma NothingConsumed(k: Kernel, secret: Secret, r: Run, data: Bytes)
    ensures Continue(k, secret, r, data[..0]) == r
  {
  }

  lemma OneMoreBlock(n: nat, blocks: nat, perBlock: nat)
    requires n < blocks
    ensures (n + 1) * perBlock == n * perBlock + perBlock
    ensures n * (64 * perBlock) == n * perBlock * 64
    ensures (n + 1) * (64 * perBlock) == (n * perBlock + perBlock) * 64
    ensures (n * perBlock + perBlock) * 64 <= blocks * (64 * perBlock)
  {
    Times64(n, perBlock);
    Times64(n + 1, perBlock);
    Times64(blocks, perBlock);
    assert (blocks - n - 1) * perBlock >= 0;
  }

  lemma Times64(n: nat, m: nat)
    ensures n * (64 * m) == n * m * 64
  {
  }

  method ComputeHashLong(k: Kernel, input: Bytes, secret: Secret) returns (h: Word64)
    requires |input| > 64
    ensures h == HashLong(k, secret, input)
  {
    hide MergeAccs, FinalAcc, LenTimesPrime;
    var acc := HashLongLoop(k, input, secret);
    h := ComputeMergeAccs(acc, secret[11..], LenTimesPrime(|input|));
  }

  /** Consuming a long stretch of input from anywhere inside a block, keeping at least one byte:
      to the end of the current block, then block by block, then the stripes that remain. */
  method ConsumeByBlock(k: Kernel, acc: Acc, nbStripesSoFar: nat, nbStripesPerBlock: nat, input: Bytes, secret: Secret)
    returns (acc': Acc, soFar': nat, n: nat)
    requires nbStripesPerBlock == NbStripesPerBlock(secret) && nbStripesSoFar < nbStripesPerBlock
    requires |input| > nbStripesPerBlock * 64
    ensures n == (|input| - 1) / 64 > 0
    ensures Run(acc', soFar') == Continue(k, secret, Run(acc, nbStripesSoFar), input[..n * 64])
    ensures soFar' < nbStripesPerBlock
  {
    hide Continue;
    ghost var r := Run(acc, nbStripesSoFar);
    var nbStripes: int := (|input| - 1) / 64;
    n := nbStripes;
    var toEnd := nbStripesPerBlock - nbStripesSoFar;
    AccumulateIsContinue(k, secret, r, input, toEnd);
    acc' := Accumulate(k, acc, input, secret[nbStripesSoFar * 8..], toEnd);
    assert SecretAt(secret, |secret| - 64) == secret[|secret| - 64..];
    acc' := k.scramble(acc', secret[|secret| - 64..]);
    nbStripes := nbStripes - toEnd;
    ghost var done := toEnd;
    var rest := input[toEnd * 64..];
    while nbStripes >= nbStripesPerBlock
      invariant 0 <= nbStripes && done + nbStripes == n && rest == input[done * 64..]
      invariant Run(acc', 0) == Continue(k, secret, r, input[..done * 64])
    {
      ContinueTwice(k, secret, r, input, done, nbStripesPerBlock);
      acc' := ConsumeBlock(k, acc', rest, secret);
      rest := rest[nbStripesPerBlock * 64..];
      nbStripes := nbStripes - nbStripesPerBlock;
      done := done + nbStripesPerBlock;
    }
    ContinueTwice(k, secret, r, input, done, nbStripes);
    AccumulateIsContinue(k, secret, Run(acc', 0), rest, nbStripes);
    assert secret[8 * Run(acc', 0).soFar..] == secret;
    acc' := Accumulate(k, acc', rest, secret, nbStripes);
    soFar' := nbStripes;
  }

  /** Consuming at most one block of input, four stripes at a time, keeping at least one byte. */
  method ConsumeByBuffer(k: Kernel, acc: Acc, nbStripesSoFar: nat, nbStripesPerBlock: nat, input: Bytes,
                         secret: Secret, secretLimit: nat)
    returns (acc': Acc, soFar': nat, n: nat)
    requires nbStripesPerBlock == NbStripesPerBlock(secret) && secretLimit == |secret| - 64
    requires nbStripesSoFar < nbStripesPerBlock && |input| > 256
    ensures n > 0 && n * 64 < |input| <= n * 64 + 256
    ensures Run(acc', soFar') == Continue(k, secret, Run(acc, nbStripesSoFar), input[..n * 64])
    ensures soFar' < nbStripesPerBlock
  {
    hide Continue;
    ghost var r := Run(acc, nbStripesSoFar);
    NothingConsumed(k, secret, r, input);
    acc', soFar', n := acc, nbStripesSoFar, 0;
    while n == 0 || n * 64 < |input| - 256
      invariant n * 64 < |input|
      invariant soFar' < nbStripesPerBlock
      invariant Run(acc', soFar') == Continue(k, secret, r, input[..n * 64])
      decreases |input| - n * 64
    {
      ContinueTwice(k, secret, r, input, n, 4);
      acc', soFar' := ConsumeStripes(k, acc', soFar', nbStripesPerBlock, input[n * 64..], 4, secret, secretLimit);
      n := n + 4;
    }
  }
}
