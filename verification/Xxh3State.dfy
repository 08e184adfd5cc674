/** The streaming form of 64-bit XXH3.

    A state buffers up to 256 bytes, consumes stripes in bulk, and may be digested at any time.
    Whatever way an input is cut into `Update` calls, `Digest` returns the one-shot hash of all
    bytes fed since the last reset and leaves the state as it was. */
module Xxh3State {
  import opened StripeFold
  import opened XxhWords
  import opened Xxh3Mix
  import opened Xxh3Long
  import opened Xxh3Short
  import opened Xxh3OneShot
  import opened Wrappers

  const INTERNALBUFFER_SIZE: nat := 256

  datatype ErrorCode = OK | ERROR

  class State {
    const kernel: Kernel
    var acc: Acc
    const customSecret: array<Byte>
    const buffer: array<Byte>
    var bufferedSize: nat
    var useSeed: bool
    var nbStripesSoFar: nat
    var totalLen: nat
    var nbStripesPerBlock: nat
    var secretLimit: nat
    var seed: Word64
    var extSecret: Option<Bytes>

    /** The mode of the last reset and the bytes fed since. */
    ghost var mode: Mode
    ghost var fed: Bytes

    ghost predicate Sized()
    {
      buffer.Length == INTERNALBUFFER_SIZE && customSecret.Length == SECRET_DEFAULT_SIZE && buffer != customSecret
    }

    /** A custom secret on record belongs to the seed on record; kept even by failing resets. */
    ghost predicate Allocated()
      reads this, customSecret
    {
      && Sized()
      && (extSecret.None? && seed != 0 ==> customSecret[..] == CustomSecret(seed))
    }

    /** The fields agree with the mode. */
    ghost predicate Configured()
      reads this, customSecret
    {
      && Allocated()
      && ActiveSecret() == LongSecret(mode)
      && secretLimit == |LongSecret(mode)| - 64
      && nbStripesPerBlock == NbStripesPerBlock(LongSecret(mode))
      && useSeed == (mode.WithSecretAndSeed? || (mode.WithSeed? && mode.seed != 0))
      && (useSeed ==> seed == mode.seed)
    }

    function ActiveSecret(): Bytes
      reads this, customSecret
    {
      if extSecret.None? then customSecret[..] else extSecret.value
    }

    /** Everything but the buffered bytes has been consumed, and a short buffer still remembers
        the 64 bytes consumed last. */
    ghost predicate Streaming()
      reads this, customSecret, buffer
    {
      && Configured()
      && bufferedSize <= INTERNALBUFFER_SIZE
      && Buffered(kernel, LongSecret(mode), fed, buffer[..bufferedSize], Run(acc, nbStripesSoFar), buffer[192..])
    }

    ghost predicate Valid()
      reads this, customSecret, buffer
    {
      Streaming() && totalLen == |fed|
    }

    constructor (kernel: Kernel)
      ensures Allocated() && fresh(buffer) && fresh(customSecret) && this.kernel == kernel
    {
      this.kernel := kernel;
      buffer := new Byte[INTERNALBUFFER_SIZE];
      customSecret := new Byte[SECRET_DEFAULT_SIZE];
      seed := 0;
    }

    // ---- reset ----

    /** `XXH3_reset_internal`; the secret size is an unsigned word, so a size below 64 wraps. */
    method ResetInternal(seed: Word64, secret: Option<Bytes>, secretSize: nat)
      requires Sized() && (secret.None? && seed != 0 ==> customSecret[..] == CustomSecret(seed))
      modifies this
      ensures Allocated() && this.seed == seed && extSecret == secret && useSeed == (seed != 0)
      ensures bufferedSize == nbStripesSoFar == totalLen == 0 && acc == INIT_ACC && fed == []
      ensures secretLimit == Trunc64(secretSize - 64) && nbStripesPerBlock == secretLimit / 8
    {
      hide CustomSecret, SeededRounds;
      bufferedSize, useSeed, nbStripesSoFar, totalLen := 0, false, 0, 0;
      acc := INIT_ACC;
      this.seed := seed;
      useSeed := seed != 0;
      extSecret := secret;
      secretLimit := Trunc64(secretSize - 64);
      nbStripesPerBlock := secretLimit / 8;
      fed := [];
    }

    method Reset() returns (err: ErrorCode)
      requires Allocated()
      modifies this
      ensures err == OK && Valid() && mode == DEFAULT && fed == []
    {
      hide CustomSecret, SeededRounds;
      KSecretSize();
      ResetInternal(0, Some(K_SECRET), SECRET_DEFAULT_SIZE);
      mode := DEFAULT;
      err := OK;
    }

    method ResetWithSecret(secret: Option<Bytes>, secretSize: nat) returns (err: ErrorCode)
      requires Allocated() && secretSize < 0x1_0000_0000_0000_0000
      requires secret.Some? ==> |secret.value| == secretSize
      modifies this
      ensures Allocated() && (err == OK <==> secret.Some? && secretSize >= SECRET_SIZE_MIN)
      ensures err == OK ==> Valid() && mode == WithSecret(secret.value)
      ensures fed == [] && totalLen == bufferedSize == 0 && acc == INIT_ACC && seed == 0 && extSecret == secret
    {
      hide CustomSecret, SeededRounds;
      ResetInternal(0, secret, secretSize);
      if secret.None? || secretSize < SECRET_SIZE_MIN {
        return ERROR;
      }
      mode := WithSecret(secret.value);
      err := OK;
    }

    /** The derived secret is rebuilt only when the one on record is for another seed. */
    method ResetWithSeed(seed: Word64) returns (err: ErrorCode)
      requires Allocated()
      modifies this, customSecret
      ensures err == OK && Valid() && fed == []
      ensures mode == if seed == 0 then DEFAULT else WithSeed(seed)
    {
      hide CustomSecret, SeededRounds;
      if seed == 0 {
        err := Reset();
        return;
      }
      KSecretSize();
      CustomSecretRounds(seed);
      if seed != this.seed || extSecret.Some? {
        InitCustomSecret(customSecret, K_SECRET, seed);
      }
      ResetInternal(seed, None, SECRET_DEFAULT_SIZE);
      mode := WithSeed(seed);
      err := OK;
    }

    method ResetWithSecretAndSeed(secret: Option<Bytes>, secretSize: nat, seed: Word64) returns (err: ErrorCode)
      requires Allocated() && secretSize < 0x1_0000_0000_0000_0000
      requires secret.Some? ==> |secret.value| == secretSize
      modifies this
      ensures Allocated() && (err == OK <==> secret.Some? && secretSize >= SECRET_SIZE_MIN)
      ensures err == OK ==> Valid() && mode == WithSecretAndSeed(secret.value, seed) && fed == []
      ensures err == ERROR ==> unchanged(this)
    {
      hide CustomSecret, SeededRounds;
      if secret.None? || secretSize < SECRET_SIZE_MIN {
        return ERROR;
      }
      ResetInternal(seed, secret, secretSize);
      useSeed := true;
      mode := WithSecretAndSeed(secret.value, seed);
      err := OK;
    }

    // ---- update ----

    /** In the middle of an update: of all bytes, `rest` is still to be consumed or buffered. */
    ghost predicate InFlight(all: Bytes, rest: Bytes)
      reads this, customSecret, buffer
    {
      && Configured()
      && Pending(kernel, LongSecret(mode), all, rest, Run(acc, nbStripesSoFar))
      && Remembers(all, rest, buffer[192..])
    }

    method CopyToBuffer(off: nat, data: Bytes)
      requires Sized() && off + |data| <= INTERNALBUFFER_SIZE
      modifies buffer
      ensures buffer[off..off + |data|] == data
      ensures buffer[..off] == old(buffer[..off]) && buffer[off + |data|..] == old(buffer[off + |data|..])
    {
      forall i | 0 <= i < |data| {
        buffer[off + i] := data[i];
      }
    }

    /** A small input only joins the buffer. */
    method FillBuffer(input: Bytes)
      requires Streaming() && bufferedSize + |input| <= INTERNALBUFFER_SIZE
      modifies this`bufferedSize, this`fed, buffer
      ensures Streaming() && fed == old(fed) + input
    {
      hide CustomSecret, LongSecret, Buffered;
      ghost var buffered, tail, end := buffer[..bufferedSize], buffer[192..], bufferedSize + |input|;
      CopyToBuffer(bufferedSize, input);
      assert buffer[..end] == buffered + input;
      if end <= 192 {
        assert buffer[192..] == buffer[end..][192 - end..] == tail;
      }
      BufferedMore(kernel, LongSecret(mode), fed, buffered, Run(acc, nbStripesSoFar), tail, input, buffer[192..]);
      fed := fed + input;
      bufferedSize := bufferedSize + |input|;
    }

    /** Completes the partly filled buffer with the start of `input` and consumes its four stripes. */
    method CompleteBuffer(input: Bytes) returns (rest: Bytes)
      requires Streaming() && bufferedSize > 0 && bufferedSize + |input| > INTERNALBUFFER_SIZE
      modifies this`acc, this`nbStripesSoFar, this`bufferedSize, buffer
      ensures InFlight(fed + input, rest) && rest != [] && bufferedSize == 0
      ensures |rest| < |fed + input|
    {
      hide Continue, CustomSecret, LongSecret, Pending, Remembers;
      ghost var buffered := buffer[..bufferedSize];
      var loadSize := INTERNALBUFFER_SIZE - bufferedSize;
      CopyToBuffer(bufferedSize, input[..loadSize]);
      rest := input[loadSize..];
      assert buffer[..][..4 * 64] == buffered + input[..loadSize] == (buffered + input)[..4 * 64];
      assert rest == (buffered + input)[4 * 64..];
      assert buffer[192..] == (buffered + input)[4 * 64 - 64..4 * 64];
      MorePending(kernel, LongSecret(mode), fed, buffered, Run(acc, nbStripesSoFar), input);
      StripesConsumed(kernel, LongSecret(mode), fed + input, buffered + input, Run(acc, nbStripesSoFar), 4);
      acc, nbStripesSoFar := ConsumeStripes(kernel, acc, nbStripesSoFar, nbStripesPerBlock, buffer[..], 4,
                                            ActiveSecret(), secretLimit);
      bufferedSize := 0;
    }

    /** Consumes all but at most 256 of the remaining bytes and remembers the stripe before them. */
    method ConsumeBulk(ghost all: Bytes, input: Bytes) returns (rest: Bytes)
      requires InFlight(all, input) && |input| > INTERNALBUFFER_SIZE && bufferedSize == 0
      modifies this`acc, this`nbStripesSoFar, buffer
      ensures InFlight(all, rest) && 0 < |rest| <= INTERNALBUFFER_SIZE && |rest| < |all|
    {
      hide Continue, CustomSecret, LongSecret, Pending, Remembers;
      var n;
      PendingIsSuffix(kernel, LongSecret(mode), all, input, Run(acc, nbStripesSoFar));
      ghost var r := Run(acc, nbStripesSoFar);
      if |input| > nbStripesPerBlock * 64 {
        acc, nbStripesSoFar, n := ConsumeByBlock(kernel, acc, nbStripesSoFar, nbStripesPerBlock, input, ActiveSecret());
      } else {
        acc, nbStripesSoFar, n := ConsumeByBuffer(kernel, acc, nbStripesSoFar, nbStripesPerBlock, input,
                                                  ActiveSecret(), secretLimit);
      }
      rest := input[64 * n..];
      CopyToBuffer(192, input[64 * n - 64..64 * n]);
      assert buffer[192..] == input[64 * n - 64..64 * n];
      StripesConsumed(kernel, LongSecret(mode), all, input, r, n);
    }

    /** What is left of the input goes to the start of the buffer. */
    method BufferRest(ghost all: Bytes, rest: Bytes)
      requires InFlight(all, rest) && 0 < |rest| <= INTERNALBUFFER_SIZE && |rest| < |all|
      requires |all| > INTERNALBUFFER_SIZE
      modifies this`bufferedSize, this`fed, buffer
      ensures Streaming() && fed == all
    {
      hide Continue, CustomSecret, LongSecret, Pending, Remembers;
      ghost var tail := buffer[192..];
      CopyToBuffer(0, rest);
      if |rest| < 64 {
        assert buffer[192..] == buffer[|rest|..][192 - |rest|..] == tail;
      }
      bufferedSize := |rest|;
      fed := all;
      assert buffer[..bufferedSize] == rest;
    }

    /** `XXH3_64bits_update`.  The total length is a 64-bit counter; no process feeds 2^64 bytes. */
    method Update(input: Bytes) returns (err: ErrorCode)
      requires Valid() && |fed| + |input| < 0x1_0000_0000_0000_0000
      modifies this`acc, this`nbStripesSoFar, this`bufferedSize, this`totalLen, this`fed, buffer
      ensures err == OK && Valid() && fed == old(fed) + input
    {
      hide Continue, CustomSecret, LongSecret, Pending, Remembers;
      totalLen := totalLen + |input|;
      ghost var all := fed + input;
      if bufferedSize + |input| <= INTERNALBUFFER_SIZE {
        FillBuffer(input);
        return OK;
      }
      var rest := input;
      if bufferedSize > 0 {
        rest := CompleteBuffer(input);
      } else {
        assert fed == [] && all == input && buffer[..0] == [];
        MorePending(kernel, LongSecret(mode), fed, [], Run(acc, nbStripesSoFar), input);
        NothingToRemember(all, buffer[192..]);
      }
      if |rest| > INTERNALBUFFER_SIZE {
        rest := ConsumeBulk(all, rest);
      }
      BufferRest(all, rest);
      err := OK;
    }

    // ---- digest ----

    /** `XXH3_digest_long`: finishes on a copy of the accumulators. */
    method DigestLong() returns (res: Acc)
      requires Valid() && totalLen > MIDSIZE_MAX
      ensures res == FinalAcc(kernel, LongSecret(mode), fed)
    {
      hide Continue, CustomSecret, LongSecret;
      var secret := ActiveSecret();
      ghost var r, c := Run(acc, nbStripesSoFar), |fed| - bufferedSize;
      var last := secretLimit - 7;
      LastStripeStart(c, bufferedSize);
      if bufferedSize >= 64 {
        var nbStripes := (bufferedSize - 1) / 64;
        assert buffer[..][..nbStripes * 64] == fed[c..][..nbStripes * 64];
        ContinueTwice(kernel, LongSecret(mode), Run(INIT_ACC, 0), fed, c / 64, nbStripes);
        var n;
        res, n := ConsumeStripes(kernel, acc, nbStripesSoFar, nbStripesPerBlock, buffer[..], nbStripes, secret, secretLimit);
        assert buffer[bufferedSize - 64..bufferedSize] == fed[|fed| - 64..];
        res := kernel.acc512(res, buffer[bufferedSize - 64..bufferedSize], secret[last..last + 64]);
      } else {
        var catchupSize := 64 - bufferedSize;
        var lastStripe := buffer[buffer.Length - catchupSize..] + buffer[..bufferedSize];
        assert buffer[buffer.Length - catchupSize..] == buffer[192..][bufferedSize..];
        RememberedStripe(fed, buffer[..bufferedSize], buffer[192..]);
        res := kernel.acc512(acc, lastStripe, secret[last..last + 64]);
      }
    }

    /** `XXH3_64bits_digest`: the one-shot hash of everything fed since the last reset. */
    method Digest() returns (h: Word64)
      requires Valid()
      ensures h == Hash(kernel, mode, fed)
    {
      hide Continue, CustomSecret, HashShort, FinalAcc, MergeAccs, LenTimesPrime;
      var secret := ActiveSecret();
      if totalLen > MIDSIZE_MAX {
        var finalAcc := DigestLong();
        h := ComputeMergeAccs(finalAcc, secret[11..], LenTimesPrime(totalLen));
        return;
      }
      assert buffer[..totalLen] == fed;
      ZeroSeedSecret();
      if useSeed {
        h := Xxh3HashWithSeed(kernel, buffer[..totalLen], seed);
      } else {
        h := Xxh3HashWithSecret(kernel, buffer[..totalLen], secret);
      }
    }
  }

  // ---- pending bytes ----

  /** Of the bytes `all`, everything before the suffix `rest` has been consumed as whole stripes. */
  ghost predicate Pending(k: Kernel, secret: Secret, all: Bytes, rest: Bytes, r: Run) {
    && |rest| <= |all| && rest == all[|all| - |rest|..]
    && (|all| - |rest|) % 64 == 0
    && r == Consumed(k, secret, all[..|all| - |rest|])
    && r.soFar < NbStripesPerBlock(secret)
  }

  /** `tail` holds the last 64 consumed bytes, if any were consumed. */
  ghost predicate Remembers(all: Bytes, rest: Bytes, tail: Bytes) {
    |rest| < |all| ==> |rest| + 64 <= |all| && tail == all[|all| - |rest| - 64..|all| - |rest|]
  }

  /** Some bytes are pending in the buffer; a short buffer remembers what came before it. */
  ghost predicate Buffered(k: Kernel, secret: Secret, fed: Bytes, buffered: Bytes, r: Run, tail: Bytes) {
    && Pending(k, secret, fed, buffered, r)
    && (fed != [] ==> buffered != [])
    && (buffered == fed <==> |fed| <= INTERNALBUFFER_SIZE)
    && (|buffered| < 64 ==> Remembers(fed, buffered, tail))
  }

  lemma BufferedMore(k: Kernel, secret: Secret, fed: Bytes, buffered: Bytes, r: Run, tail: Bytes, input: Bytes, tail': Bytes)
    requires Buffered(k, secret, fed, buffered, r, tail)
    requires |buffered| + |input| <= INTERNALBUFFER_SIZE && (|buffered| + |input| < 64 ==> tail' == tail)
    ensures Buffered(k, secret, fed + input, buffered + input, r, tail')
  {
    hide Pending;
    MorePending(k, secret, fed, buffered, r, input);
    PendingIsSuffix(k, secret, fed, buffered, r);
    if buffered + input == fed + input {
      assert |buffered| == |fed|;
    }
  }

  lemma MorePending(k: Kernel, secret: Secret, all: Bytes, rest: Bytes, r: Run, input: Bytes)
    requires Pending(k, secret, all, rest, r)
    ensures Pending(k, secret, all + input, rest + input, r)
  {
    var c := |all| - |rest|;
    assert (all + input)[..c] == all[..c];
  }

  /** Consuming the first `n` stripes of what is pending. */
  lemma StripesConsumed(k: Kernel, secret: Secret, all: Bytes, rest: Bytes, r: Run, n: nat)
    requires Pending(k, secret, all, rest, r) && n > 0 && 64 * n <= |rest|
    ensures var r' := Continue(k, secret, r, rest[..n * 64]);
            r'.soFar < NbStripesPerBlock(secret) ==>
              && Pending(k, secret, all, rest[64 * n..], r')
              && Remembers(all, rest[64 * n..], rest[64 * n - 64..64 * n])
  {
    hide Continue;
    var c := |all| - |rest|;
    ContinueTwice(k, secret, Run(INIT_ACC, 0), all, c / 64, n);
    assert c / 64 * 64 == c && (c / 64 + n) * 64 == c + 64 * n;
    assert all[c..][..n * 64] == rest[..n * 64];
  }

  lemma PendingIsSuffix(k: Kernel, secret: Secret, all: Bytes, rest: Bytes, r: Run)
    requires Pending(k, secret, all, rest, r)
    ensures |rest| <= |all| && rest == all[|all| - |rest|..] && r.soFar < NbStripesPerBlock(secret)
  {
  }

  lemma NothingToRemember(all: Bytes, tail: Bytes)
    ensures Remembers(all, all, tail)
  {
  }

  /** Where the ordinary stripes end, seen from the start of the buffered bytes. */
  lemma LastStripeStart(c: nat, buffered: nat)
    requires c % 64 == 0 && buffered > 0
    ensures (c + buffered - 1) / 64 * 64 == (c / 64 + (buffered - 1) / 64) * 64
    ensures c / 64 * 64 == c
  {
  }

  /** A short buffer is completed to the last 64 bytes from what it remembers. */
  lemma RememberedStripe(all: Bytes, rest: Bytes, tail: Bytes)
    requires |rest| < 64 && |rest| < |all| && rest == all[|all| - |rest|..] && Remembers(all, rest, tail)
    ensures |all| >= 64 && |tail| == 64 && tail[|rest|..] + rest == all[|all| - 64..]
  {
  }

  // ---- whole runs ----

  datatype Op =
    | Reset
    | ResetWithSecret(secret: Option<Bytes>)
    | ResetWithSeed(seed: Word64)
    | ResetWithSecretAndSeed(secret: Option<Bytes>, seed: Word64)
    | Update(input: Bytes)
    | Digest

  /** What a state must remember: nothing usable, or the mode and the bytes fed. */
  datatype Session = NotReady | Ready(mode: Mode, fed: Bytes)

  predicate Usable(secret: Option<Bytes>) {
    secret.Some? && |secret.value| >= SECRET_SIZE_MIN
  }

  function After(s: Session, op: Op): Session {
    match op
    case Reset => Ready(DEFAULT, [])
    case ResetWithSecret(secret) => if Usable(secret) then Ready(WithSecret(secret.value), []) else NotReady
    case ResetWithSeed(seed) => Ready(if seed == 0 then DEFAULT else WithSeed(seed), [])
    case ResetWithSecretAndSeed(secret, seed) =>
      if Usable(secret) then Ready(WithSecretAndSeed(secret.value, seed), []) else s
    case Update(input) => if s.Ready? then s.(fed := s.fed + input) else s
    case Digest => s
  }

  /** Updates and digests come after a successful reset, and lengths fit the machine. */
  predicate Legal(s: Session, ops: seq<Op>)
    decreases |ops|
  {
    if ops == [] then true
    else
      && (ops[0].Update? ==> s.Ready? && |s.fed| + |ops[0].input| < 0x1_0000_0000_0000_0000)
      && (ops[0].Digest? ==> s.Ready?)
      && (ops[0].ResetWithSecret? ==> Fits64(ops[0].secret))
      && (ops[0].ResetWithSecretAndSeed? ==> Fits64(ops[0].secret))
      && Legal(After(s, ops[0]), ops[1..])
  }

  predicate Fits64(secret: Option<Bytes>) {
    secret.Some? ==> |secret.value| < 0x1_0000_0000_0000_0000
  }

  /** The digests of a run: each is the one-shot hash of the bytes fed since the reset before it. */
  function Digests(k: Kernel, s: Session, ops: seq<Op>): seq<Word64>
    decreases |ops|
  {
    if ops == [] then []
    else
      (if ops[0].Digest? && s.Ready? then [Hash(k, s.mode, s.fed)] else [])
      + Digests(k, After(s, ops[0]), ops[1..])
  }

  /** The state is in the given session. */
  ghost predicate InSession(state: State, s: Session)
    reads state, state.customSecret, state.buffer
  {
    state.Allocated() && (s.Ready? ==> state.Valid() && state.mode == s.mode && state.fed == s.fed)
  }

  /** Any legal run of resets, updates and digests, on one state, from any session. */
  method RunOps(state: State, ghost s: Session, ops: seq<Op>) returns (out: seq<Word64>)
    requires InSession(state, s) && Legal(s, ops)
    modifies state, state.customSecret, state.buffer
    ensures out == Digests(state.kernel, s, ops)
    decreases |ops|
  {
    hide Hash, CustomSecret, LongSecret;
    if ops == [] {
      return [];
    }
    var digest := [];
    ghost var s' := After(s, ops[0]);
    match ops[0] {
      case Reset =>
        var _ := state.Reset();
      case ResetWithSecret(secret) =>
        var _ := state.ResetWithSecret(secret, if secret.Some? then |secret.value| else 0);
      case ResetWithSeed(seed) =>
        var _ := state.ResetWithSeed(seed);
      case ResetWithSecretAndSeed(secret, seed) =>
        var _ := state.ResetWithSecretAndSeed(secret, if secret.Some? then |secret.value| else 0, seed);
      case Update(input) =>
        var _ := state.Update(input);
      case Digest =>
        var h := state.Digest();
        digest := [h];
    }
    out := RunOps(state, s', ops[1..]);
    out := digest + out;
  }
}
