/** The accumulate and scramble routines of XXH3, scalar and SSE2.

    Both forms update the eight accumulators in place.  They meet one specification, so every
    hash is the same whichever of the two a build selects. */
module Xxh3Kernel {
  import opened Bits
  import opened StripeFold
  import opened XxhWords
  import opened Xxh3Mix
  import opened Xxh3Long
  import opened Xxh3Short
  import opened Xxh3OneShot

  // ---- specification, lane by lane ----

  predicate IsStripe(p: Bytes) { |p| >= 64 }

  function Data(p: Bytes, i: nat): Word64
    requires IsStripe(p) && i < 8
  {
    ReadLE64(p[8 * i..])
  }

  function DataKey(input: Bytes, secret: Bytes, i: nat): Word64
    requires IsStripe(input) && IsStripe(secret) && i < 8
  {
    Xor64(Data(input, i), Data(secret, i))
  }

  /** The neighbouring lane. */
  function Flip(i: nat): nat {
    if i % 2 == 0 then i + 1 else i - 1
  }

  function HalvesProduct(x: Word64): Word64 {
    Mult32to64(x % 0x1_0000_0000, x / 0x1_0000_0000)
  }

  /** A lane receives its neighbour's input and the product of the halves of its own keyed input. */
  function AccLane(acc: Acc, input: Bytes, secret: Bytes, i: nat): Word64
    requires IsStripe(input) && IsStripe(secret) && i < 8
  {
    Add64(Add64(acc[i], Data(input, Flip(i))), HalvesProduct(DataKey(input, secret, i)))
  }

  function Acc512(acc: Acc, input: Bytes, secret: Bytes): Acc
    requires IsStripe(input) && IsStripe(secret)
  {
    seq(8, i requires 0 <= i < 8 => AccLane(acc, input, secret, i))
  }

  function ScrambleLane(a: Word64, key: Word64): Word64 {
    Mul64(Xor64(XorShift64(a, 47), key), PRIME32_1)
  }

  function Scramble(acc: Acc, secret: Bytes): Acc
    requires IsStripe(secret)
  {
    seq(8, i requires 0 <= i < 8 => ScrambleLane(acc[i], Data(secret, i)))
  }

  // ---- scalar ----

  /** The code writes the neighbouring lane as `lane ^ 1`. */
  lemma FlipIsXor(i: nat)
    ensures Xor(i, 1) == Flip(i)
  {
    XorZero(i / 2);
  }

  /** `XXH3_scalarRound` */
  method ScalarRound(acc: array<Word64>, input: Bytes, secret: Bytes, lane: nat)
    requires acc.Length == 8 && IsStripe(input) && IsStripe(secret) && lane < 8
    modifies acc
    ensures acc[..] == old(acc[..])[Flip(lane) := Add64(old(acc[Flip(lane)]), Data(input, lane))]
                                   [lane := Add64(old(acc[lane]), HalvesProduct(DataKey(input, secret, lane)))]
  {
    hide Xor, Add64, ReadLE64, Xor64, Mult32to64;
    var dataVal := ReadLE64(input[lane * 8..]);
    var dataKey := Xor64(dataVal, ReadLE64(secret[lane * 8..]));
    FlipIsXor(lane);
    acc[Xor(lane, 1)] := Add64(acc[Xor(lane, 1)], dataVal);
    acc[lane] := Add64(acc[lane], Mult32to64(dataKey % 0x1_0000_0000, dataKey / 0x1_0000_0000));
  }

  /** Lane `j` after the first `n` rounds. */
  function AfterRounds(acc: Acc, input: Bytes, secret: Bytes, n: nat, j: nat): Word64
    requires IsStripe(input) && IsStripe(secret) && j < 8
  {
    var a := if Flip(j) < n then Add64(acc[j], Data(input, Flip(j))) else acc[j];
    if j < n then Add64(a, HalvesProduct(DataKey(input, secret, j))) else a
  }

  lemma OneMoreRound(acc: Acc, input: Bytes, secret: Bytes, n: nat, j: nat)
    requires IsStripe(input) && IsStripe(secret) && n < 8 && j < 8
    ensures AfterRounds(acc, input, secret, n + 1, j) ==
            if j == Flip(n) then Add64(AfterRounds(acc, input, secret, n, j), Data(input, n))
            else if j == n then Add64(AfterRounds(acc, input, secret, n, j), HalvesProduct(DataKey(input, secret, n)))
            else AfterRounds(acc, input, secret, n, j)
  {
    hide Add64, Data, DataKey, HalvesProduct;
    if j == Flip(n) {
      AddSwap(acc[j], Data(input, n), HalvesProduct(DataKey(input, secret, j)));
    }
  }

  /** `XXH3_accumulate_512_scalar`: neighbouring lanes are updated in different orders, to the
      same effect. */
  method AccumulateScalar(acc: array<Word64>, input: Bytes, secret: Bytes)
    requires acc.Length == 8 && IsStripe(input) && IsStripe(secret)
    modifies acc
    ensures acc[..] == Acc512(old(acc[..]), input, secret)
  {
    hide Add64, Data, DataKey, HalvesProduct;
    ghost var was: Acc := acc[..];
    for i := 0 to 8
      invariant forall j :: 0 <= j < 8 ==> acc[j] == AfterRounds(was, input, secret, i, j)
    {
      ScalarRound(acc, input, secret, i);
      forall j | 0 <= j < 8
        ensures acc[j] == AfterRounds(was, input, secret, i + 1, j)
      {
        OneMoreRound(was, input, secret, i, j);
        assert acc[j] == acc[..][j];
      }
    }
  }

  /** `XXH3_scrambleAcc_scalar` */
  method ScrambleScalar(acc: array<Word64>, secret: Bytes)
    requires acc.Length == 8 && IsStripe(secret)
    modifies acc
    ensures acc[..] == Scramble(old(acc[..]), secret)
  {
    hide XorShift64, ReadLE64, Xor64, Mul64;
    for lane := 0 to 8
      invariant forall j :: 0 <= j < lane ==> acc[j] == ScrambleLane(old(acc[j]), Data(secret, j))
      invariant forall j :: lane <= j < 8 ==> acc[j] == old(acc[j])
    {
      var key64 := ReadLE64(secret[lane * 8..]);
      var acc64 := acc[lane];
      acc64 := XorShift64(acc64, 47);
      acc64 := Xor64(acc64, key64);
      acc64 := Mul64(acc64, PRIME32_1);
      acc[lane] := acc64;
    }
  }

  // ---- SSE2: vectors of four 32-bit words, also seen as two 64-bit words ----

  datatype M128 = M128(w0: Word32, w1: Word32, w2: Word32, w3: Word32)

  function Join(lo: Word32, hi: Word32): Word64 { lo + hi * 0x1_0000_0000 }

  function Q0(v: M128): Word64 { Join(v.w0, v.w1) }
  function Q1(v: M128): Word64 { Join(v.w2, v.w3) }

  function OfQ(q0: Word64, q1: Word64): M128 {
    M128(q0 % 0x1_0000_0000, q0 / 0x1_0000_0000, q1 % 0x1_0000_0000, q1 / 0x1_0000_0000)
  }

  /** `_mm_loadu_si128` on the `i`-th vector of a byte string. */
  function LoadU(p: Bytes, i: nat): M128
    requires |p| >= 16 * i + 16
  {
    M128(ReadLE32(p[16 * i..]), ReadLE32(p[16 * i + 4..]), ReadLE32(p[16 * i + 8..]), ReadLE32(p[16 * i + 12..]))
  }

  function XorVec(a: M128, b: M128): M128 {
    M128(Xor32(a.w0, b.w0), Xor32(a.w1, b.w1), Xor32(a.w2, b.w2), Xor32(a.w3, b.w3))
  }

  function Select(v: M128, i: nat): Word32
    requires i < 4
  {
    match i
    case 0 => v.w0
    case 1 => v.w1
    case 2 => v.w2
    case 3 => v.w3
  }

  /** `_mm_shuffle_epi32` with `_MM_SHUFFLE(z, y, x, w)`: the selectors from the top word down. */
  function Shuffle(v: M128, z: nat, y: nat, x: nat, w: nat): M128
    requires z < 4 && y < 4 && x < 4 && w < 4
  {
    M128(Select(v, w), Select(v, x), Select(v, y), Select(v, z))
  }

  /** `_mm_mul_epu32`: products of the even words. */
  function MulEven(a: M128, b: M128): M128 {
    OfQ(Mul64(a.w0, b.w0), Mul64(a.w2, b.w2))
  }

  /** `_mm_add_epi64`, `_mm_srli_epi64`, `_mm_slli_epi64` */
  function AddQ(a: M128, b: M128): M128 {
    OfQ(Add64(Q0(a), Q0(b)), Add64(Q1(a), Q1(b)))
  }

  function ShrQ(a: M128, k: nat): M128 {
    OfQ(Shr64(Q0(a), k), Shr64(Q1(a), k))
  }

  function ShlQ32(a: M128): M128 {
    OfQ(Shl32(Q0(a)), Shl32(Q1(a)))
  }

  function Shl32(x: nat): Word64 { Trunc64(x * 0x1_0000_0000) }

  function Set1(w: Word32): M128 { M128(w, w, w, w) }

  // ---- what the vector operations do to the 64-bit halves ----

  lemma OfQParts(q0: Word64, q1: Word64)
    ensures Q0(OfQ(q0, q1)) == q0 && Q1(OfQ(q0, q1)) == q1
  {
  }

  /** Exclusive-or acts on the two halves of a word separately. */
  lemma XorHalves(a: Word64, b: Word64)
    ensures Xor64(a, b) == Join(Xor32(a % 0x1_0000_0000, b % 0x1_0000_0000), Xor32(a / 0x1_0000_0000, b / 0x1_0000_0000))
  {
    hide Xor, Shr, Low;
    WordSizes();
    ShrIsDiv(a, 32);
    ShrIsDiv(b, 32);
    ShrIsDiv(Xor(a, b), 32);
    XorLow(a, b, 32);
    XorShr(a, b, 32);
  }

  lemma XorJoin(a: Word32, b: Word32, c: Word32, d: Word32)
    ensures Xor64(Join(a, b), Join(c, d)) == Join(Xor32(a, c), Xor32(b, d))
  {
    hide Xor32, Xor64;
    XorHalves(Join(a, b), Join(c, d));
  }

  lemma XorVecParts(a: M128, b: M128)
    ensures Q0(XorVec(a, b)) == Xor64(Q0(a), Q0(b)) && Q1(XorVec(a, b)) == Xor64(Q1(a), Q1(b))
  {
    hide Xor32, Xor64, Join;
    XorJoin(a.w0, a.w1, b.w0, b.w1);
    XorJoin(a.w2, a.w3, b.w2, b.w3);
  }

  lemma LoadUParts(p: Bytes, i: nat)
    requires |p| >= 16 * i + 16
    ensures Q0(LoadU(p, i)) == ReadLE64(p[16 * i..]) && Q1(LoadU(p, i)) == ReadLE64(p[16 * i + 8..])
  {
    hide ReadLE32;
    assert p[16 * i..][4..] == p[16 * i + 4..];
    assert p[16 * i + 8..][4..] == p[16 * i + 12..];
  }

  /** One vector of `XXH3_accumulate_512_sse2`. */
  function AccVec(xacc: M128, dataVec: M128, keyVec: M128): M128 {
    var dataKey := XorVec(dataVec, keyVec);
    var dataKeyLo := Shuffle(dataKey, 0, 3, 0, 1);
    var product := MulEven(dataKey, dataKeyLo);
    var dataSwap := Shuffle(dataVec, 1, 0, 3, 2);
    var sum := AddQ(xacc, dataSwap);
    AddQ(product, sum)
  }

  lemma JoinParts32(lo: Word32, hi: Word32)
    ensures Join(lo, hi) % 0x1_0000_0000 == lo && Join(lo, hi) / 0x1_0000_0000 == hi
  {
  }

  lemma MulOfHalves(x: Word64)
    ensures Mul64(x % 0x1_0000_0000, x / 0x1_0000_0000) == HalvesProduct(x)
  {
  }

  lemma AddCommutes(x: Word64, y: Word64)
    ensures Add64(x, y) == Add64(y, x)
  {
  }

  lemma AccVecParts(xacc: M128, dataVec: M128, keyVec: M128)
    ensures Q0(AccVec(xacc, dataVec, keyVec))
         == Add64(Add64(Q0(xacc), Q1(dataVec)), HalvesProduct(Xor64(Q0(dataVec), Q0(keyVec))))
    ensures Q1(AccVec(xacc, dataVec, keyVec))
         == Add64(Add64(Q1(xacc), Q0(dataVec)), HalvesProduct(Xor64(Q1(dataVec), Q1(keyVec))))
  {
    hide XorVec, Xor64, Add64, Mul64, HalvesProduct, OfQ, Join;
    var dataKey := XorVec(dataVec, keyVec);
    XorVecParts(dataVec, keyVec);
    JoinParts32(dataKey.w0, dataKey.w1);
    JoinParts32(dataKey.w2, dataKey.w3);
    MulOfHalves(Q0(dataKey));
    MulOfHalves(Q1(dataKey));
    var p0, p1 := HalvesProduct(Q0(dataKey)), HalvesProduct(Q1(dataKey));
    var s0, s1 := Add64(Q0(xacc), Q1(dataVec)), Add64(Q1(xacc), Q0(dataVec));
    OfQParts(p0, p1);
    OfQParts(s0, s1);
    OfQParts(Add64(p0, s0), Add64(p1, s1));
    AddCommutes(p0, s0);
    AddCommutes(p1, s1);
  }

  /** One vector of `XXH3_scrambleAcc_sse2`. */
  function ScrambleVec(xacc: M128, keyVec: M128): M128 {
    var shifted := ShrQ(xacc, 47);
    var dataVec := XorVec(xacc, shifted);
    var dataKey := XorVec(dataVec, keyVec);
    var dataKeyHi := Shuffle(dataKey, 0, 3, 0, 1);
    var prodLo := MulEven(dataKey, Set1(PRIME32_1));
    var prodHi := MulEven(dataKeyHi, Set1(PRIME32_1));
    AddQ(prodLo, ShlQ32(prodHi))
  }

  /** A 64-bit product by a 32-bit factor, from the products of the halves. */
  lemma MulByHalves(lo: Word32, hi: Word32, p: Word32)
    ensures Add64(Mul64(lo, p), Shl32(Mul64(hi, p))) == Mul64(Join(lo, hi), p)
  {
    var x, y := lo * p, hi * p;
    assert Join(lo, hi) * p == x + y * 0x1_0000_0000 by { Distribute(lo, hi, p); }
    HalfProductBound(lo, p);
    HalfProductBound(hi, p);
    TruncSum(y * 0x1_0000_0000, x);
  }

  lemma Distribute(lo: nat, hi: nat, p: nat)
    ensures (lo + hi * 0x1_0000_0000) * p == lo * p + hi * p * 0x1_0000_0000
  {
  }

  lemma ScrambleVecParts(xacc: M128, keyVec: M128)
    ensures Q0(ScrambleVec(xacc, keyVec)) == ScrambleLane(Q0(xacc), Q0(keyVec))
    ensures Q1(ScrambleVec(xacc, keyVec)) == ScrambleLane(Q1(xacc), Q1(keyVec))
  {
    hide XorVec, Xor64, Shr64, Add64, Mul64, OfQ, Join, Shl32;
    var shifted := ShrQ(xacc, 47);
    OfQParts(Shr64(Q0(xacc), 47), Shr64(Q1(xacc), 47));
    var dataVec := XorVec(xacc, shifted);
    XorVecParts(xacc, shifted);
    var dataKey := XorVec(dataVec, keyVec);
    XorVecParts(dataVec, keyVec);
    var lo0, lo1 := Mul64(dataKey.w0, PRIME32_1), Mul64(dataKey.w2, PRIME32_1);
    var hi0, hi1 := Mul64(dataKey.w1, PRIME32_1), Mul64(dataKey.w3, PRIME32_1);
    OfQParts(lo0, lo1);
    OfQParts(hi0, hi1);
    var up0, up1 := Shl32(hi0), Shl32(hi1);
    OfQParts(up0, up1);
    OfQParts(Add64(lo0, up0), Add64(lo1, up1));
    MulByHalves(dataKey.w0, dataKey.w1, PRIME32_1);
    MulByHalves(dataKey.w2, dataKey.w3, PRIME32_1);
  }

  // ---- the SSE2 loops ----

  /** `XXH3_accumulate_512_sse2`: two lanes at a time, to the same effect as the scalar loop. */
  method AccumulateSse2(acc: array<Word64>, input: Bytes, secret: Bytes)
    requires acc.Length == 8 && IsStripe(input) && IsStripe(secret)
    modifies acc
    ensures acc[..] == Acc512(old(acc[..]), input, secret)
  {
    hide Add64, ReadLE64, Xor64, HalvesProduct, AccVec, LoadU, OfQ, Q0, Q1;
    for i := 0 to 4
      invariant forall j :: 0 <= j < 2 * i ==> acc[j] == AccLane(old(acc[..]), input, secret, j)
      invariant forall j :: 2 * i <= j < 8 ==> acc[j] == old(acc[j])
    {
      var dataVec, keyVec := LoadU(input, i), LoadU(secret, i);
      var xacc := OfQ(acc[2 * i], acc[2 * i + 1]);
      OfQParts(acc[2 * i], acc[2 * i + 1]);
      LoadUParts(input, i);
      LoadUParts(secret, i);
      AccVecParts(xacc, dataVec, keyVec);
      xacc := AccVec(xacc, dataVec, keyVec);
      acc[2 * i], acc[2 * i + 1] := Q0(xacc), Q1(xacc);
    }
  }

  /** `XXH3_scrambleAcc_sse2` */
  method ScrambleSse2(acc: array<Word64>, secret: Bytes)
    requires acc.Length == 8 && IsStripe(secret)
    modifies acc
    ensures acc[..] == Scramble(old(acc[..]), secret)
  {
    hide ReadLE64, ScrambleLane, ScrambleVec, LoadU, OfQ, Q0, Q1;
    for i := 0 to 4
      invariant forall j :: 0 <= j < 2 * i ==> acc[j] == ScrambleLane(old(acc[j]), Data(secret, j))
      invariant forall j :: 2 * i <= j < 8 ==> acc[j] == old(acc[j])
    {
      var keyVec := LoadU(secret, i);
      var xacc := OfQ(acc[2 * i], acc[2 * i + 1]);
      OfQParts(acc[2 * i], acc[2 * i + 1]);
      LoadUParts(secret, i);
      ScrambleVecParts(xacc, keyVec);
      xacc := ScrambleVec(xacc, keyVec);
      acc[2 * i], acc[2 * i + 1] := Q0(xacc), Q1(xacc);
    }
  }

  // ---- either build computes the same hash ----

  function ScalarAcc512(acc: Acc, input: Bytes, secret: Bytes): Acc {
    if IsStripe(input) && IsStripe(secret) then Acc512(acc, input, secret) else acc
  }

  function ScalarScramble(acc: Acc, secret: Bytes): Acc {
    if IsStripe(secret) then Scramble(acc, secret) else acc
  }

  const SCALAR: Kernel := Kernel(ScalarAcc512, ScalarScramble)

  function AccVecAt(acc: Acc, input: Bytes, secret: Bytes, i: nat): M128
    requires IsStripe(input) && IsStripe(secret) && i < 4
  {
    AccVec(OfQ(acc[2 * i], acc[2 * i + 1]), LoadU(input, i), LoadU(secret, i))
  }

  function ScrambleVecAt(acc: Acc, secret: Bytes, i: nat): M128
    requires IsStripe(secret) && i < 4
  {
    ScrambleVec(OfQ(acc[2 * i], acc[2 * i + 1]), LoadU(secret, i))
  }

  function Half(v: M128, i: nat): Word64 {
    if i % 2 == 0 then Q0(v) else Q1(v)
  }

  function Sse2Acc512(acc: Acc, input: Bytes, secret: Bytes): Acc {
    if IsStripe(input) && IsStripe(secret)
    then seq(8, i requires 0 <= i < 8 => Half(AccVecAt(acc, input, secret, i / 2), i))
    else acc
  }

  function Sse2Scramble(acc: Acc, secret: Bytes): Acc {
    if IsStripe(secret)
    then seq(8, i requires 0 <= i < 8 => Half(ScrambleVecAt(acc, secret, i / 2), i))
    else acc
  }

  const SSE2: Kernel := Kernel(Sse2Acc512, Sse2Scramble)

  /** The vectors hold the same eight accumulators as the scalar lanes, for every state, stripe
      and secret. */
  lemma Sse2AccAgrees(acc: Acc, input: Bytes, secret: Bytes)
    ensures Sse2Acc512(acc, input, secret) == ScalarAcc512(acc, input, secret)
  {
    hide Add64, ReadLE64, Xor64, HalvesProduct, AccVec, LoadU, OfQ, Q0, Q1;
    if IsStripe(input) && IsStripe(secret) {
      forall i | 0 <= i < 4
        ensures Q0(AccVecAt(acc, input, secret, i)) == AccLane(acc, input, secret, 2 * i)
        ensures Q1(AccVecAt(acc, input, secret, i)) == AccLane(acc, input, secret, 2 * i + 1)
      {
        OfQParts(acc[2 * i], acc[2 * i + 1]);
        LoadUParts(input, i);
        LoadUParts(secret, i);
        AccVecParts(OfQ(acc[2 * i], acc[2 * i + 1]), LoadU(input, i), LoadU(secret, i));
      }
      forall i | 0 <= i < 8
        ensures Sse2Acc512(acc, input, secret)[i] == Acc512(acc, input, secret)[i]
      {
        assert i == 2 * (i / 2) + i % 2;
      }
    }
  }

  lemma Sse2ScrambleAgrees(acc: Acc, secret: Bytes)
    ensures Sse2Scramble(acc, secret) == ScalarScramble(acc, secret)
  {
    hide ReadLE64, ScrambleLane, ScrambleVec, LoadU, OfQ, Q0, Q1;
    if IsStripe(secret) {
      forall i | 0 <= i < 4
        ensures Q0(ScrambleVecAt(acc, secret, i)) == ScrambleLane(acc[2 * i], Data(secret, 2 * i))
        ensures Q1(ScrambleVecAt(acc, secret, i)) == ScrambleLane(acc[2 * i + 1], Data(secret, 2 * i + 1))
      {
        OfQParts(acc[2 * i], acc[2 * i + 1]);
        LoadUParts(secret, i);
        ScrambleVecParts(OfQ(acc[2 * i], acc[2 * i + 1]), LoadU(secret, i));
      }
      forall i | 0 <= i < 8
        ensures Sse2Scramble(acc, secret)[i] == Scramble(acc, secret)[i]
      {
        assert i == 2 * (i / 2) + i % 2;
      }
    }
  }

  ghost predicate SameRoutines(k: Kernel, l: Kernel) {
    && (forall a, p, s :: k.acc512(a, p, s) == l.acc512(a, p, s))
    && (forall a, s :: k.scramble(a, s) == l.scramble(a, s))
  }

  lemma {:induction false} ContinueAgrees(k: Kernel, l: Kernel, secret: Secret, r: Run, data: Bytes)
    requires SameRoutines(k, l)
    ensures Continue(k, secret, r, data) == Continue(l, secret, r, data)
    decreases |data|
  {
    hide SecretAt;
    if |data| >= 64 {
      ContinueAgrees(k, l, secret, r, data[..|data| - 64]);
    }
  }

  /** Every input, in every mode, has one hash, whichever pair of routines computes it. */
  lemma HashAgrees(k: Kernel, l: Kernel, mode: Mode, input: Bytes)
    requires SameRoutines(k, l)
    ensures Hash(k, mode, input) == Hash(l, mode, input)
  {
    hide Continue, HashShort, MergeAccs, CustomSecret, SecretAt;
    if |input| > 240 {
      ContinueAgrees(k, l, LongSecret(mode), Run(INIT_ACC, 0), input[..(|input| - 1) / 64 * 64]);
    }
  }

  lemma ScalarAndSse2Agree(mode: Mode, input: Bytes)
    ensures Hash(SSE2, mode, input) == Hash(SCALAR, mode, input)
  {
    hide Sse2Acc512, ScalarAcc512, Sse2Scramble, ScalarScramble, Hash;
    forall a, p, s ensures SSE2.acc512(a, p, s) == SCALAR.acc512(a, p, s) {
      Sse2AccAgrees(a, p, s);
    }
    forall a, s ensures SSE2.scramble(a, s) == SCALAR.scramble(a, s) {
      Sse2ScrambleAgrees(a, s);
    }
    HashAgrees(SSE2, SCALAR, mode, input);
  }
}
