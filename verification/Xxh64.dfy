/** XXH64: the one-shot hash and its streaming form. */
module Xxh64 {
  import opened StripeFold
  import opened XxhWords
  import opened Xxh3Mix

  type Lanes = v: seq<Word64> | |v| == 4 witness [0, 0, 0, 0]

  // ---- specification ----

  function Round(acc: Word64, input: Word64): Word64 {
    Mul64(Rotl64(Add64(acc, Mul64(input, PRIME64_2)), 31), PRIME64_1)
  }

  function MergeRound(acc: Word64, val: Word64): Word64 {
    Add64(Mul64(Xor64(acc, Round(0, val)), PRIME64_1), PRIME64_4)
  }

  function Step(v: Lanes, stripe: Bytes): Lanes {
    if |stripe| == 32
    then [Round(v[0], ReadLE64(stripe)), Round(v[1], ReadLE64(stripe[8..])),
          Round(v[2], ReadLE64(stripe[16..])), Round(v[3], ReadLE64(stripe[24..]))]
    else v
  }

  function Init(seed: Word64): Lanes {
    [Add64(Add64(seed, PRIME64_1), PRIME64_2), Add64(seed, PRIME64_2), seed, Sub64(seed, PRIME64_1)]
  }

  function Converge(v: Lanes): Word64 {
    var h := Add64(Add64(Add64(Rotl64(v[0], 1), Rotl64(v[1], 7)), Rotl64(v[2], 12)), Rotl64(v[3], 18));
    MergeRound(MergeRound(MergeRound(MergeRound(h, v[0]), v[1]), v[2]), v[3])
  }

  function Process8(h: Word64, p: Bytes): Word64
    requires |p| >= 8
  {
    Add64(Mul64(Rotl64(Xor64(h, Round(0, ReadLE64(p))), 27), PRIME64_1), PRIME64_4)
  }

  function Process4(h: Word64, p: Bytes): Word64
    requires |p| >= 4
  {
    Add64(Mul64(Rotl64(Xor64(h, Mul64(ReadLE32(p), PRIME64_1)), 23), PRIME64_2), PRIME64_3)
  }

  function Process1(h: Word64, b: Byte): Word64 {
    Mul64(Rotl64(Xor64(h, Mul64(b, PRIME64_5)), 11), PRIME64_1)
  }

  /** The bytes after the last full stripe: by eights, at most one four, then single bytes. */
  function Tail(h: Word64, p: Bytes): Word64
    decreases |p|
  {
    if |p| >= 8 then Tail(Process8(h, p), p[8..])
    else if |p| >= 4 then Tail(Process4(h, p), p[4..])
    else if |p| > 0 then Tail(Process1(h, p[0]), p[1..])
    else h
  }

  function Stripes(data: Bytes): nat {
    |data| / 32 * 32
  }

  function Consumed(seed: Word64, data: Bytes): Lanes {
    Fold(Step, Init(seed), 32, data)
  }

  function Start(seed: Word64, data: Bytes): Word64 {
    if |data| >= 32 then Converge(Consumed(seed, data[..Stripes(data)])) else Add64(seed, PRIME64_5)
  }

  function Hash(seed: Word64, data: Bytes): Word64 {
    Xxh64Avalanche(Tail(Add64(Start(seed, data), Trunc64(|data|)), data[Stripes(data)..]))
  }

  /** `v` is the result of consuming the first `c` bytes of `data`, whole stripes. */
  ghost predicate Reached(seed: Word64, data: Bytes, c: nat, v: Lanes) {
    c <= |data| && c % 32 == 0 && v == Consumed(seed, data[..c])
  }

  lemma OneMoreStripe(seed: Word64, data: Bytes, c: nat, v: Lanes)
    requires Reached(seed, data, c, v) && c + 32 <= |data|
    ensures Reached(seed, data, c + 32, Step(v, data[c..c + 32]))
  {
    hide Step;
    var d := data[..c + 32];
    assert d[..|d| - 32] == data[..c] && d[|d| - 32..] == data[c..c + 32];
  }

  lemma NothingReached(seed: Word64, data: Bytes)
    ensures Reached(seed, data, 0, Init(seed))
  {
  }

  // ---- finalisation ----

  /** `XXH64_finalize`: only the length modulo 32 matters. */
  method Finalize(hash: Word64, ptr: Bytes, length: nat) returns (h: Word64)
    requires |ptr| >= length % 32
    ensures h == Xxh64Avalanche(Tail(hash, ptr[..length % 32]))
  {
    hide Xxh64Avalanche, Process8, Process4, Process1;
    var len := length % 32;
    var p := ptr[..len];
    h := hash;
    while len >= 8
      invariant len == |p| && Tail(h, p) == Tail(hash, ptr[..length % 32])
    {
      h := Process8(h, p);
      p := p[8..];
      len := len - 8;
    }
    if len >= 4 {
      h := Process4(h, p);
      p := p[4..];
      len := len - 4;
    }
    while len > 0
      invariant len == |p| < 4 && Tail(h, p) == Tail(hash, ptr[..length % 32])
    {
      h := Process1(h, p[0]);
      p := p[1..];
      len := len - 1;
    }
    h := Xxh64Avalanche(h);
  }

  // ---- one shot ----

  /** The loop over whole stripes; it runs at least once. */
  method ConsumeAll(input: Bytes, seed: Word64) returns (v: Lanes, p: nat)
    requires |input| >= 32
    ensures p == Stripes(input) && v == Consumed(seed, input[..p])
  {
    hide Step, Consumed, Init;
    var limit := |input| - 31;
    v := Init(seed);
    NothingReached(seed, input);
    OneMoreStripe(seed, input, 0, v);
    v, p := Step(v, input[0..32]), 32;
    while p < limit
      invariant Reached(seed, input, p, v)
    {
      OneMoreStripe(seed, input, p, v);
      v, p := Step(v, input[p..p + 32]), p + 32;
    }
  }

  /** `XXH64_endian_align` */
  method OneShot(input: Bytes, seed: Word64) returns (h: Word64)
    ensures h == Hash(seed, input)
  {
    hide Consumed, Converge, Xxh64Avalanche, Tail, Trunc64, Add64;
    var p := 0;
    if |input| >= 32 {
      var v;
      v, p := ConsumeAll(input, seed);
      h := Converge(v);
    } else {
      h := Add64(seed, PRIME64_5);
    }
    h := Add64(h, Trunc64(|input|));
    assert |input| % 32 == |input| - p;
    assert input[p..][..|input| % 32] == input[p..];
    h := Finalize(h, input[p..], |input|);
  }

  // ---- streaming ----

  /** Everything but the `pending` bytes has been consumed, and less than a stripe is pending. */
  ghost predicate Holds(seed: Word64, fed: Bytes, v: Lanes, pending: Bytes) {
    && |pending| == |fed| % 32
    && pending == fed[|fed| - |pending|..]
    && Reached(seed, fed, |fed| - |pending|, v)
  }

  lemma FreshState(seed: Word64)
    ensures Holds(seed, [], Init(seed), [])
  {
    hide Init;
    NothingReached(seed, []);
  }

  lemma TruncTwice(a: nat, b: nat)
    ensures Add64(Trunc64(a), Trunc64(b)) == Trunc64(a + b)
  {
  }

  /** A short input only joins the pending bytes. */
  lemma MorePending(seed: Word64, fed: Bytes, v: Lanes, pending: Bytes, input: Bytes)
    requires Holds(seed, fed, v, pending) && |pending| + |input| < 32
    ensures Holds(seed, fed + input, v, pending + input)
  {
    hide Step, Init;
    var c := |fed| - |pending|;
    assert (fed + input)[..c] == fed[..c] && (fed + input)[c..] == pending + input;
  }

  /** In the middle of an update: of all bytes, `rest` is still to be consumed or buffered. */
  ghost predicate InFlight(seed: Word64, all: Bytes, v: Lanes, rest: Bytes) {
    && |rest| <= |all| && rest == all[|all| - |rest|..]
    && Reached(seed, all, |all| - |rest|, v)
  }

  lemma StartUpdate(seed: Word64, fed: Bytes, v: Lanes, pending: Bytes, input: Bytes)
    requires Holds(seed, fed, v, pending)
    ensures InFlight(seed, fed + input, v, pending + input)
  {
    hide Step, Init;
    var c := |fed| - |pending|;
    assert (fed + input)[..c] == fed[..c] && (fed + input)[c..] == pending + input;
  }

  lemma StripeConsumed(seed: Word64, all: Bytes, v: Lanes, rest: Bytes)
    requires InFlight(seed, all, v, rest) && |rest| >= 32
    ensures InFlight(seed, all, Step(v, rest[..32]), rest[32..])
  {
    hide Step, Init;
    var c := |all| - |rest|;
    assert all[c..c + 32] == rest[..32];
    OneMoreStripe(seed, all, c, v);
  }

  lemma EndUpdate(seed: Word64, all: Bytes, v: Lanes, rest: Bytes)
    requires InFlight(seed, all, v, rest) && |rest| < 32
    ensures Holds(seed, all, v, rest)
  {
    hide Step, Init, Consumed;
  }

  /** Consumes whole stripes while there are any. */
  method ConsumeStripes(ghost seed: Word64, ghost all: Bytes, v: Lanes, input: Bytes) returns (v': Lanes, rest: Bytes)
    requires InFlight(seed, all, v, input)
    ensures InFlight(seed, all, v', rest) && |rest| < 32
  {
    hide Step, InFlight;
    v', rest := v, input;
    while 32 <= |rest|
      invariant InFlight(seed, all, v', rest)
    {
      StripeConsumed(seed, all, v', rest);
      v', rest := Step(v', rest[..32]), rest[32..];
    }
  }

  class State {
    var totalLen: Word64
    var v: Lanes
    const mem64: array<Byte>
    var memsize: nat

    ghost var seed: Word64
    ghost var fed: Bytes

    ghost predicate Valid()
      reads this, mem64
    {
      && mem64.Length == 32 && memsize < 32
      && Holds(seed, fed, v, mem64[..memsize])
      && totalLen == Trunc64(|fed|)
    }

    /** Allocates a state and resets it with `seed`. */
    constructor (seed: Word64)
      ensures Valid() && fresh(mem64) && this.seed == seed && fed == []
    {
      hide Holds, Init;
      mem64 := new Byte[32];
      totalLen, memsize := 0, 0;
      v := Init(seed);
      this.seed, fed := seed, [];
      new;
      FreshState(seed);
      assert mem64[..0] == [];
    }

    method Reset(seed: Word64)
      requires mem64.Length == 32
      modifies this
      ensures Valid() && this.seed == seed && fed == []
    {
      hide Holds, Init;
      totalLen, memsize := 0, 0;
      v := Init(seed);
      this.seed, fed := seed, [];
      FreshState(seed);
      assert mem64[..0] == [];
    }

    method Buffer(off: nat, data: Bytes)
      requires mem64.Length == 32 && off + |data| <= 32
      modifies mem64
      ensures mem64[..off + |data|] == old(mem64[..off]) + data
    {
      forall i | 0 <= i < |data| {
        mem64[off + i] := data[i];
      }
    }

    /** `XXH64_update` */
    method Update(input: Bytes)
      requires Valid()
      modifies this`totalLen, this`v, this`memsize, this`fed, mem64
      ensures Valid() && fed == old(fed) + input
    {
      hide Holds, InFlight, Trunc64, Add64, Step;
      ghost var all, pending := fed + input, mem64[..memsize];
      TruncTwice(|fed|, |input|);
      totalLen := Add64(totalLen, Trunc64(|input|));
      if memsize + |input| < 32 {
        MorePending(seed, fed, v, pending, input);
        Buffer(memsize, input);
        memsize := memsize + |input|;
        fed := all;
        return;
      }
      StartUpdate(seed, fed, v, pending, input);
      var rest := input;
      if memsize > 0 {
        Buffer(memsize, input[..32 - memsize]);
        assert mem64[..] == mem64[..32] == (pending + input)[..32];
        StripeConsumed(seed, all, v, pending + input);
        rest := input[32 - memsize..];
        assert rest == (pending + input)[32..];
        v := Step(v, mem64[..]);
        memsize := 0;
      } else {
        assert pending + input == input;
      }
      v, rest := ConsumeStripes(seed, all, v, rest);
      EndUpdate(seed, all, v, rest);
      if rest != [] {
        Buffer(0, rest);
        memsize := |rest|;
      }
      assert mem64[..memsize] == rest;
      fed := all;
    }

    /** `XXH64_digest`: the one-shot hash of all bytes fed since the last reset, as long as the
        64-bit length still tells whether a stripe was consumed. */
    method Digest() returns (h: Word64)
      requires Valid()
      ensures (totalLen >= 32 <==> |fed| >= 32) ==> h == Hash(seed, fed)
    {
      hide Holds, Converge, Xxh64Avalanche, Tail, Trunc64, Add64, Start;
      DigestParts(seed, fed, v, mem64[..memsize], totalLen);
      if totalLen >= 32 {
        h := Converge(v);
      } else {
        h := Add64(v[2], PRIME64_5);
      }
      h := Add64(h, totalLen);
      assert mem64[..][..totalLen % 32] == mem64[..memsize];
      h := Finalize(h, mem64[..], totalLen);
    }
  }

  /** The length wraps only after 2^64 bytes. */
  lemma LengthTells(n: nat)
    ensures n < 0x1_0000_0000_0000_0000 ==> (Trunc64(n) >= 32 <==> n >= 32)
  {
  }

  lemma WrappedRest(n: nat)
    ensures Trunc64(n) % 32 == n % 32
  {
  }

  lemma SeedLane(seed: Word64)
    ensures Init(seed)[2] == seed
  {
  }

  /** What a digest reads off the state; the third lane is the seed before any stripe. */
  lemma DigestParts(seed: Word64, fed: Bytes, v: Lanes, pending: Bytes, totalLen: Word64)
    requires Holds(seed, fed, v, pending) && totalLen == Trunc64(|fed|)
    ensures Start(seed, fed) == if |fed| >= 32 then Converge(v) else Add64(v[2], PRIME64_5)
    ensures pending == fed[Stripes(fed)..] && |pending| == totalLen % 32
  {
    hide Step, Converge, Trunc64, Init, Add64;
    WrappedRest(|fed|);
    assert Init(seed)[2] == seed by { SeedLane(seed); }
    if |fed| < 32 {
      assert fed[..0] == [];
    }
  }

  /** `XXH64` in size-optimised builds goes through a state. */
  method OneShotBySteps(input: Bytes, seed: Word64) returns (h: Word64)
    requires |input| < 0x1_0000_0000_0000_0000
    ensures h == Hash(seed, input)
  {
    hide Hash;
    var state := new State(seed);
    state.Update(input);
    assert [] + input == input;
    LengthTells(|input|);
    h := state.Digest();
  }
}
