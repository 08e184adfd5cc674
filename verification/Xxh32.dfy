/** XXH32: the one-shot hash and its streaming form.

    The streaming state counts the total length modulo 2^32 and remembers separately whether it
    ever reached 16, so it agrees with the one-shot hash however many bytes are fed. */
module Xxh32 {
  import opened Bits
  import opened StripeFold
  import opened XxhWords

  type Lanes = v: seq<Word32> | |v| == 4 witness [0, 0, 0, 0]

  // ---- specification ----

  function Sub32(x: Word32, y: Word32): Word32 { Trunc32(x - y) }

  function Round(acc: Word32, input: Word32): Word32 {
    Mul32(Rotl32(Add32(acc, Mul32(input, PRIME32_2)), 13), PRIME32_1)
  }

  function Step(v: Lanes, stripe: Bytes): Lanes {
    if |stripe| == 16
    then [Round(v[0], ReadLE32(stripe)), Round(v[1], ReadLE32(stripe[4..])),
          Round(v[2], ReadLE32(stripe[8..])), Round(v[3], ReadLE32(stripe[12..]))]
    else v
  }

  function Init(seed: Word32): Lanes {
    [Add32(Add32(seed, PRIME32_1), PRIME32_2), Add32(seed, PRIME32_2), seed, Sub32(seed, PRIME32_1)]
  }

  function Converge(v: Lanes): Word32 {
    Add32(Add32(Add32(Rotl32(v[0], 1), Rotl32(v[1], 7)), Rotl32(v[2], 12)), Rotl32(v[3], 18))
  }

  function XorShift32(x: Word32, k: nat): Word32 {
    assert Shr(x, k) <= x by { ShrAtMost(x, k); }
    Xor32(x, Shr(x, k))
  }

  function Avalanche(h: Word32): Word32 {
    XorShift32(Mul32(XorShift32(Mul32(XorShift32(h, 15), PRIME32_2), 13), PRIME32_3), 16)
  }

  function Process4(h: Word32, p: Bytes): Word32
    requires |p| >= 4
  {
    Mul32(Rotl32(Add32(h, Mul32(ReadLE32(p), PRIME32_3)), 17), PRIME32_4)
  }

  function Process1(h: Word32, b: Byte): Word32 {
    Mul32(Rotl32(Add32(h, Mul32(b, PRIME32_5)), 11), PRIME32_1)
  }

  /** The bytes after the last full stripe: words while there are four bytes left, then bytes. */
  function Tail(h: Word32, p: Bytes): Word32
    decreases |p|
  {
    if |p| >= 4 then Tail(Process4(h, p), p[4..])
    else if |p| > 0 then Tail(Process1(h, p[0]), p[1..])
    else h
  }

  function Stripes(data: Bytes): nat {
    |data| / 16 * 16
  }

  function Consumed(seed: Word32, data: Bytes): Lanes {
    Fold(Step, Init(seed), 16, data)
  }

  function Start(seed: Word32, data: Bytes): Word32 {
    if |data| >= 16 then Converge(Consumed(seed, data[..Stripes(data)])) else Add32(seed, PRIME32_5)
  }

  function Hash(seed: Word32, data: Bytes): Word32 {
    Avalanche(Tail(Add32(Start(seed, data), Trunc32(|data|)), data[Stripes(data)..]))
  }

  /** `v` is the result of consuming the first `c` bytes of `data`, whole stripes. */
  ghost predicate Reached(seed: Word32, data: Bytes, c: nat, v: Lanes) {
    c <= |data| && c % 16 == 0 && v == Consumed(seed, data[..c])
  }

  lemma OneMoreStripe(seed: Word32, data: Bytes, c: nat, v: Lanes)
    requires Reached(seed, data, c, v) && c + 16 <= |data|
    ensures Reached(seed, data, c + 16, Step(v, data[c..c + 16]))
  {
    hide Step;
    var d := data[..c + 16];
    assert d[..|d| - 16] == data[..c] && d[|d| - 16..] == data[c..c + 16];
  }

  lemma NothingReached(seed: Word32, data: Bytes)
    ensures Reached(seed, data, 0, Init(seed))
  {
  }

  // ---- finalisation, in both forms ----

  /** The rerolled loops. */
  method FinalizeRerolled(hash: Word32, ptr: Bytes, length: nat) returns (h: Word32)
    requires |ptr| >= length % 16
    ensures h == Avalanche(Tail(hash, ptr[..length % 16]))
  {
    hide Avalanche, Process4, Process1;
    var len := length % 16;
    var p := ptr[..len];
    h := hash;
    while len >= 4
      invariant len == |p| && Tail(h, p) == Tail(hash, ptr[..length % 16])
    {
      h := Process4(h, p);
      p := p[4..];
      len := len - 4;
    }
    while len > 0
      invariant len == |p| < 4 && Tail(h, p) == Tail(hash, ptr[..length % 16])
    {
      h := Process1(h, p[0]);
      p := p[1..];
      len := len - 1;
    }
    h := Avalanche(h);
  }

  method Take4(h: Word32, p: Bytes) returns (h': Word32, p': Bytes)
    requires |p| >= 4
    ensures Tail(h', p') == Tail(h, p) && p' == p[4..]
  {
    hide Process4, Process1;
    h', p' := Process4(h, p), p[4..];
  }

  method Take1(h: Word32, p: Bytes) returns (h': Word32, p': Bytes)
    requires 0 < |p| < 4
    ensures Tail(h', p') == Tail(h, p) && p' == p[1..]
  {
    hide Process4, Process1;
    h', p' := Process1(h, p[0]), p[1..];
  }

  /** The jump table: one entry per remaining length, each falling through to the next. */
  method FinalizeSwitch(hash: Word32, ptr: Bytes, length: nat) returns (h: Word32)
    requires |ptr| >= length % 16
    ensures h == Avalanche(Tail(hash, ptr[..length % 16]))
  {
    hide Avalanche, Process4, Process1;
    var n := length % 16;
    var p := ptr[..n];
    h := hash;
    if n in [12, 8, 4] {
      if n == 12 { h, p := Take4(h, p); }
      if n in [12, 8] { h, p := Take4(h, p); }
      h, p := Take4(h, p);
    } else if n in [13, 9, 5] {
      if n == 13 { h, p := Take4(h, p); }
      if n in [13, 9] { h, p := Take4(h, p); }
      h, p := Take4(h, p);
      h, p := Take1(h, p);
    } else if n in [14, 10, 6] {
      if n == 14 { h, p := Take4(h, p); }
      if n in [14, 10] { h, p := Take4(h, p); }
      h, p := Take4(h, p);
      h, p := Take1(h, p);
      h, p := Take1(h, p);
    } else {
      if n == 15 { h, p := Take4(h, p); }
      if n in [15, 11] { h, p := Take4(h, p); }
      if n in [15, 11, 7] { h, p := Take4(h, p); }
      if n in [15, 11, 7, 3] { h, p := Take1(h, p); }
      if n in [15, 11, 7, 3, 2] { h, p := Take1(h, p); }
      if n in [15, 11, 7, 3, 2, 1] { h, p := Take1(h, p); }
    }
    h := Avalanche(h);
  }

  // ---- one shot ----

  /** The loop over whole stripes; it runs at least once. */
  method ConsumeAll(input: Bytes, seed: Word32) returns (v: Lanes, p: nat)
    requires |input| >= 16
    ensures p == Stripes(input) && v == Consumed(seed, input[..p])
  {
    hide Step, Consumed, Init;
    var limit := |input| - 15;
    v := Init(seed);
    NothingReached(seed, input);
    OneMoreStripe(seed, input, 0, v);
    v, p := Step(v, input[0..16]), 16;
    while p < limit
      invariant Reached(seed, input, p, v)
    {
      OneMoreStripe(seed, input, p, v);
      v, p := Step(v, input[p..p + 16]), p + 16;
    }
  }

  /** `XXH32_endian_align` */
  method OneShot(input: Bytes, seed: Word32) returns (h: Word32)
    ensures h == Hash(seed, input)
  {
    hide Consumed, Converge, Avalanche, Tail, Trunc32, Add32;
    var p := 0;
    if |input| >= 16 {
      var v;
      v, p := ConsumeAll(input, seed);
      h := Converge(v);
    } else {
      h := Add32(seed, PRIME32_5);
    }
    h := Add32(h, Trunc32(|input|));
    assert |input| % 16 == |input| - p;
    assert input[p..][..|input| % 16] == input[p..];
    h := FinalizeRerolled(h, input[p..], |input| % 16);
  }

  // ---- streaming ----

  /** Everything but the `pending` bytes has been consumed, and less than a stripe is pending. */
  ghost predicate Holds(seed: Word32, fed: Bytes, v: Lanes, pending: Bytes) {
    && |pending| == |fed| % 16
    && pending == fed[|fed| - |pending|..]
    && Reached(seed, fed, |fed| - |pending|, v)
  }

  /** The length modulo 2^32, and whether the true length ever reached 16. */
  ghost predicate Counts(n: nat, totalLen32: Word32, largeLen: Word32) {
    totalLen32 == Trunc32(n) && largeLen == (if n >= 16 then 1 else 0)
  }

  lemma FreshState(seed: Word32)
    ensures Holds(seed, [], Init(seed), []) && Counts(0, 0, 0)
  {
    hide Init;
    NothingReached(seed, []);
  }

  /** The two counters after `len` more bytes: the length wraps, the flag does not, and it is set
      on time because a length below 16 cannot wrap in one small step. */
  method CountLength(ghost n: nat, totalLen32: Word32, largeLen: Word32, len: nat) returns (total': Word32, large': Word32)
    requires Counts(n, totalLen32, largeLen)
    ensures Counts(n + len, total', large')
  {
    hide Trunc32, Add32;
    TruncTwice(n, len);
    FirstTime16(n, len);
    total' := Add32(totalLen32, Trunc32(len));
    large' := if len >= 16 || total' >= 16 then 1 else largeLen;
  }

  lemma FirstTime16(n: nat, len: nat)
    ensures n < 16 ==> (len >= 16 || Trunc32(n + len) >= 16 <==> n + len >= 16)
  {
  }

  lemma TruncTwice(a: nat, b: nat)
    ensures Add32(Trunc32(a), Trunc32(b)) == Trunc32(a + b)
  {
  }

  /** A short input only joins the pending bytes. */
  lemma MorePending(seed: Word32, fed: Bytes, v: Lanes, pending: Bytes, input: Bytes)
    requires Holds(seed, fed, v, pending) && |pending| + |input| < 16
    ensures Holds(seed, fed + input, v, pending + input)
  {
    hide Step, Init;
    var c := |fed| - |pending|;
    assert (fed + input)[..c] == fed[..c] && (fed + input)[c..] == pending + input;
  }

  /** In the middle of an update: of all bytes, `rest` is still to be consumed or buffered. */
  ghost predicate InFlight(seed: Word32, all: Bytes, v: Lanes, rest: Bytes) {
    && |rest| <= |all| && rest == all[|all| - |rest|..]
    && Reached(seed, all, |all| - |rest|, v)
  }

  lemma StartUpdate(seed: Word32, fed: Bytes, v: Lanes, pending: Bytes, input: Bytes)
    requires Holds(seed, fed, v, pending)
    ensures InFlight(seed, fed + input, v, pending + input)
  {
    hide Step, Init;
    var c := |fed| - |pending|;
    assert (fed + input)[..c] == fed[..c] && (fed + input)[c..] == pending + input;
  }

  lemma StripeConsumed(seed: Word32, all: Bytes, v: Lanes, rest: Bytes)
    requires InFlight(seed, all, v, rest) && |rest| >= 16
    ensures InFlight(seed, all, Step(v, rest[..16]), rest[16..])
  {
    hide Step, Init;
    var c := |all| - |rest|;
    assert all[c..c + 16] == rest[..16];
    OneMoreStripe(seed, all, c, v);
  }

  lemma EndUpdate(seed: Word32, all: Bytes, v: Lanes, rest: Bytes)
    requires InFlight(seed, all, v, rest) && |rest| < 16
    ensures Holds(seed, all, v, rest)
  {
    hide Step, Init, Consumed;
  }

  /** Consumes whole stripes while there are any. */
  method ConsumeStripes(ghost seed: Word32, ghost all: Bytes, v: Lanes, input: Bytes) returns (v': Lanes, rest: Bytes)
    requires InFlight(seed, all, v, input)
    ensures InFlight(seed, all, v', rest) && |rest| < 16
  {
    hide Step, InFlight;
    v', rest := v, input;
    while 16 <= |rest|
      invariant InFlight(seed, all, v', rest)
    {
      StripeConsumed(seed, all, v', rest);
      v', rest := Step(v', rest[..16]), rest[16..];
    }
  }

  class State {
    var totalLen32: Word32
    var largeLen: Word32
    var v: Lanes
    const mem32: array<Byte>
    var memsize: nat

    ghost var seed: Word32
    ghost var fed: Bytes

    ghost predicate Valid()
      reads this, mem32
    {
      && mem32.Length == 16 && memsize < 16
      && Holds(seed, fed, v, mem32[..memsize])
      && Counts(|fed|, totalLen32, largeLen)
    }

    /** Allocates a state and resets it with `seed`. */
    constructor (seed: Word32)
      ensures Valid() && fresh(mem32) && this.seed == seed && fed == []
    {
      hide Holds, Counts, Init;
      mem32 := new Byte[16];
      totalLen32, largeLen, memsize := 0, 0, 0;
      v := Init(seed);
      this.seed, fed := seed, [];
      new;
      FreshState(seed);
      assert mem32[..0] == [];
    }

    method Reset(seed: Word32)
      requires mem32.Length == 16
      modifies this
      ensures Valid() && this.seed == seed && fed == []
    {
      hide Holds, Counts, Init;
      totalLen32, largeLen, memsize := 0, 0, 0;
      v := Init(seed);
      this.seed, fed := seed, [];
      FreshState(seed);
      assert mem32[..0] == [];
    }

    method Buffer(off: nat, data: Bytes)
      requires mem32.Length == 16 && off + |data| <= 16
      modifies mem32
      ensures mem32[..off + |data|] == old(mem32[..off]) + data
    {
      forall i | 0 <= i < |data| {
        mem32[off + i] := data[i];
      }
    }

    /** `XXH32_update` */
    method Update(input: Bytes)
      requires Valid()
      modifies this`totalLen32, this`largeLen, this`v, this`memsize, this`fed, mem32
      ensures Valid() && fed == old(fed) + input
    {
      hide Holds, InFlight, Counts, Step;
      ghost var all, pending := fed + input, mem32[..memsize];
      totalLen32, largeLen := CountLength(|fed|, totalLen32, largeLen, |input|);
      if memsize + |input| < 16 {
        MorePending(seed, fed, v, pending, input);
        Buffer(memsize, input);
        memsize := memsize + |input|;
        fed := all;
        return;
      }
      StartUpdate(seed, fed, v, pending, input);
      var rest := input;
      if memsize > 0 {
        Buffer(memsize, input[..16 - memsize]);
        assert mem32[..] == mem32[..16] == (pending + input)[..16];
        StripeConsumed(seed, all, v, pending + input);
        rest := input[16 - memsize..];
        assert rest == (pending + input)[16..];
        v := Step(v, mem32[..]);
        memsize := 0;
      } else {
        assert pending + input == input;
      }
      v, rest := ConsumeStripes(seed, all, v, rest);
      EndUpdate(seed, all, v, rest);
      if rest != [] {
        Buffer(0, rest);
        memsize := |rest|;
      }
      assert mem32[..memsize] == rest;
      fed := all;
    }

    /** `XXH32_digest`: the one-shot hash of all bytes fed since the last reset. */
    method Digest() returns (h: Word32)
      requires Valid()
      ensures h == Hash(seed, fed)
    {
      hide Holds, Counts, Converge, Avalanche, Tail, Trunc32, Add32, Start;
      DigestParts(seed, fed, v, mem32[..memsize], totalLen32, largeLen);
      if largeLen != 0 {
        h := Converge(v);
      } else {
        h := Add32(v[2], PRIME32_5);
      }
      h := Add32(h, totalLen32);
      assert mem32[..][..memsize % 16] == mem32[..memsize];
      h := FinalizeRerolled(h, mem32[..], memsize);
    }
  }

  /** What a digest reads off the state; the third lane is the seed before any stripe. */
  lemma DigestParts(seed: Word32, fed: Bytes, v: Lanes, pending: Bytes, totalLen32: Word32, largeLen: Word32)
    requires Holds(seed, fed, v, pending) && Counts(|fed|, totalLen32, largeLen)
    ensures Start(seed, fed) == if largeLen != 0 then Converge(v) else Add32(v[2], PRIME32_5)
    ensures totalLen32 == Trunc32(|fed|) && pending == fed[Stripes(fed)..]
  {
    hide Step, Converge, Trunc32;
    if |fed| < 16 {
      assert fed[..0] == [];
    }
  }

  /** `XXH32` in size-optimised builds goes through a state. */
  method OneShotBySteps(input: Bytes, seed: Word32) returns (h: Word32)
    ensures h == Hash(seed, input)
  {
    hide State.Valid, Hash;
    var state := new State(seed);
    state.Update(input);
    assert [] + input == input;
    h := state.Digest();
  }
}
