/** The inline slab of a JIT inline cache: whether there is one, how large it is, which effects may
    use it, and how their code is padded to its size. */
module InlineSlab {
  import opened StripeFold
  import opened X64Nop

  const MAX_SLAB_SIZE: nat := 64
  const EXTRA_TOLERANCE: nat := 12

  /** The code of one effect that qualifies; the jump at its end may have been removed because it
      would only lead to the end of the slab. */
  datatype IcCode = IcCode(kind: nat, code: Bytes, tailJumpRemoved: bool)

  function Sizes(effects: seq<IcCode>): (s: seq<nat>)
    ensures |s| == |effects| && forall i :: 0 <= i < |s| ==> s[i] == |effects[i].code|
  {
    seq(|effects|, i requires 0 <= i < |effects| => |effects[i].code|)
  }

  /** How many sizes are at most `t`. */
  function CountUpTo(s: seq<nat>, t: nat): (n: nat)
    ensures n <= |s|
  {
    if s == [] then 0 else CountUpTo(s[..|s| - 1], t) + if s[|s| - 1] <= t then 1 else 0
  }

  // ---- sorting ----

  predicate Sorted(s: seq<nat>) {
    forall i, j :: 0 <= i < j < |s| ==> s[i] <= s[j]
  }

  lemma {:induction false} CountAppend(a: seq<nat>, b: seq<nat>, t: nat)
    ensures CountUpTo(a + b, t) == CountUpTo(a, t) + CountUpTo(b, t)
  {
    if b == [] {
      assert a + b == a;
    } else {
      assert (a + b)[..|a + b| - 1] == a + b[..|b| - 1];
      CountAppend(a, b[..|b| - 1], t);
    }
  }

  /** `std::sort` on the sizes: the same counts, in order. */
  method SortSizes(s: seq<nat>) returns (r: seq<nat>)
    ensures Sorted(r) && |r| == |s| && forall t: nat :: CountUpTo(r, t) == CountUpTo(s, t)
  {
    hide Sorted;
    r := [];
    EmptySorted();
    for i := 0 to |s|
      invariant Sorted(r) && |r| == i && forall t: nat :: CountUpTo(r, t) == CountUpTo(s[..i], t)
    {
      var j := |r|;
      while j > 0 && r[j - 1] > s[i]
        invariant 0 <= j <= |r| && forall k :: j <= k < |r| ==> r[k] > s[i]
      {
        j := j - 1;
      }
      forall t: nat ensures CountUpTo(r[..j] + [s[i]] + r[j..], t) == CountUpTo(s[..i + 1], t) {
        Inserted(r, j, s[i], t);
        assert s[..i + 1][..i] == s[..i];
      }
      InsertedSorted(r, j, s[i]);
      r := r[..j] + [s[i]] + r[j..];
    }
    assert s[..|s|] == s;
  }

  lemma EmptySorted()
    ensures Sorted([])
  {
  }

  lemma InsertedSorted(r: seq<nat>, j: nat, x: nat)
    requires Sorted(r) && j <= |r| && (j > 0 ==> r[j - 1] <= x) && forall k :: j <= k < |r| ==> r[k] > x
    ensures Sorted(r[..j] + [x] + r[j..])
  {
  }

  lemma Inserted(r: seq<nat>, j: nat, x: nat, t: nat)
    requires j <= |r|
    ensures CountUpTo(r[..j] + [x] + r[j..], t) == CountUpTo(r, t) + if x <= t then 1 else 0
  {
    CountAppend(r[..j] + [x], r[j..], t);
    CountAppend(r[..j], [x], t);
    CountAppend(r[..j], r[j..], t);
    assert r == r[..j] + r[j..] && [x][..0] == [];
  }

  /** The element at position `i` of a sorted list is the least size up to which more than `i` lie. */
  lemma RankOf(s: seq<nat>, i: nat, t: nat)
    requires Sorted(s) && i < |s|
    ensures CountUpTo(s, t) > i <==> s[i] <= t
  {
    hide CountUpTo;
    if s[i] <= t {
      assert s == s[..i + 1] + s[i + 1..];
      CountAppend(s[..i + 1], s[i + 1..], t);
      AllUpTo(s[..i + 1], t);
    } else {
      assert s == s[..i] + s[i..];
      CountAppend(s[..i], s[i..], t);
      NoneUpTo(s[i..], t);
    }
  }

  lemma {:induction false} AllUpTo(s: seq<nat>, t: nat)
    requires forall k :: 0 <= k < |s| ==> s[k] <= t
    ensures CountUpTo(s, t) == |s|
  {
    if s != [] {
      AllUpTo(s[..|s| - 1], t);
    }
  }

  lemma {:induction false} NoneUpTo(s: seq<nat>, t: nat)
    requires forall k :: 0 <= k < |s| ==> s[k] > t
    ensures CountUpTo(s, t) == 0
  {
    if s != [] {
      NoneUpTo(s[..|s| - 1], t);
    }
  }

  lemma {:induction false} CountGrows(s: seq<nat>, t: nat, u: nat)
    requires t <= u
    ensures CountUpTo(s, t) <= CountUpTo(s, u)
  {
    if s != [] {
      CountGrows(s[..|s| - 1], t, u);
    }
  }

  // ---- choosing ----

  /** The effects that fit. */
  function Fitting(effects: seq<IcCode>, size: nat): (r: seq<IcCode>)
    ensures forall e :: e in r <==> e in effects && |e.code| <= size
  {
    if effects == [] then []
    else Fitting(effects[..|effects| - 1], size)
         + if |effects[|effects| - 1].code| <= size then [effects[|effects| - 1]] else []
  }

  lemma {:induction false} FittingCount(effects: seq<IcCode>, size: nat)
    ensures |Fitting(effects, size)| == CountUpTo(Sizes(effects), size)
  {
    if effects != [] {
      FittingCount(effects[..|effects| - 1], size);
      assert Sizes(effects)[..|effects| - 1] == Sizes(effects[..|effects| - 1]);
    }
  }

  /** `threshold` is the least size that covers the required number of effects. */
  predicate IsThreshold(effects: seq<IcCode>, required: nat, threshold: nat) {
    CountUpTo(Sizes(effects), threshold) >= required
    && (threshold > 0 ==> CountUpTo(Sizes(effects), threshold - 1) < required)
  }

  function Min(x: nat, y: nat): nat { if x < y then x else y }

  /** The largest size not above `limit`. */
  method MaxUpTo(sizes: seq<nat>, limit: nat) returns (m: nat)
    ensures m <= limit && (m == 0 || m in sizes) && forall x :: x in sizes && x <= limit ==> x <= m
  {
    m := 0;
    for i := 0 to |sizes|
      invariant m <= limit && (m == 0 || m in sizes) && forall k :: 0 <= k < i && sizes[k] <= limit ==> sizes[k] <= m
    {
      if sizes[i] <= limit && m < sizes[i] {
        m := sizes[i];
      }
    }
  }

  method RemoveTooLarge(effects: seq<IcCode>, size: nat) returns (r: seq<IcCode>)
    ensures r == Fitting(effects, size)
  {
    r := [];
    for i := 0 to |effects|
      invariant r == Fitting(effects[..i], size)
    {
      assert effects[..i + 1][..i] == effects[..i];
      if !(|effects[i].code| > size) {
        r := r + [effects[i]];
      }
    }
    assert effects[..|effects|] == effects;
  }

  /** The decision: whether there is a slab, its size, and the effects that may use it. */
  method ChooseSlab(effects: seq<IcCode>, minEffectsToCover: nat) returns (use: bool, slabSize: nat, chosen: seq<IcCode>)
    requires minEffectsToCover > 0 && forall e :: e in effects ==> |e.code| >= 5
    ensures use <==> CountUpTo(Sizes(effects), 64) >= minEffectsToCover
    ensures !use ==> chosen == []
    ensures use ==> chosen == Fitting(effects, slabSize) && |chosen| >= minEffectsToCover && 5 <= slabSize <= 64
    ensures use ==> exists s: nat :: IsThreshold(effects, minEffectsToCover, s) && s <= slabSize <= Min(s + 12, 64)
                                && (forall x :: x in Sizes(effects) && x <= Min(s + 12, 64) ==> x <= slabSize)
    ensures use ==> slabSize in Sizes(effects)
  {
    use, slabSize, chosen := false, 0, [];
    var sizes := Sizes(effects);
    if |effects| < minEffectsToCover {
      return;
    }
    var icSizeList := SortSizes(sizes);
    var threshold := icSizeList[minEffectsToCover - 1];
    forall t: nat ensures CountUpTo(sizes, t) >= minEffectsToCover <==> threshold <= t {
      RankOf(icSizeList, minEffectsToCover - 1, t);
    }
    assert IsThreshold(effects, minEffectsToCover, threshold);
    if threshold > MAX_SLAB_SIZE {
      return;
    }
    var limit := Min(threshold + EXTRA_TOLERANCE, MAX_SLAB_SIZE);
    slabSize := MaxUpTo(icSizeList, limit);
    SameElements(icSizeList, sizes);
    assert threshold in icSizeList;
    CountGrows(sizes, threshold, slabSize);
    chosen := RemoveTooLarge(effects, slabSize);
    FittingCount(effects, slabSize);
    use := true;
  }

  /** Lists with the same counts have the same elements. */
  lemma SameElements(a: seq<nat>, b: seq<nat>)
    requires forall t: nat :: CountUpTo(a, t) == CountUpTo(b, t)
    ensures forall x :: x in a <==> x in b
  {
    forall x: nat ensures x in a <==> x in b {
      InCount(a, x);
      InCount(b, x);
    }
  }

  lemma {:induction false} InCount(s: seq<nat>, x: nat)
    ensures x in s <==> CountUpTo(s, x) > if x == 0 then 0 else CountUpTo(s, x - 1)
  {
    if s != [] {
      InCount(s[..|s| - 1], x);
      if x > 0 {
        CountGrows(s[..|s| - 1], x - 1, x);
      }
    }
  }

  // ---- padding ----

  /** Fills a code buffer to the slab size.  If its end would be executed and is long, a short jump is
      put in front of the NOPs. */
  method Pad(effect: IcCode, slabSize: nat) returns (code: Bytes)
    requires |effect.code| <= slabSize <= MAX_SLAB_SIZE
    ensures |code| == slabSize && effect.code <= code
    ensures Land(code, |effect.code|, slabSize) == slabSize
    ensures var n := |effect.code|;
            if effect.tailJumpRemoved && slabSize - n >= 16
            then code[n] == 0xEB && code[n + 1] == slabSize - n - 2 && code[n + 2..] == Nops(slabSize - n - 2)
            else code[n..] == Nops(slabSize - n)
  {
    hide Land, Nops;
    var buf := new Byte[slabSize](i requires 0 <= i < slabSize => if i < |effect.code| then effect.code[i] else 0);
    var nopBegin := |effect.code|;
    var bytesToFill := slabSize - nopBegin;
    assert buf[..nopBegin] == effect.code;
    if bytesToFill >= 16 && effect.tailJumpRemoved {
      buf[nopBegin] := 0xEB;
      buf[nopBegin + 1] := bytesToFill - 2;
      ghost var front := buf[..nopBegin + 2];
      FillWithNops(buf, nopBegin + 2, bytesToFill - 2);
      code := buf[..];
      assert code[..nopBegin + 2] == front && code[nopBegin] == front[nopBegin] && code[nopBegin + 1] == front[nopBegin + 1];
      assert effect.code == front[..nopBegin] == code[..nopBegin];
      JumpLands(code, nopBegin, bytesToFill);
    } else {
      FillWithNops(buf, nopBegin, bytesToFill);
      code := buf[..];
      assert code[nopBegin..nopBegin + bytesToFill] == Nops(bytesToFill);
      NopsLand(code, nopBegin, bytesToFill);
      assert code[..nopBegin] == effect.code;
    }
  }

  /** The whole slab part: every chosen effect gets code of exactly the slab size, which starts with
      its own code and is left exactly at the end when execution runs into the padding. */
  method MakeSlab(effects: seq<IcCode>, minEffectsToCover: nat) returns (slabSize: nat, chosen: seq<IcCode>, padded: seq<Bytes>)
    requires minEffectsToCover > 0 && forall e :: e in effects ==> |e.code| >= 5
    ensures |padded| == |chosen|
    ensures chosen != [] <==> CountUpTo(Sizes(effects), 64) >= minEffectsToCover
    ensures chosen == [] || (chosen == Fitting(effects, slabSize) && |chosen| >= minEffectsToCover)
    ensures forall i :: 0 <= i < |chosen| ==>
              |padded[i]| == slabSize && chosen[i].code <= padded[i] && Land(padded[i], |chosen[i].code|, slabSize) == slabSize
  {
    hide Land;
    var use;
    use, slabSize, chosen := ChooseSlab(effects, minEffectsToCover);
    padded := [];
    for i := 0 to |chosen|
      invariant |padded| == i
      invariant forall j :: 0 <= j < i ==>
        |padded[j]| == slabSize && chosen[j].code <= padded[j] && Land(padded[j], |chosen[j].code|, slabSize) == slabSize
    {
      assert chosen[i] in chosen;
      var code := Pad(chosen[i], slabSize);
      padded := padded + [code];
    }
  }
}
