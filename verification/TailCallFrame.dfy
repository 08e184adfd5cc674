/** Tail calls: the frame of the callee replaces the current one.

    When the current frame has variadic arguments the new frame starts where they start, so that any
    number of tail calls leaves the stack where it was. */
module TailCallFrame {
  import opened CallFrame

  /** The header of the replacing frame. */
  function TailHeader(m: seq<nat>, base: nat, target: nat): (h: seq<nat>)
    requires HEADER <= base <= |m|
    ensures |h| == 4
  {
    [target, m[base - 3], m[base - 2], CallSite(m, base)]
  }

  /** `MoveCallFrameHeaderForTailCall`: the header moves to the true beginning of the frame. */
  method MoveHeader(mem: array<nat>, stackBase: nat, target: nat) returns (newBase: nat)
    requires IsFrame(mem[..], stackBase)
    modifies mem
    ensures newBase == stackBase - NumVarArgs(old(mem[..]), stackBase)
    ensures mem[..] == Splice(old(mem[..]), newBase - 4, TailHeader(old(mem[..]), stackBase, target))
  {
    var numVarArgs: nat := mem[stackBase - 1] / 0x1_0000_0000;
    if numVarArgs == 0 {
      mem[stackBase - 4] := target;
      newBase := stackBase;
    } else {
      newBase := stackBase - numVarArgs;
      var caller, retAddr, info: nat := mem[stackBase - 3], mem[stackBase - 2], mem[stackBase - 1] % 0x1_0000_0000;
      mem[newBase - 4], mem[newBase - 3], mem[newBase - 2], mem[newBase - 1] := target, caller, retAddr, info;
    }
  }

  /** The new frame is ready and has replaced the current one. */
  predicate TailCalls(m0: seq<nat>, base0: nat, m: seq<nat>, base: nat, target: nat, values: seq<nat>) {
    Ready(m, base, target, values) && Replaces(m0, base0, m, base)
  }

  /** In a memory unchanged below the new header: the header, then the values, possibly with some
      slots more. */
  lemma TailCompletes(m0: seq<nat>, base0: nat, m: seq<nat>, target: nat, values: seq<nat>, extra: seq<nat>)
    requires IsFrame(m0, base0) && |m| == |m0| && base0 - NumVarArgs(m0, base0) + |values| + |extra| <= |m0|
    requires m[..TrueBegin(m0, base0)] == m0[..TrueBegin(m0, base0)]
    ensures var base := base0 - NumVarArgs(m0, base0);
            TailCalls(m0, base0, Splice(Splice(m, base - 4, TailHeader(m0, base0, target)), base, values + extra), base, target, values)
  {
    hide Splice;
    var base := base0 - NumVarArgs(m0, base0);
    var header := TailHeader(m0, base0, target);
    var m1 := Splice(m, base - 4, header);
    var r := Splice(m1, base, values + extra);
    Inside(m1, base, values + extra, base, base + |values|);
    Outside(m1, base, values + extra, 0, base);
    assert r[..base] == r[0..base] == m1[0..base] == m1[..base];
    HeaderSlots(m, base, header);
    assert r[base - 4] == r[..base][base - 4] && r[base - 3] == r[..base][base - 3];
    assert r[base - 2] == r[..base][base - 2] && r[base - 1] == r[..base][base - 1];
    Outside(m, base - 4, header, 0, base - 4);
    assert r[..base - 4] == r[..base][..base - 4] == m1[0..base - 4] == m[..base - 4];
  }

  /** In place, without variadic results: the argument range moves down. */
  method TailCallInPlace(mem: array<nat>, stackBase: nat, target: nat, argStart: nat, argNum: nat) returns (newSfBase: nat)
    requires IsFrame(mem[..], stackBase)
    requires stackBase <= argStart && argStart + Rounded(argNum) <= mem.Length
    modifies mem
    ensures TailCalls(old(mem[..]), stackBase, mem[..], newSfBase, target, old(mem[argStart..argStart + argNum]))
  {
    hide Splice, TailCalls, TailHeader;
    ghost var m0 := mem[..];
    newSfBase := MoveHeader(mem, stackBase, target);
    Outside(m0, newSfBase - 4, TailHeader(m0, stackBase, target), argStart, argStart + Rounded(argNum));
    CopyForward(mem, newSfBase, argStart, argNum);
    Joined(m0, argStart, argStart + argNum, argStart + Rounded(argNum));
    TailCompletes(m0, stackBase, m0, target, m0[argStart..argStart + argNum], m0[argStart + argNum..argStart + Rounded(argNum)]);
  }

  /** Moves the argument range, if there is one, to its place behind `base`. */
  method MoveRange(mem: array<nat>, base: nat, args: seq<Arg>)
    requires AtMostOneRange(args) && Within(args, mem.Length) && base + NumArgs(args) <= mem.Length
    modifies mem
    ensures mem[..] == RangeMoved(old(mem[..]), base, args)
  {
    hide Splice;
    var k := 0;
    while k < |args| && args[k].Single?
      invariant 0 <= k <= |args| && forall i :: 0 <= i < k ==> args[i].Single?
    {
      k := k + 1;
    }
    FirstRange(args, k);
    if k < |args| {
      OffsetsGrow(args, k);
      OffsetOfRange(args, k);
      WithinPrefix(args, mem.Length, k);
      Memmove(mem, base + k, args[k].start, args[k].num);
    }
  }

  lemma {:induction false} FirstRange(args: seq<Arg>, k: nat)
    requires k <= |args| && (forall i :: 0 <= i < k ==> args[i].Single?) && (k < |args| ==> args[k].Range?)
    ensures RangeAt(args) == k
  {
  }

  function RangeMoved(m: seq<nat>, base: nat, args: seq<Arg>): (r: seq<nat>)
    requires Within(args, |m|) && base + NumArgs(args) <= |m|
    ensures |r| == |m|
  {
    var k := RangeAt(args);
    if k < |args| then
      OffsetsGrow(args, k);
      OffsetOfRange(args, k);
      WithinPrefix(args, |m|, k);
      Splice(m, base + k, m[args[k].start..args[k].start + args[k].num])
    else m
  }

  /** With one range, moving it places all ranges. */
  lemma {:induction false} MovedIsPlaced(m: seq<nat>, base: nat, args: seq<Arg>, r: seq<nat>, k: nat)
    requires AtMostOneRange(args) && Within(args, |m|) && base + NumArgs(args) <= |m| == |r|
    requires k == RangeAt(args) || (k >= |args| && RangeAt(args) == |args|)
    requires k < |args| ==> args[k].start + args[k].num <= |m| && base + k + args[k].num <= |m|
                            && r[base + k..][..args[k].num] == m[args[k].start..args[k].start + args[k].num]
    ensures RangesPlaced(m, r, base, args)
    decreases |args|
  {
    if args != [] {
      var front := args[..|args| - 1];
      RangeOfFront(args);
      MovedIsPlaced(m, base, front, r, k);
      if args[|args| - 1].Range? {
        assert k == |args| - 1;
        OffsetOfRange(args, k);
      }
    }
  }

  lemma RangeOfFront(args: seq<Arg>)
    requires args != [] && AtMostOneRange(args)
    ensures var front := args[..|args| - 1];
            && AtMostOneRange(front)
            && (RangeAt(args) < |front| ==> RangeAt(front) == RangeAt(args))
            && (RangeAt(args) >= |front| ==> RangeAt(front) == |front|)
            && (args[|args| - 1].Range? ==> RangeAt(args) == |args| - 1)
  {
    var front := args[..|args| - 1];
    var k := RangeAt(args);
    if k < |front| {
      FirstRange(front, k);
    } else {
      FirstRange(front, |front|);
    }
    if args[|args| - 1].Range? {
      FirstRange(args, |args| - 1);
    }
  }

  lemma SpliceOver(m: seq<nat>, dst: nat, data: seq<nat>, k: nat, inner: seq<nat>)
    requires k + |inner| <= |data| && dst + |data| <= |m|
    ensures Splice(Splice(m, dst + k, inner), dst, data) == Splice(m, dst, data)
  {
  }

  lemma SplicedThere(m: seq<nat>, dst: nat, data: seq<nat>)
    requires dst + |data| <= |m|
    ensures Splice(m, dst, data)[dst..][..|data|] == data
  {
    Inside(m, dst, data, dst, dst + |data|);
    FrontOfSlice(Splice(m, dst, data), dst, dst + |data|, |m|);
  }

  lemma RangeMovedPlaced(m: seq<nat>, base: nat, args: seq<Arg>)
    requires AtMostOneRange(args) && Within(args, |m|) && base + NumArgs(args) <= |m|
    ensures RangesPlaced(m, RangeMoved(m, base, args), base, args)
  {
    hide Splice, RangesPlaced, NumArgs, Within, AtMostOneRange;
    var k, r := RangeAt(args), RangeMoved(m, base, args);
    if k < |args| {
      OffsetsGrow(args, k);
      OffsetOfRange(args, k);
      WithinPrefix(args, |m|, k);
      SplicedThere(m, base + k, m[args[k].start..args[k].start + args[k].num]);
    }
    MovedIsPlaced(m, base, args, r, k);
  }

  lemma RangeMovedUnder(m: seq<nat>, base: nat, args: seq<Arg>, data: seq<nat>)
    requires Within(args, |m|) && base + NumArgs(args) <= |m| && |data| == NumArgs(args)
    ensures Splice(RangeMoved(m, base, args), base, data) == Splice(m, base, data)
  {
    hide Splice, NumArgs, Within;
    var k := RangeAt(args);
    if k < |args| {
      OffsetsGrow(args, k);
      OffsetOfRange(args, k);
      WithinPrefix(args, |m|, k);
      SpliceOver(m, base, data, k, m[args[k].start..args[k].start + args[k].num]);
    }
  }

  /** Moving the range and then storing the single arguments writes the argument list. */
  lemma RangeThenSingles(m: seq<nat>, base: nat, args: seq<Arg>)
    requires AtMostOneRange(args) && Within(args, |m|) && base + NumArgs(args) <= |m|
    ensures PlaceSingles(RangeMoved(m, base, args), base, args) == Splice(m, base, ArgValues(m, args))
  {
    hide Splice, PlaceSingles, RangesPlaced, ArgValues, RangeMoved, NumArgs;
    RangeMovedPlaced(m, base, args);
    SinglesComplete(m, RangeMoved(m, base, args), base, args);
    RangeMovedUnder(m, base, args, ArgValues(m, args));
  }

  /** Not in place, without variadic results. */
  method TailCallNotInPlace(mem: array<nat>, stackBase: nat, target: nat, args: seq<Arg>) returns (newSfBase: nat, totalNumArgs: nat)
    requires IsFrame(mem[..], stackBase) && AtMostOneRange(args) && Within(args, mem.Length)
    requires stackBase + NumArgs(args) <= mem.Length
    requires Clear(args, TrueBegin(mem[..], stackBase), TrueBegin(mem[..], stackBase) + HEADER)
    modifies mem
    ensures totalNumArgs == NumArgs(args)
    ensures TailCalls(old(mem[..]), stackBase, mem[..], newSfBase, target, ArgValues(old(mem[..]), args))
  {
    hide Splice, TailCalls, TailHeader, PlaceSingles, RangeMoved;
    ghost var m0 := mem[..];
    newSfBase := MoveHeader(mem, stackBase, target);
    ghost var m1 := mem[..];
    SameArgs(m0, newSfBase - 4, TailHeader(m0, stackBase, target), args);
    MoveRange(mem, newSfBase, args);
    totalNumArgs := StoreSingles(mem, newSfBase, args);
    RangeThenSingles(m1, newSfBase, args);
    TailCompletes(m0, stackBase, m0, target, ArgValues(m0, args), []);
    assert ArgValues(m0, args) + [] == ArgValues(m0, args);
  }

  // ---- tail calls with variadic results ----

  lemma SpliceSwap(m: seq<nat>, i: nat, a: seq<nat>, j: nat, b: seq<nat>)
    requires i + |a| <= j && j + |b| <= |m|
    ensures Splice(Splice(m, j, b), i, a) == Splice(Splice(m, i, a), j, b)
  {
  }

  /** Setting the function of a frame without variadic arguments, and its counter to zero. */
  function HeaderSet(m: seq<nat>, base: nat, target: nat): seq<nat>
    requires HEADER <= base <= |m|
  {
    Splice(m, base - 4, TailHeader(m, base, target))
  }

  /** Sets the function, and resets the counter of variadic arguments if it is not zero already. */
  method SetHeader(mem: array<nat>, stackBase: nat, target: nat)
    requires HEADER <= stackBase <= mem.Length
    modifies mem
    ensures mem[..] == HeaderSet(old(mem[..]), stackBase, target)
  {
    mem[stackBase - 4] := target;
    if mem[stackBase - 1] / 0x1_0000_0000 != 0 {
      mem[stackBase - 1] := mem[stackBase - 1] % 0x1_0000_0000;
    }
  }

  /** `MoveCallFrameForTailCall`: the header and the arguments behind it move to the true beginning of
      the frame. */
  method MoveFrame(mem: array<nat>, stackBase: nat, target: nat, numArgs: nat) returns (newBase: nat)
    requires IsFrame(mem[..], stackBase) && stackBase - 4 + Rounded(numArgs + 4) <= mem.Length
    modifies mem
    ensures newBase == stackBase - NumVarArgs(old(mem[..]), stackBase)
    ensures var m1 := HeaderSet(old(mem[..]), stackBase, target);
            mem[..] == if newBase == stackBase then m1
                       else Splice(m1, newBase - 4, m1[stackBase - 4..stackBase - 4 + Rounded(numArgs + 4)])
  {
    hide Splice, HeaderSet;
    var numVarArgs: nat := mem[stackBase - 1] / 0x1_0000_0000;
    newBase := stackBase - numVarArgs;
    SetHeader(mem, stackBase, target);
    if numVarArgs != 0 {
      CopyForward(mem, newBase - 4, stackBase - 4, numArgs + 4);
    }
  }

  /** With the values behind the old header, moving the frame completes the tail call. */
  lemma MoveCompletes(m0: seq<nat>, base0: nat, target: nat, values: seq<nat>, extra: seq<nat>)
    requires IsFrame(m0, base0) && base0 + |values| + |extra| <= |m0|
    requires base0 - 4 + Rounded(|values| + 4) <= |m0|
    ensures var m := Splice(m0, base0, values + extra);
            var base := base0 - NumVarArgs(m0, base0);
            var m1 := HeaderSet(m, base0, target);
            && IsFrame(m, base0) && NumVarArgs(m, base0) == NumVarArgs(m0, base0)
            && TailCalls(m0, base0,
                         if base == base0 then m1 else Splice(m1, base - 4, m1[base0 - 4..base0 - 4 + Rounded(|values| + 4)]),
                         base, target, values)
  {
    hide Splice, TailCalls;
    var base := base0 - NumVarArgs(m0, base0);
    var header := TailHeader(m0, base0, target);
    var m := Splice(m0, base0, values + extra);
    OldHeader(m0, base0, target, values + extra);
    SpliceSwap(m0, base0 - 4, header, base0, values + extra);
    if base == base0 {
      TailCompletes(m0, base0, m0, target, values, extra);
    } else {
      var m1 := HeaderSet(m, base0, target);
      var n := Rounded(|values| + 4);
      SpliceMore(m0, base0 - 4, header, values + extra);
      assert m1 == Splice(m0, base0 - 4, header + (values + extra));
      MovedValues(m0, base0 - 4, header + (values + extra), header + values, n);
      var part := m1[base0 - 4..base0 - 4 + n];
      var more := part[4 + |values|..];
      assert part == part[..4 + |values|] + more == header + (values + more);
      SpliceMore(m1, base - 4, header, values + more);
      Outside(m0, base0 - 4, header + (values + extra), 0, base - 4);
      assert m1[..base - 4] == m1[0..base - 4] == m0[0..base - 4] == m0[..base - 4];
      TailCompletes(m0, base0, m1, target, values, more);
    }
  }

  lemma OldHeader(m0: seq<nat>, base0: nat, target: nat, data: seq<nat>)
    requires IsFrame(m0, base0) && base0 + |data| <= |m0|
    ensures var m := Splice(m0, base0, data);
            IsFrame(m, base0) && NumVarArgs(m, base0) == NumVarArgs(m0, base0) && TailHeader(m, base0, target) == TailHeader(m0, base0, target)
  {
  }

  lemma MovedValues(m: seq<nat>, dst: nat, data: seq<nat>, front: seq<nat>, n: nat)
    requires dst + |data| <= |m| && front <= data && |front| <= n && dst + n <= |m|
    ensures Splice(m, dst, data)[dst..dst + n][..|front|] == front
  {
    hide Splice;
    Inside(m, dst, data, dst, dst + |front|);
    var r := Splice(m, dst, data);
    FrontOfSlice(r, dst, dst + |front|, dst + n);
    assert data[dst - dst..dst + |front| - dst] == data[..|front|] == front;
  }

  /** Data written over the end of earlier data. */
  lemma SpliceTail(m: seq<nat>, dst: nat, a: seq<nat>, e: seq<nat>, b: seq<nat>)
    requires |e| <= |b| && dst + |a| + |b| <= |m|
    ensures Splice(Splice(m, dst, a + e), dst + |a|, b) == Splice(m, dst, a + b)
  {
  }

  /** The arguments copied to the frame, then the results behind them: the first copy does not reach
      the results, and what it copied too much is overwritten. */
  lemma TwoCopies(m: seq<nat>, base: nat, argStart: nat, argNum: nat, v: Results)
    requires HEADER <= base && base + HEADER <= argStart && argStart + Rounded(argNum) <= |m|
    requires v.start + Rounded(v.num) <= |m| && argStart + argNum + v.num + 2 <= |m|
    requires ResultsAt(v, base, argStart + argNum)
    ensures var m1 := Splice(m, base, m[argStart..argStart + Rounded(argNum)]);
            Splice(m1, base + argNum, m1[v.start..v.start + Rounded(v.num)])
            == Splice(m, base, m[argStart..argStart + argNum] + m[v.start..v.start + v.num] + m[v.start + v.num..v.start + Rounded(v.num)])
  {
    hide Splice;
    var args, argsExtra := m[argStart..argStart + argNum], m[argStart + argNum..argStart + Rounded(argNum)];
    var results, extra := m[v.start..v.start + v.num], m[v.start + v.num..v.start + Rounded(v.num)];
    Joined(m, argStart, argStart + argNum, argStart + Rounded(argNum));
    Joined(m, v.start, v.start + v.num, v.start + Rounded(v.num));
    Outside(m, base, args + argsExtra, v.start, v.start + Rounded(v.num));
    SpliceTail(m, base, args, argsExtra, results + extra);
    assert args + (results + extra) == args + results + extra;
  }

  /** In place, with variadic results: arguments move to the start of the frame, the results behind
      them, and then the whole frame to its true beginning. */
  method TailCallVariadicInPlace(mem: array<nat>, stackBase: nat, target: nat, argStart: nat, argNum: nat, v: Results)
    returns (newSfBase: nat, totalNumArgs: nat)
    requires IsFrame(mem[..], stackBase) && stackBase + HEADER <= argStart && argStart + Rounded(argNum) <= mem.Length
    requires v.start + Rounded(v.num) <= mem.Length && argStart + argNum + v.num + 2 <= mem.Length
    requires ResultsAt(v, stackBase, argStart + argNum)
    modifies mem
    ensures totalNumArgs == argNum + v.num
    ensures TailCalls(old(mem[..]), stackBase, mem[..], newSfBase, target,
                      old(mem[argStart..argStart + argNum]) + old(mem[v.start..v.start + v.num]))
  {
    hide Splice, TailCalls, HeaderSet;
    ghost var m0 := mem[..];
    TwoCopies(m0, stackBase, argStart, argNum, v);
    MoveCompletes(m0, stackBase, target, m0[argStart..argStart + argNum] + m0[v.start..v.start + v.num],
                  m0[v.start + v.num..v.start + Rounded(v.num)]);
    CopyForward(mem, stackBase, argStart, argNum);
    totalNumArgs := argNum + v.num;
    CopyForward(mem, stackBase + argNum, v.start, v.num);
    newSfBase := MoveFrame(mem, stackBase, target, totalNumArgs);
  }

  // ---- not in place, with variadic results ----

  /** The results are moved out of the way first when the arguments would be stored over them. */
  predicate MovesFirst(base: nat, args: seq<Arg>, v: Results) {
    base <= v.start < base + NumArgs(args)
  }

  /** The frame after moving the results if they are in the way, the argument range, the single
      arguments, and the results otherwise. */
  function VariadicPlaced(m: seq<nat>, base: nat, args: seq<Arg>, v: Results): (r: seq<nat>)
    requires Within(args, |m|) && base + NumArgs(args) + v.num <= |m| && v.start + v.num <= |m|
    ensures |r| == |m|
  {
    var dst := base + NumArgs(args);
    var m1 := if MovesFirst(base, args, v) then Splice(m, dst, m[v.start..v.start + v.num]) else m;
    var m3 := PlaceSingles(RangeMoved(m1, base, args), base, args);
    if MovesFirst(base, args, v) then m3 else Splice(m3, dst, m3[v.start..v.start + v.num])
  }

  /** Nothing is clobbered: arguments and results are side by side. */
  predicate PlacedRight(m: seq<nat>, base: nat, args: seq<Arg>, v: Results)
    requires Within(args, |m|) && base + NumArgs(args) + v.num <= |m| && v.start + v.num <= |m|
  {
    VariadicPlaced(m, base, args, v)[base..base + NumArgs(args) + v.num] == ArgValues(m, args) + m[v.start..v.start + v.num]
  }

  /** Results in the way must not be moved onto the argument range. */
  predicate SafeOrder(base: nat, args: seq<Arg>, v: Results) {
    var dst := base + NumArgs(args);
    MovesFirst(base, args, v) ==> Clear(args, dst, dst + v.num)
  }

  /** Either order is right when it is used for results that are entirely below the frame, in the way
      but with room behind them, or behind the arguments. */
  lemma SafeOrderIsRight(m: seq<nat>, base: nat, args: seq<Arg>, v: Results)
    requires AtMostOneRange(args) && Within(args, |m|) && base + NumArgs(args) + v.num <= |m| && v.start + v.num <= |m|
    requires v.start + v.num <= base || base <= v.start
    requires SafeOrder(base, args, v)
    ensures VariadicPlaced(m, base, args, v) == Splice(m, base, ArgValues(m, args) + m[v.start..v.start + v.num])
  {
    hide Splice, VariadicPlaced, ArgValues, Clear, NumArgs, Within;
    if MovesFirst(base, args, v) {
      MovedFirst(m, base, args, v);
    } else {
      CopiedLast(m, base, args, v);
    }
  }

  lemma SafeOrderIsPlacedRight(m: seq<nat>, base: nat, args: seq<Arg>, v: Results)
    requires AtMostOneRange(args) && Within(args, |m|) && base + NumArgs(args) + v.num <= |m| && v.start + v.num <= |m|
    requires v.start + v.num <= base || base <= v.start
    requires SafeOrder(base, args, v)
    ensures PlacedRight(m, base, args, v)
  {
    hide Splice, VariadicPlaced, ArgValues, NumArgs, Within, SafeOrder;
    SafeOrderIsRight(m, base, args, v);
    var values := ArgValues(m, args) + m[v.start..v.start + v.num];
    Inside(m, base, values, base, base + NumArgs(args) + v.num);
    assert values[0..NumArgs(args) + v.num] == values;
  }

  lemma MovedFirst(m: seq<nat>, base: nat, args: seq<Arg>, v: Results)
    requires AtMostOneRange(args) && Within(args, |m|) && base + NumArgs(args) + v.num <= |m| && v.start + v.num <= |m|
    requires MovesFirst(base, args, v) && Clear(args, base + NumArgs(args), base + NumArgs(args) + v.num)
    ensures VariadicPlaced(m, base, args, v) == Splice(m, base, ArgValues(m, args) + m[v.start..v.start + v.num])
  {
    hide Splice, PlaceSingles, RangeMoved, ArgValues, Clear, NumArgs, Within;
    var dst, results := base + NumArgs(args), m[v.start..v.start + v.num];
    SameArgs(m, dst, results, args);
    RangeThenSingles(Splice(m, dst, results), base, args);
    SpliceInFront(m, base, ArgValues(m, args), results);
  }

  lemma CopiedLast(m: seq<nat>, base: nat, args: seq<Arg>, v: Results)
    requires AtMostOneRange(args) && Within(args, |m|) && base + NumArgs(args) + v.num <= |m| && v.start + v.num <= |m|
    requires !MovesFirst(base, args, v) && (v.start + v.num <= base || base <= v.start)
    ensures VariadicPlaced(m, base, args, v) == Splice(m, base, ArgValues(m, args) + m[v.start..v.start + v.num])
  {
    hide Splice, PlaceSingles, RangeMoved, ArgValues, NumArgs, Within;
    var values := ArgValues(m, args);
    RangeThenSingles(m, base, args);
    Outside(m, base, values, v.start, v.start + v.num);
    SpliceMore(m, base, values, m[v.start..v.start + v.num]);
  }

  /** A stack in which every slot holds a different value. */
  function Numbered(n: nat): (m: seq<nat>)
    ensures |m| == n && forall i :: 0 <= i < n ==> m[i] == i
  {
    seq(n, i => i)
  }

  /** Moved results land on a slot of the range before the range is read. */
  lemma UnsafeOrderClobbers(n: nat, base: nat, args: seq<Arg>, v: Results)
    requires AtMostOneRange(args) && Within(args, n) && base + NumArgs(args) + v.num <= n && v.start + v.num <= n
    requires !SafeOrder(base, args, v)
    ensures !PlacedRight(Numbered(n), base, args, v)
  {
    hide Splice, ArgValues, NumArgs, Within, VariadicPlaced;
    var m := Numbered(n);
    var dst, results := base + NumArgs(args), m[v.start..v.start + v.num];
    var i := ClobberedArg(m, dst, args, v);
    MovedValuesPlaced(m, base, args, v);
    FirstPart(VariadicPlaced(m, base, args, v), base, dst, dst + v.num, ArgValues(m, args), results);
  }

  /** The arguments that are read once the results have been moved. */
  lemma MovedValuesPlaced(m: seq<nat>, base: nat, args: seq<Arg>, v: Results)
    requires AtMostOneRange(args) && Within(args, |m|) && base + NumArgs(args) + v.num <= |m| && v.start + v.num <= |m|
    requires MovesFirst(base, args, v)
    ensures var dst := base + NumArgs(args);
            VariadicPlaced(m, base, args, v)[base..dst] == ArgValues(Splice(m, dst, m[v.start..v.start + v.num]), args)
  {
    hide Splice, PlaceSingles, RangeMoved, ArgValues, NumArgs, Within;
    var dst := base + NumArgs(args);
    var m1 := Splice(m, dst, m[v.start..v.start + v.num]);
    RangeThenSingles(m1, base, args);
    Inside(m1, base, ArgValues(m1, args), base, dst);
    assert ArgValues(m1, args)[0..NumArgs(args)] == ArgValues(m1, args);
  }

  /** In a stack of different values one argument is no longer what it was. */
  lemma ClobberedArg(m: seq<nat>, dst: nat, args: seq<Arg>, v: Results) returns (i: nat)
    requires Within(args, |m|) && dst + v.num <= |m| && v.start < dst && v.start + v.num <= |m|
    requires (forall s :: 0 <= s < |m| ==> m[s] == s) && !Clear(args, dst, dst + v.num)
    ensures var m1 := Splice(m, dst, m[v.start..v.start + v.num]);
            i < NumArgs(args) && ArgValues(m1, args)[i] != ArgValues(m, args)[i]
  {
    hide Splice, ArgValues, NumArgs, Within;
    var results := m[v.start..v.start + v.num];
    var m1 := Splice(m, dst, results);
    var k := UnclearRange(args, dst, dst + v.num);
    var j := if args[k].start < dst then dst - args[k].start else 0;
    ValueInRange(m, args, k, j);
    ValueInRange(m1, args, k, j);
    var slot := args[k].start + j;
    Inside(m, dst, results, slot, slot + 1);
    assert m1[slot] == m1[slot..slot + 1][0] == results[slot - dst] == v.start + (slot - dst);
    i := Offset(args, k) + j;
  }

  lemma FirstPart(m: seq<nat>, lo: nat, mid: nat, hi: nat, a: seq<nat>, b: seq<nat>)
    requires lo <= mid <= hi <= |m| && |a| == mid - lo
    ensures m[lo..hi] == a + b ==> m[lo..mid] == a
  {
    if m[lo..hi] == a + b {
      assert m[lo..mid] == m[lo..hi][..mid - lo] == (a + b)[..|a|];
    }
  }

  /** A range that meets the slots. */
  lemma {:induction false} UnclearRange(args: seq<Arg>, lo: nat, hi: nat) returns (k: nat)
    requires !Clear(args, lo, hi) && lo <= hi
    ensures k < |args| && args[k].Range? && args[k].start < hi && lo < args[k].start + args[k].num && lo < hi && args[k].num > 0
  {
    k := |args| - 1;
    if Clear(args[..k], lo, hi) {
    } else {
      k := UnclearRange(args[..k], lo, hi);
    }
  }

  /** The fixed order is right for every stack exactly when results that are in the way are not moved
      onto the argument range. */
  lemma OrderRightIffSafe(n: nat, base: nat, args: seq<Arg>, v: Results)
    requires AtMostOneRange(args) && Within(args, n) && base + NumArgs(args) + v.num <= n && v.start + v.num <= n
    requires v.start + v.num <= base || base <= v.start
    ensures (forall m: seq<nat> :: |m| == n ==> PlacedRight(m, base, args, v)) <==> SafeOrder(base, args, v)
  {
    hide PlacedRight, SafeOrder;
    if SafeOrder(base, args, v) {
      forall m: seq<nat> | |m| == n ensures PlacedRight(m, base, args, v) {
        SafeOrderIsPlacedRight(m, base, args, v);
      }
    } else {
      UnsafeOrderClobbers(n, base, args, v);
      assert |Numbered(n)| == n;
    }
  }

  /** Results returned by an earlier call lie behind the argument range, and then the order is safe. */
  lemma BehindArgsIsSafe(base: nat, args: seq<Arg>, v: Results)
    requires Within(args, v.start)
    ensures SafeOrder(base, args, v)
  {
    var dst := base + NumArgs(args);
    if MovesFirst(base, args, v) {
      WithinMore(args, v.start, dst);
      WithinIsClear(args, dst, dst + v.num);
    }
  }

  /** Not in place, with variadic results. */
  method TailCallVariadicNotInPlace(mem: array<nat>, stackBase: nat, target: nat, args: seq<Arg>, v: Results)
    returns (newSfBase: nat, totalNumArgs: nat)
    requires IsFrame(mem[..], stackBase) && AtMostOneRange(args) && Within(args, mem.Length)
    requires stackBase + NumArgs(args) + v.num + 2 <= mem.Length && v.start + v.num <= mem.Length
    requires v.start + v.num <= stackBase || stackBase <= v.start
    requires SafeOrder(stackBase, args, v)
    modifies mem
    ensures totalNumArgs == NumArgs(args) + v.num
    ensures TailCalls(old(mem[..]), stackBase, mem[..], newSfBase, target,
                      ArgValues(old(mem[..]), args) + old(mem[v.start..v.start + v.num]))
  {
    hide Splice, TailCalls, HeaderSet, PlaceSingles, RangeMoved, ArgValues, SafeOrder, NumArgs, Within;
    ghost var m0 := mem[..];
    ghost var results := m0[v.start..v.start + v.num];
    SafeOrderIsRight(m0, stackBase, args, v);
    totalNumArgs := NumArgs(args);
    var dst := stackBase + totalNumArgs;
    var varResMoved := !(v.start < stackBase || v.start >= dst);
    if varResMoved {
      Memmove(mem, dst, v.start, v.num);
    }
    MoveRange(mem, stackBase, args);
    totalNumArgs := StoreSingles(mem, stackBase, args);
    if !varResMoved {
      Memmove(mem, dst, v.start, v.num);
    }
    totalNumArgs := totalNumArgs + v.num;
    assert mem[..] == VariadicPlaced(m0, stackBase, args, v);
    assert ArgValues(m0, args) + results + [] == ArgValues(m0, args) + results;
    MoveCompletes(m0, stackBase, target, ArgValues(m0, args) + results, []);
    newSfBase := MoveFrame(mem, stackBase, target, totalNumArgs);
  }

  // ---- entering a function that takes variadic arguments ----

  function Nils(n: nat, nil: nat): (s: seq<nat>)
    ensures |s| == n && forall i :: 0 <= i < n ==> s[i] == nil
  {
    seq(n, _ => nil)
  }

  /** What the callee finds: its fixed parameters, and the other arguments below the header. */
  predicate Entered(m0: seq<nat>, base0: nat, provided: nat, m: seq<nat>, base: nat, numFixed: nat, nil: nat)
    requires IsFrame(m0, base0) && base0 + provided <= |m0|
  {
    && IsFrame(m, base) && base + numFixed <= |m|
    && m[base - 4] == m0[base0 - 4] && m[base - 3] == m0[base0 - 3] && m[base - 2] == m0[base0 - 2]
    && CallSite(m, base) == CallSite(m0, base0)
    && NumVarArgs(m, base) == (if provided > numFixed then provided - numFixed else 0)
    && (provided <= numFixed ==>
         m[base..base + numFixed] == m0[base0..base0 + provided] + Nils(numFixed - provided, nil))
    && (provided > numFixed ==>
         && m[base..base + numFixed] == m0[base0..base0 + numFixed]
         && m[TrueBegin(m, base)..base - HEADER] == m0[base0 + numFixed..base0 + provided])
  }

  /** The arguments beyond the fixed ones: `FixupStackFrameForVariadicArgFunction` when more are
      provided than fixed parameters exist.  A second frame is built behind the arguments; after a tail
      call it is moved down over the first one. */
  method FixupVariadic(mem: array<nat>, paramStart: nat, numProvided: nat, numFixed: nat, isMustTail: bool) returns (newBase: nat)
    requires IsFrame(mem[..], paramStart) && NumVarArgs(mem[..], paramStart) == 0
    requires numFixed < numProvided && numProvided < 0x1_0000_0000
    requires paramStart + numProvided + HEADER + numFixed <= mem.Length
    modifies mem
    ensures newBase == if isMustTail then paramStart + (numProvided - numFixed) else paramStart + numProvided + HEADER
    ensures mem[..] == FixedUp(old(mem[..]), paramStart, numProvided, numFixed, isMustTail)
  {
    hide Splice;
    var callFrameBegin, newHeader := paramStart - HEADER, paramStart + numProvided;
    var numToCopy := HEADER + numFixed;
    Memmove(mem, newHeader, callFrameBegin, numToCopy);
    var numVariadicArgs := numProvided - numFixed;
    mem[newHeader + 3] := mem[newHeader + 3] % 0x1_0000_0000 + numVariadicArgs * 0x1_0000_0000;
    if isMustTail {
      Memmove(mem, callFrameBegin, callFrameBegin + numToCopy, HEADER + numProvided);
      newBase := paramStart + numVariadicArgs;
    } else {
      newBase := newHeader + HEADER;
    }
  }

  function FixedUp(m: seq<nat>, paramStart: nat, numProvided: nat, numFixed: nat, isMustTail: bool): (r: seq<nat>)
    requires HEADER <= paramStart && numFixed < numProvided && paramStart + numProvided + HEADER + numFixed <= |m|
    ensures |r| == |m|
  {
    var m1 := Splice(m, paramStart + numProvided, m[paramStart - 4..paramStart + numFixed]);
    var slot := paramStart + numProvided + 3;
    var m2 := m1[slot := m1[slot] % 0x1_0000_0000 + (numProvided - numFixed) * 0x1_0000_0000];
    if isMustTail then Splice(m2, paramStart - 4, m2[paramStart + numFixed..paramStart + numFixed + (HEADER + numProvided)]) else m2
  }

  /** The header of the second frame: that of the first with the counter set. */
  function CountedHeader(m: seq<nat>, base: nat, count: nat): (h: seq<nat>)
    requires HEADER <= base <= |m|
    ensures |h| == 4
  {
    [m[base - 4], m[base - 3], m[base - 2], CallSite(m, base) + count * 0x1_0000_0000]
  }

  /** Variadic arguments, header and fixed parameters stand side by side behind the first frame's fixed
      parameters. */
  lemma SecondFrame(m: seq<nat>, base: nat, numProvided: nat, numFixed: nat)
    requires IsFrame(m, base) && NumVarArgs(m, base) == 0 && numFixed < numProvided
    requires base + numProvided + HEADER + numFixed <= |m|
    ensures var r := FixedUp(m, base, numProvided, numFixed, false);
            var image := m[base + numFixed..base + numProvided] + CountedHeader(m, base, numProvided - numFixed) + m[base..base + numFixed];
            r == Splice(m, base + numFixed, image)
  {
    hide Splice;
    var header, fixed_ := CountedHeader(m, base, numProvided - numFixed), m[base..base + numFixed];
    var front, dst := m[base - 4..base + numFixed], base + numProvided;
    Joined(m, base - 4, base, base + numFixed);
    Inside(m, dst, front, dst + 3, dst + 4);
    assert Splice(m, dst, front)[dst + 3] == Splice(m, dst, front)[dst + 3..dst + 4][0] == front[3] == m[base - 1];
    assert front[3 := header[3]] == header + fixed_;
    SpliceUpdate(m, dst, front, 3, header[3]);
    SpliceKeptFront(m, base + numFixed, numProvided - numFixed, header + fixed_);
    var va := m[base + numFixed..base + numProvided];
    assert va + (header + fixed_) == va + header + fixed_;
  }

  lemma SpliceUpdate(m: seq<nat>, dst: nat, data: seq<nat>, k: nat, v: nat)
    requires dst + |data| <= |m| && k < |data|
    ensures Splice(m, dst, data)[dst + k := v] == Splice(m, dst, data[k := v])
  {
  }

  lemma SpliceKeptFront(m: seq<nat>, dst: nat, n: nat, data: seq<nat>)
    requires dst + n + |data| <= |m|
    ensures Splice(m, dst + n, data) == Splice(m, dst, m[dst..dst + n] + data)
  {
  }

  /** Three parts written as one image. */
  lemma ImageParts(m: seq<nat>, dst: nat, a: seq<nat>, b: seq<nat>, c: seq<nat>)
    requires dst + |a| + |b| + |c| <= |m|
    ensures var r, mid := Splice(m, dst, a + b + c), dst + |a|;
            r[dst..mid] == a && r[mid..mid + |b|] == b && r[mid + |b|..mid + |b| + |c|] == c
  {
    hide Splice;
    var image, mid := a + b + c, dst + |a|;
    assert image[..|a|] == a && image[|a|..|a| + |b|] == b && image[|a| + |b|..] == c;
    Inside(m, dst, image, dst, mid);
    Inside(m, dst, image, mid, mid + |b|);
    Inside(m, dst, image, mid + |b|, mid + |b| + |c|);
  }

  /** A frame written as one image. */
  lemma ImageEntered(m0: seq<nat>, base0: nat, provided: nat, numFixed: nat, m: seq<nat>, dst: nat, nil: nat)
    requires IsFrame(m0, base0) && NumVarArgs(m0, base0) == 0 && numFixed < provided && base0 + provided <= |m0|
    requires dst + provided + HEADER <= |m|
    ensures var image := m0[base0 + numFixed..base0 + provided] + CountedHeader(m0, base0, provided - numFixed) + m0[base0..base0 + numFixed];
            var base := dst + (provided - numFixed) + HEADER;
            && Entered(m0, base0, provided, Splice(m, dst, image), base, numFixed, nil)
            && TrueBegin(Splice(m, dst, image), base) == dst
  {
    var va, header, fixed_ := m0[base0 + numFixed..base0 + provided], CountedHeader(m0, base0, provided - numFixed), m0[base0..base0 + numFixed];
    var r, base := Splice(m, dst, va + header + fixed_), dst + (provided - numFixed) + HEADER;
    ImageParts(m, dst, va, header, fixed_);
    assert base - HEADER == dst + |va| && r[base - 4..base] == header && r[base..base + numFixed] == fixed_;
    PartsEntered(m0, base0, provided, numFixed, r, dst, nil);
  }

  lemma PartsEntered(m0: seq<nat>, base0: nat, provided: nat, numFixed: nat, r: seq<nat>, dst: nat, nil: nat)
    requires IsFrame(m0, base0) && NumVarArgs(m0, base0) == 0 && numFixed < provided && base0 + provided <= |m0|
    requires dst + provided + HEADER <= |r|
    requires var base := dst + (provided - numFixed) + HEADER;
             && r[dst..base - 4] == m0[base0 + numFixed..base0 + provided]
             && r[base - 4..base] == CountedHeader(m0, base0, provided - numFixed)
             && r[base..base + numFixed] == m0[base0..base0 + numFixed]
    ensures var base := dst + (provided - numFixed) + HEADER;
            Entered(m0, base0, provided, r, base, numFixed, nil) && TrueBegin(r, base) == dst
  {
    var base, header := dst + (provided - numFixed) + HEADER, CountedHeader(m0, base0, provided - numFixed);
    assert r[base - 4] == r[base - 4..base][0] == header[0] && r[base - 3] == r[base - 4..base][1] == header[1];
    assert r[base - 2] == r[base - 4..base][2] == header[2] && r[base - 1] == r[base - 4..base][3] == header[3];
    CountedInfo(CallSite(m0, base0), provided - numFixed);
  }

  lemma CountedInfo(site: nat, count: nat)
    requires site < 0x1_0000_0000
    ensures (site + count * 0x1_0000_0000) / 0x1_0000_0000 == count && (site + count * 0x1_0000_0000) % 0x1_0000_0000 == site
  {
  }

  /** The callee finds its parameters; after a tail call the frame still begins where it began. */
  lemma FixedUpEntered(m: seq<nat>, base: nat, numProvided: nat, numFixed: nat, isMustTail: bool, nil: nat)
    requires IsFrame(m, base) && NumVarArgs(m, base) == 0 && numFixed < numProvided
    requires base + numProvided + HEADER + numFixed <= |m|
    ensures var r := FixedUp(m, base, numProvided, numFixed, isMustTail);
            var base' := if isMustTail then base + (numProvided - numFixed) else base + numProvided + HEADER;
            && Entered(m, base, numProvided, r, base', numFixed, nil)
            && (isMustTail ==> TrueBegin(r, base') == TrueBegin(m, base) && r[..TrueBegin(m, base)] == m[..TrueBegin(m, base)])
  {
    hide Splice, Entered, FixedUp, CountedHeader;
    var image := m[base + numFixed..base + numProvided] + CountedHeader(m, base, numProvided - numFixed) + m[base..base + numFixed];
    SecondFrame(m, base, numProvided, numFixed);
    if isMustTail {
      MovedDown(m, base, numProvided, numFixed, image);
      var m2 := Splice(m, base + numFixed, image);
      Outside(m2, base - 4, image, 0, base - 4);
      Outside(m, base + numFixed, image, 0, base - 4);
      var r := Splice(m2, base - 4, image);
      assert r[..base - 4] == r[0..base - 4] == m2[0..base - 4] == m[0..base - 4] == m[..base - 4];
      ImageEntered(m, base, numProvided, numFixed, m2, base - 4, nil);
    } else {
      ImageEntered(m, base, numProvided, numFixed, m, base + numFixed, nil);
    }
  }

  lemma MovedDown(m: seq<nat>, base: nat, numProvided: nat, numFixed: nat, image: seq<nat>)
    requires HEADER <= base && numFixed < numProvided && base + numProvided + HEADER + numFixed <= |m|
    requires |image| == numProvided + HEADER && FixedUp(m, base, numProvided, numFixed, false) == Splice(m, base + numFixed, image)
    ensures FixedUp(m, base, numProvided, numFixed, true) == Splice(Splice(m, base + numFixed, image), base - 4, image)
  {
    hide Splice;
    Inside(m, base + numFixed, image, base + numFixed, base + numFixed + (HEADER + numProvided));
    assert image[0..HEADER + numProvided] == image;
  }

  /** The padding of missing parameters, one slot at a time. */
  method PadWithNil(mem: array<nat>, paramStart: nat, numProvided: nat, numFixed: nat, nil: nat)
    requires IsFrame(mem[..], paramStart) && numProvided <= numFixed && paramStart + numFixed <= mem.Length
    requires NumVarArgs(mem[..], paramStart) == 0
    modifies mem
    ensures mem[..] == Splice(old(mem[..]), paramStart + numProvided, Nils(numFixed - numProvided, nil))
    ensures Entered(old(mem[..]), paramStart, numProvided, mem[..], paramStart, numFixed, nil)
  {
    hide Splice, Entered;
    ghost var m0 := mem[..];
    var n := numProvided;
    SpliceNothing(m0, paramStart + numProvided);
    ghost var nils: seq<nat> := [];
    while n < numFixed
      invariant numProvided <= n <= numFixed && |nils| == n - numProvided && forall i :: 0 <= i < |nils| ==> nils[i] == nil
      invariant mem[..] == Splice(m0, paramStart + numProvided, nils)
    {
      SpliceOne(m0, paramStart + numProvided, nils, nil);
      mem[paramStart + n] := nil;
      nils := nils + [nil];
      n := n + 1;
    }
    assert nils == Nils(numFixed - numProvided, nil);
    PaddedEntered(m0, paramStart, numProvided, numFixed, nils, nil);
  }

  lemma PaddedEntered(m: seq<nat>, base: nat, provided: nat, numFixed: nat, nils: seq<nat>, nil: nat)
    requires IsFrame(m, base) && NumVarArgs(m, base) == 0 && provided <= numFixed && base + numFixed <= |m|
    requires nils == Nils(numFixed - provided, nil)
    ensures Entered(m, base, provided, Splice(m, base + provided, nils), base, numFixed, nil)
  {
    hide Splice, Nils;
    BehindHeader(m, base, base + provided, nils);
    PaddedParams(m, base, provided, numFixed, nils);
  }

  /** Writing behind a frame's header leaves the header alone. */
  lemma BehindHeader(m: seq<nat>, base: nat, dst: nat, data: seq<nat>)
    requires HEADER <= base <= dst && dst + |data| <= |m|
    ensures var r := Splice(m, dst, data);
            r[base - 4] == m[base - 4] && r[base - 3] == m[base - 3] && r[base - 2] == m[base - 2] && r[base - 1] == m[base - 1]
  {
  }

  lemma PaddedParams(m: seq<nat>, base: nat, provided: nat, numFixed: nat, nils: seq<nat>)
    requires base + numFixed <= |m| && provided <= numFixed && |nils| == numFixed - provided
    ensures Splice(m, base + provided, nils)[base..base + numFixed] == m[base..base + provided] + nils
  {
    hide Splice;
    var r := Splice(m, base + provided, nils);
    Outside(m, base + provided, nils, base, base + provided);
    Inside(m, base + provided, nils, base + provided, base + numFixed);
    Joined(r, base, base + provided, base + numFixed);
    assert nils[0..numFixed - provided] == nils;
  }
}
