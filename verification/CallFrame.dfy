/** Setting up the stack frame of a call: a parallel move inside one array of stack slots.

    The arguments (single values, at most one range of slots, and possibly the variadic results of an
    earlier call) must end up side by side in the new frame although source and destination regions
    may overlap, and for a tail call the new frame replaces the current one. */
module CallFrame {

  /** Slots of a frame header: function, caller frame, return address, and call site information with
      the number of variadic arguments in its high half. */
  const HEADER: nat := 4

  datatype Arg = Single(value: nat) | Range(start: nat, num: nat)

  /** The variadic results passed after the arguments. */
  datatype Results = Results(start: nat, num: nat)

  // ---- memory ----

  /** Memory with `data` written at `dst`. */
  function Splice(m: seq<nat>, dst: nat, data: seq<nat>): (r: seq<nat>)
    requires dst + |data| <= |m|
    ensures |r| == |m|
  {
    m[..dst] + data + m[dst + |data|..]
  }

  lemma Inside(m: seq<nat>, dst: nat, data: seq<nat>, lo: nat, hi: nat)
    requires dst + |data| <= |m| && dst <= lo <= hi <= dst + |data|
    ensures Splice(m, dst, data)[lo..hi] == data[lo - dst..hi - dst]
  {
  }

  lemma Outside(m: seq<nat>, dst: nat, data: seq<nat>, lo: nat, hi: nat)
    requires dst + |data| <= |m| && lo <= hi <= |m| && (hi <= dst || dst + |data| <= lo)
    ensures Splice(m, dst, data)[lo..hi] == m[lo..hi]
  {
  }

  lemma Joined(m: seq<nat>, lo: nat, mid: nat, hi: nat)
    requires lo <= mid <= hi <= |m|
    ensures m[lo..hi] == m[lo..mid] + m[mid..hi]
  {
  }

  lemma FrontOfSlice(m: seq<nat>, lo: nat, mid: nat, hi: nat)
    requires lo <= mid <= hi <= |m|
    ensures m[lo..hi][..mid - lo] == m[lo..mid]
  {
    var a, b := m[lo..hi][..mid - lo], m[lo..mid];
    forall k | 0 <= k < mid - lo ensures a[k] == b[k] {
      assert a[k] == m[lo..hi][k] == m[lo + k];
    }
    assert |a| == |b|;
  }

  /** Data written behind data. */
  lemma SpliceMore(m: seq<nat>, dst: nat, data: seq<nat>, more: seq<nat>)
    requires dst + |data| + |more| <= |m|
    ensures Splice(Splice(m, dst, data), dst + |data|, more) == Splice(m, dst, data + more)
  {
  }

  lemma SpliceNothing(m: seq<nat>, dst: nat)
    requires dst <= |m|
    ensures Splice(m, dst, []) == m
  {
  }

  lemma SpliceOne(m: seq<nat>, dst: nat, data: seq<nat>, value: nat)
    requires dst + |data| < |m|
    ensures Splice(m, dst, data)[dst + |data| := value] == Splice(m, dst, data + [value])
  {
  }

  /** Writing what is already there. */
  lemma SpliceKept(m: seq<nat>, dst: nat, data: seq<nat>, num: nat)
    requires dst + |data| + num <= |m|
    ensures Splice(m, dst, data) == Splice(m, dst, data + m[dst + |data|..][..num])
  {
  }

  method Memmove(mem: array<nat>, dst: nat, src: nat, n: nat)
    requires dst + n <= mem.Length && src + n <= mem.Length
    modifies mem
    ensures mem[..] == Splice(old(mem[..]), dst, old(mem[src..src + n]))
  {
    forall i | 0 <= i < n {
      mem[dst + i] := mem[src + i];
    }
  }

  /** Copies go in pairs of slots, at least one pair. */
  function Rounded(n: nat): nat {
    if n == 0 then 2 else n + n % 2
  }

  /** The hand-written left-to-right copy: two slots are read, then two slots are written, until at
      least `n` are copied.  It may copy one slot too many (two for `n == 0`), and is a move whenever
      the destination does not start inside the source. */
  method CopyForward(mem: array<nat>, dst: nat, src: nat, n: nat)
    requires dst + Rounded(n) <= mem.Length && src + Rounded(n) <= mem.Length
    requires dst <= src || src + Rounded(n) <= dst
    modifies mem
    ensures mem[..] == Splice(old(mem[..]), dst, old(mem[src..src + Rounded(n)]))
  {
    hide Splice;
    ghost var was := mem[..];
    SpliceNothing(was, dst);
    assert was[src..src + 0] == [];
    var i := 0;
    while true
      invariant 0 <= i < Rounded(n) && i % 2 == 0
      invariant mem[..] == Splice(was, dst, was[src..src + i])
      decreases Rounded(n) - i
    {
      Outside(was, dst, was[src..src + i], src + i, src + i + 2);
      assert mem[..][src + i..src + i + 2] == was[src + i..src + i + 2];
      SpliceMore(was, dst, was[src..src + i], was[src + i..src + i + 2]);
      Joined(was, src, src + i, src + (i + 2));
      CopyPair(mem, dst + i, src + i);
      i := i + 2;
      if !(i < n) {
        break;
      }
    }
  }

  /** Sixteen bytes are loaded before they are stored. */
  method CopyPair(mem: array<nat>, dst: nat, src: nat)
    requires dst + 2 <= mem.Length && src + 2 <= mem.Length
    modifies mem
    ensures mem[..] == Splice(old(mem[..]), dst, old(mem[src..src + 2]))
  {
    var first, second := mem[src], mem[src + 1];
    mem[dst], mem[dst + 1] := first, second;
  }

  // ---- arguments ----

  function NumArgs(args: seq<Arg>): nat {
    if args == [] then 0
    else
      NumArgs(args[..|args| - 1]) + if args[|args| - 1].Single? then 1 else args[|args| - 1].num
  }

  /** Argument ranges end at or before `limit`. */
  predicate Within(args: seq<Arg>, limit: nat) {
    if args == [] then true
    else Within(args[..|args| - 1], limit) && (args[|args| - 1].Range? ==> args[|args| - 1].start + args[|args| - 1].num <= limit)
  }

  lemma {:induction false} WithinMore(args: seq<Arg>, limit: nat, more: nat)
    requires Within(args, limit) && limit <= more
    ensures Within(args, more)
  {
    if args != [] {
      WithinMore(args[..|args| - 1], limit, more);
    }
  }

  lemma {:induction false} WithinPrefix(args: seq<Arg>, limit: nat, k: nat)
    requires Within(args, limit) && k <= |args|
    ensures Within(args[..k], limit)
    ensures k < |args| && args[k].Range? ==> args[k].start + args[k].num <= limit
    decreases |args|
  {
    if k < |args| {
      WithinPrefix(args[..|args| - 1], limit, if k < |args| - 1 then k else |args| - 1);
      if k < |args| - 1 {
        assert args[..|args| - 1][..k] == args[..k];
      } else {
        assert args[..|args| - 1][..|args| - 1] == args[..k];
      }
    } else {
      assert args[..k] == args;
    }
  }

  /** The values the arguments stand for. */
  function ArgValues(m: seq<nat>, args: seq<Arg>): (vs: seq<nat>)
    requires Within(args, |m|)
    ensures |vs| == NumArgs(args)
  {
    if args == [] then []
    else
      var last := args[|args| - 1];
      ArgValues(m, args[..|args| - 1]) + if last.Single? then [last.value] else m[last.start..last.start + last.num]
  }

  function Offset(args: seq<Arg>, k: nat): nat
    requires k <= |args|
  {
    NumArgs(args[..k])
  }

  lemma {:induction false} OffsetsGrow(args: seq<Arg>, k: nat)
    requires k < |args|
    ensures Offset(args, k) + (if args[k].Single? then 1 else args[k].num) == Offset(args, k + 1) <= NumArgs(args)
    decreases |args|
  {
    assert args[..k + 1][..k] == args[..k];
    if k + 1 < |args| {
      var rest := args[..|args| - 1];
      OffsetsGrow(rest, k);
      assert rest[..k] == args[..k] && rest[..k + 1] == args[..k + 1];
    } else {
      assert args[..k + 1] == args;
    }
  }

  /** A range stands for its slots. */
  lemma {:induction false} ValueInRange(m: seq<nat>, args: seq<Arg>, k: nat, j: nat)
    requires Within(args, |m|) && k < |args| && args[k].Range? && j < args[k].num
    ensures args[k].start + args[k].num <= |m| && Offset(args, k) + j < NumArgs(args)
    ensures ArgValues(m, args)[Offset(args, k) + j] == m[args[k].start + j]
    decreases |args|
  {
    hide Within, NumArgs;
    WithinPrefix(args, |m|, k);
    OffsetsGrow(args, k);
    WithinPrefix(args, |m|, |args| - 1);
    var front := args[..|args| - 1];
    if k < |front| {
      ValueInRange(m, front, k, j);
      assert front[..k] == args[..k];
    } else {
      assert args[..k] == front;
    }
  }

  /** A single argument is one value; with the ranges this makes up the whole list, as the offsets of
      consecutive arguments are a value or a range apart. */
  lemma {:induction false} ValueOfSingle(m: seq<nat>, args: seq<Arg>, k: nat)
    requires Within(args, |m|) && k < |args| && args[k].Single?
    ensures Offset(args, k) < NumArgs(args)
    ensures ArgValues(m, args)[Offset(args, k)] == args[k].value
    decreases |args|
  {
    hide Within, NumArgs;
    WithinPrefix(args, |m|, k);
    OffsetsGrow(args, k);
    WithinPrefix(args, |m|, |args| - 1);
    var front := args[..|args| - 1];
    if k < |front| {
      ValueOfSingle(m, front, k);
      assert front[..k] == args[..k];
    } else {
      assert args[..k] == front;
    }
  }

  predicate AtMostOneRange(args: seq<Arg>) {
    forall i, j :: 0 <= i < j < |args| ==> args[i].Single? || args[j].Single?
  }

  /** The index of the argument range, or the number of arguments. */
  function RangeAt(args: seq<Arg>): (k: nat)
    ensures k <= |args| && (k < |args| ==> args[k].Range?) && forall i :: 0 <= i < k ==> args[i].Single?
  {
    if args == [] || args[0].Range? then 0 else 1 + RangeAt(args[1..])
  }

  lemma OffsetOfRange(args: seq<Arg>, k: nat)
    requires k <= |args| && forall i :: 0 <= i < k ==> args[i].Single?
    ensures Offset(args, k) == k
  {
    if k > 0 {
      OffsetOfRange(args, k - 1);
      OffsetsGrow(args, k - 1);
    }
  }

  // ---- storing the single arguments ----

  function PlaceSingles(m: seq<nat>, base: nat, args: seq<Arg>): (r: seq<nat>)
    requires base + NumArgs(args) <= |m|
    ensures |r| == |m|
  {
    if args == [] then m
    else
      var front := args[..|args| - 1];
      var p := PlaceSingles(m, base, front);
      if args[|args| - 1].Single? then p[base + NumArgs(front) := args[|args| - 1].value] else p
  }

  /** Ranges are where they belong relative to `base`, with the values they had in `m0`. */
  predicate RangesPlaced(m0: seq<nat>, m: seq<nat>, base: nat, args: seq<Arg>)
    requires Within(args, |m0|) && base + NumArgs(args) <= |m|
  {
    if args == [] then true
    else
      var front, last := args[..|args| - 1], args[|args| - 1];
      RangesPlaced(m0, m, base, front)
      && (last.Range? ==> m[base + NumArgs(front)..][..last.num] == m0[last.start..last.start + last.num])
  }

  /** Storing the single arguments around the ranges writes the argument list. */
  lemma {:induction false} SinglesComplete(m0: seq<nat>, m: seq<nat>, base: nat, args: seq<Arg>)
    requires Within(args, |m0|) && base + NumArgs(args) <= |m| && RangesPlaced(m0, m, base, args)
    ensures PlaceSingles(m, base, args) == Splice(m, base, ArgValues(m0, args))
    decreases |args|
  {
    hide Splice;
    if args == [] {
      SpliceNothing(m, base);
    } else {
      var front, last := args[..|args| - 1], args[|args| - 1];
      SinglesComplete(m0, m, base, front);
      if last.Single? {
        SpliceOne(m, base, ArgValues(m0, front), last.value);
      } else {
        SpliceKept(m, base, ArgValues(m0, front), last.num);
      }
    }
  }

  method StoreSingles(mem: array<nat>, base: nat, args: seq<Arg>) returns (curOffset: nat)
    requires base + NumArgs(args) <= mem.Length
    modifies mem
    ensures mem[..] == PlaceSingles(old(mem[..]), base, args) && curOffset == NumArgs(args)
  {
    curOffset := 0;
    for k := 0 to |args|
      invariant curOffset == NumArgs(args[..k]) <= NumArgs(args)
      invariant mem[..] == PlaceSingles(old(mem[..]), base, args[..k])
    {
      OffsetsGrow(args, k);
      assert args[..k + 1][..k] == args[..k];
      match args[k] {
        case Range(_, num) =>
          curOffset := curOffset + num;
        case Single(value) =>
          mem[base + curOffset] := value;
          curOffset := curOffset + 1;
      }
    }
    assert args[..|args|] == args;
  }

  // ---- frames ----

  function NumVarArgs(m: seq<nat>, base: nat): nat
    requires HEADER <= base <= |m|
  {
    m[base - 1] / 0x1_0000_0000
  }

  function CallSite(m: seq<nat>, base: nat): nat
    requires HEADER <= base <= |m|
  {
    m[base - 1] % 0x1_0000_0000
  }

  /** Variadic arguments lie below the header; a frame begins with them. */
  predicate IsFrame(m: seq<nat>, base: nat) {
    HEADER <= base <= |m| && HEADER + NumVarArgs(m, base) <= base
  }

  function TrueBegin(m: seq<nat>, base: nat): nat
    requires IsFrame(m, base)
  {
    base - HEADER - NumVarArgs(m, base)
  }

  /** A frame ready to be entered: the function, no variadic arguments, and the argument values. */
  predicate Ready(m: seq<nat>, base: nat, target: nat, values: seq<nat>) {
    && IsFrame(m, base) && base + |values| <= |m|
    && m[base - 4] == target && NumVarArgs(m, base) == 0 && m[base..base + |values|] == values
  }

  /** The frame has replaced the frame at `base0`: same caller, return address and call site, and it
      begins where that one began. */
  predicate Replaces(m0: seq<nat>, base0: nat, m: seq<nat>, base: nat) {
    && IsFrame(m0, base0) && IsFrame(m, base)
    && m[base - 3] == m0[base0 - 3] && m[base - 2] == m0[base0 - 2] && CallSite(m, base) == CallSite(m0, base0)
    && TrueBegin(m, base) == TrueBegin(m0, base0)
    && m[..TrueBegin(m, base)] == m0[..TrueBegin(m, base)]
  }

  // ---- ordinary calls ----

  method PopulateHeader(mem: array<nat>, newBase: nat, oldBase: nat, callSite: nat, target: nat, onReturn: nat)
    requires HEADER <= newBase <= mem.Length && callSite < 0x1_0000_0000
    modifies mem
    ensures mem[..] == Splice(old(mem[..]), newBase - 4, [target, oldBase, onReturn, callSite])
  {
    mem[newBase - 4], mem[newBase - 3], mem[newBase - 2], mem[newBase - 1] := target, oldBase, onReturn, callSite;
  }

  /** Returns to the caller's frame as it was below the new header. */
  predicate Calls(m0: seq<nat>, m: seq<nat>, newBase: nat, oldBase: nat, callSite: nat, target: nat, onReturn: nat, values: seq<nat>) {
    && Ready(m, newBase, target, values)
    && m[newBase - 3] == oldBase && m[newBase - 2] == onReturn && CallSite(m, newBase) == callSite
    && newBase <= |m0| && m[..newBase - 4] == m0[..newBase - 4]
  }

  lemma CallerKept(m0: seq<nat>, m: seq<nat>, newBase: nat, oldBase: nat, callSite: nat, target: nat, onReturn: nat, values: seq<nat>)
    requires Calls(m0, m, newBase, oldBase, callSite, target, onReturn, values)
    ensures HEADER <= newBase <= |m0| && newBase <= |m| && m[..newBase - HEADER] == m0[..newBase - HEADER]
  {
  }

  /** Variadic results lie among the variadic arguments of the current frame, or where an earlier call
      returned them, not below `limit`. */
  predicate ResultsAt(v: Results, base: nat, limit: nat) {
    v.start + v.num + HEADER <= base || limit <= v.start
  }

  lemma HeaderSlots(m: seq<nat>, base: nat, header: seq<nat>)
    requires |header| == 4 && HEADER <= base <= |m|
    ensures var r := Splice(m, base - 4, header);
            r[base - 4] == header[0] && r[base - 3] == header[1] && r[base - 2] == header[2] && r[base - 1] == header[3]
  {
  }

  /** Values, possibly with some slots more, and then the header in front of them. */
  lemma HeaderCompletes(m0: seq<nat>, newBase: nat, oldBase: nat, callSite: nat, target: nat, onReturn: nat, values: seq<nat>, extra: seq<nat>)
    requires HEADER <= newBase && newBase + |values| + |extra| <= |m0| && callSite < 0x1_0000_0000
    ensures Calls(m0, Splice(Splice(m0, newBase, values + extra), newBase - 4, [target, oldBase, onReturn, callSite]),
                  newBase, oldBase, callSite, target, onReturn, values)
  {
    hide Splice;
    var header := [target, oldBase, onReturn, callSite];
    var m := Splice(m0, newBase, values + extra);
    var r := Splice(m, newBase - 4, header);
    Outside(m, newBase - 4, header, newBase, newBase + |values|);
    Inside(m0, newBase, values + extra, newBase, newBase + |values|);
    Outside(m, newBase - 4, header, 0, newBase - 4);
    Outside(m0, newBase, values + extra, 0, newBase - 4);
    assert r[..newBase - 4] == r[0..newBase - 4] && m0[..newBase - 4] == m0[0..newBase - 4];
    HeaderSlots(m, newBase, header);
  }

  /** An in-place call: the new frame is built around the argument range where it stands. */
  method CallInPlace(mem: array<nat>, stackBase: nat, argStart: nat, argNum: nat, passVariadicRes: bool, v: Results,
                     callSite: nat, target: nat, onReturn: nat) returns (newSfBase: nat, totalNumArgs: nat)
    requires stackBase + HEADER <= argStart && argStart + argNum <= mem.Length && callSite < 0x1_0000_0000
    requires passVariadicRes ==>
      && v.start + Rounded(v.num) <= mem.Length && argStart + argNum + Rounded(v.num) <= mem.Length
      && ResultsAt(v, stackBase, argStart + argNum)
    modifies mem
    ensures var values := old(mem[argStart..argStart + argNum]) + if passVariadicRes then old(mem[v.start..v.start + v.num]) else [];
            totalNumArgs == |values| && Calls(old(mem[..]), mem[..], newSfBase, stackBase, callSite, target, onReturn, values)
    ensures newSfBase == argStart && mem[..argStart - HEADER] == old(mem[..argStart - HEADER])
  {
    hide Splice, Calls;
    ghost var m0 := mem[..];
    ghost var args, results, extra := m0[argStart..argStart + argNum], [], [];
    newSfBase, totalNumArgs := argStart, argNum;
    SpliceNothing(m0, argStart);
    SpliceKept(m0, argStart, [], argNum);
    assert [] + m0[argStart + 0..][..argNum] == args + [] == args;
    if passVariadicRes {
      totalNumArgs := argNum + v.num;
      results, extra := m0[v.start..v.start + v.num], m0[v.start + v.num..v.start + Rounded(v.num)];
      Joined(m0, v.start, v.start + v.num, v.start + Rounded(v.num));
      CopyForward(mem, argStart + argNum, v.start, v.num);
      SpliceMore(m0, argStart, args, results + extra);
    }
    assert args + (results + extra) == (args + results) + extra;
    HeaderCompletes(m0, newSfBase, stackBase, callSite, target, onReturn, args + results, extra);
    PopulateHeader(mem, newSfBase, stackBase, callSite, target, onReturn);
    CallerKept(m0, mem[..], newSfBase, stackBase, callSite, target, onReturn, args + results);
  }

  /** The arguments stored one after the other. */
  function PlaceArgs(m: seq<nat>, base: nat, args: seq<Arg>): (r: seq<nat>)
    requires base + NumArgs(args) <= |m| && Within(args, |m|)
    ensures |r| == |m|
  {
    if args == [] then m
    else
      var front, last := args[..|args| - 1], args[|args| - 1];
      var p := PlaceArgs(m, base, front);
      if last.Single? then p[base + NumArgs(front) := last.value]
      else Splice(p, base + NumArgs(front), p[last.start..last.start + last.num])
  }

  /** With all ranges below the destination, nothing is clobbered before it is copied. */
  lemma {:induction false} PlaceArgsRight(m: seq<nat>, base: nat, args: seq<Arg>)
    requires base + NumArgs(args) <= |m| && Within(args, |m|) && Within(args, base)
    ensures PlaceArgs(m, base, args) == Splice(m, base, ArgValues(m, args))
    decreases |args|
  {
    hide Splice;
    if args == [] {
      SpliceNothing(m, base);
    } else {
      var front, last := args[..|args| - 1], args[|args| - 1];
      PlaceArgsRight(m, base, front);
      var vals := ArgValues(m, front);
      if last.Single? {
        SpliceOne(m, base, vals, last.value);
      } else {
        Outside(m, base, vals, last.start, last.start + last.num);
        SpliceMore(m, base, vals, m[last.start..last.start + last.num]);
      }
    }
  }

  /** Copies every argument to the new frame. */
  method StoreArgs(mem: array<nat>, base: nat, args: seq<Arg>) returns (curOffset: nat)
    requires base + NumArgs(args) <= mem.Length && Within(args, mem.Length)
    modifies mem
    ensures curOffset == NumArgs(args) && mem[..] == PlaceArgs(old(mem[..]), base, args)
  {
    hide Splice;
    ghost var m0 := mem[..];
    curOffset := 0;
    for k := 0 to |args|
      invariant curOffset == NumArgs(args[..k]) <= NumArgs(args)
      invariant Within(args[..k], |m0|) && mem[..] == PlaceArgs(m0, base, args[..k])
    {
      OffsetsGrow(args, k);
      WithinPrefix(args, |m0|, k);
      assert args[..k + 1][..k] == args[..k];
      match args[k] {
        case Range(start, num) =>
          Memmove(mem, base + curOffset, start, num);
          curOffset := curOffset + num;
        case Single(value) =>
          mem[base + curOffset] := value;
          curOffset := curOffset + 1;
      }
    }
    assert args[..|args|] == args;
  }

  /** A call that is not in place: the new frame follows the current one.  Variadic results may lie
      anywhere, also across the new frame: they are moved before anything else is written. */
  method CallNotInPlace(mem: array<nat>, stackBase: nat, endOfFrame: nat, args: seq<Arg>, passVariadicRes: bool, v: Results,
                        callSite: nat, target: nat, onReturn: nat) returns (newSfBase: nat, totalNumArgs: nat)
    requires Within(args, mem.Length) && Within(args, endOfFrame)
    requires endOfFrame + HEADER + NumArgs(args) + (if passVariadicRes then v.num else 0) <= mem.Length
    requires passVariadicRes ==> v.start + v.num <= mem.Length
    requires callSite < 0x1_0000_0000
    modifies mem
    ensures var values := ArgValues(old(mem[..]), args) + if passVariadicRes then old(mem[v.start..v.start + v.num]) else [];
            totalNumArgs == |values| && Calls(old(mem[..]), mem[..], newSfBase, stackBase, callSite, target, onReturn, values)
    ensures newSfBase == endOfFrame + HEADER && mem[..endOfFrame] == old(mem[..endOfFrame])
  {
    hide Splice, Calls, PlaceArgs;
    ghost var m0 := mem[..];
    var argNum := NumArgs(args);
    newSfBase, totalNumArgs := endOfFrame + HEADER, argNum;
    ghost var results := [];
    SpliceNothing(m0, newSfBase + argNum);
    if passVariadicRes {
      totalNumArgs := argNum + v.num;
      results := m0[v.start..v.start + v.num];
      Memmove(mem, newSfBase + argNum, v.start, v.num);
    }
    WithinMore(args, endOfFrame, newSfBase);
    ResultsThenArgs(m0, newSfBase, args, results);
    var stored := StoreArgs(mem, newSfBase, args);
    HeaderCompletes(m0, newSfBase, stackBase, callSite, target, onReturn, ArgValues(m0, args) + results, []);
    assert ArgValues(m0, args) + results + [] == ArgValues(m0, args) + results;
    PopulateHeader(mem, newSfBase, stackBase, callSite, target, onReturn);
    CallerKept(m0, mem[..], newSfBase, stackBase, callSite, target, onReturn, ArgValues(m0, args) + results);
  }

  /** Results first, arguments in front of them afterwards. */
  lemma ResultsThenArgs(m: seq<nat>, base: nat, args: seq<Arg>, results: seq<nat>)
    requires Within(args, |m|) && Within(args, base) && base + NumArgs(args) + |results| <= |m|
    ensures PlaceArgs(Splice(m, base + NumArgs(args), results), base, args) == Splice(m, base, ArgValues(m, args) + results)
  {
    hide Splice, PlaceArgs;
    var n := Splice(m, base + NumArgs(args), results);
    WithinMore(args, base, base + NumArgs(args));
    WithinIsClear(args, base + NumArgs(args), base + NumArgs(args) + |results|);
    SameArgs(m, base + NumArgs(args), results, args);
    PlaceArgsRight(n, base, args);
    SpliceInFront(m, base, ArgValues(m, args), results);
  }

  lemma SpliceInFront(m: seq<nat>, base: nat, data: seq<nat>, more: seq<nat>)
    requires base + |data| + |more| <= |m|
    ensures Splice(Splice(m, base + |data|, more), base, data) == Splice(m, base, data + more)
  {
  }

  /** No argument range meets the slots from `lo` to `hi`. */
  predicate Clear(args: seq<Arg>, lo: nat, hi: nat) {
    if args == [] then true
    else
      var last := args[|args| - 1];
      Clear(args[..|args| - 1], lo, hi)
      && (last.Range? ==> last.start + last.num <= lo || hi <= last.start || last.num == 0 || lo == hi)
  }

  lemma {:induction false} WithinIsClear(args: seq<Arg>, lo: nat, hi: nat)
    requires Within(args, lo)
    ensures Clear(args, lo, hi)
  {
    if args != [] {
      WithinIsClear(args[..|args| - 1], lo, hi);
    }
  }

  /** Writing elsewhere does not change the arguments. */
  lemma {:induction false} SameArgs(m: seq<nat>, dst: nat, data: seq<nat>, args: seq<Arg>)
    requires dst + |data| <= |m| && Within(args, |m|) && Clear(args, dst, dst + |data|)
    ensures ArgValues(Splice(m, dst, data), args) == ArgValues(m, args)
  {
    hide Splice;
    if args != [] {
      SameArgs(m, dst, data, args[..|args| - 1]);
      var last := args[|args| - 1];
      if last.Range? && last.num > 0 {
        if data == [] {
          SpliceNothing(m, dst);
        } else {
          Outside(m, dst, data, last.start, last.start + last.num);
        }
      }
    }
  }
}
