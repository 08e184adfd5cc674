/** Whole tail calls - moving the frame, then the callee's prologue - and runs of them.

    A callee finds exactly the values the call passes.  However many tail calls follow each other, with
    whatever the functions write into their frames in between, the stack does not grow. */
module TailCallRun {
  import opened CallFrame
  import opened TailCallFrame

  /** The four ways to pass the arguments of a tail call. */
  datatype TailCall =
    | InPlace(argStart: nat, argNum: nat)
    | NotInPlace(args: seq<Arg>)
    | VariadicInPlace(argStart: nat, argNum: nat, v: Results)
    | VariadicNotInPlace(args: seq<Arg>, v: Results)

  /** The number of fixed parameters may be known when the prologue is generated. */
  datatype Callee = Callee(target: nat, numFixed: nat, takesVarArgs: bool, specialized: bool)

  datatype Frame = Frame(mem: seq<nat>, base: nat)

  function NumValues(c: TailCall): nat {
    match c
    case InPlace(_, argNum) => argNum
    case NotInPlace(args) => NumArgs(args)
    case VariadicInPlace(_, argNum, v) => argNum + v.num
    case VariadicNotInPlace(args, v) => NumArgs(args) + v.num
  }

  /** Where the regions of a call may lie in a stack. */
  predicate CanCall(m: seq<nat>, base: nat, c: TailCall) {
    && IsFrame(m, base)
    && match c
       case InPlace(argStart, argNum) =>
         base <= argStart && argStart + Rounded(argNum) <= |m|
       case NotInPlace(args) =>
         && AtMostOneRange(args) && Within(args, |m|) && base + NumArgs(args) <= |m|
         && Clear(args, TrueBegin(m, base), TrueBegin(m, base) + HEADER)
       case VariadicInPlace(argStart, argNum, v) =>
         && base + HEADER <= argStart && argStart + Rounded(argNum) <= |m|
         && v.start + Rounded(v.num) <= |m| && argStart + argNum + v.num + 2 <= |m|
         && ResultsAt(v, base, argStart + argNum)
       case VariadicNotInPlace(args, v) =>
         && AtMostOneRange(args) && Within(args, |m|)
         && base + NumArgs(args) + v.num + 2 <= |m| && v.start + v.num <= |m|
         && (v.start + v.num <= base || base <= v.start)
         && SafeOrder(base, args, v)
  }

  /** What the call passes. */
  function Values(m: seq<nat>, base: nat, c: TailCall): (values: seq<nat>)
    requires CanCall(m, base, c)
    ensures |values| == NumValues(c)
  {
    match c
    case InPlace(argStart, argNum) => m[argStart..argStart + argNum]
    case NotInPlace(args) => ArgValues(m, args)
    case VariadicInPlace(argStart, argNum, v) => m[argStart..argStart + argNum] + m[v.start..v.start + v.num]
    case VariadicNotInPlace(args, v) => ArgValues(m, args) + m[v.start..v.start + v.num]
  }

  method MoveArguments(mem: array<nat>, base: nat, c: TailCall, target: nat) returns (newBase: nat, totalNumArgs: nat)
    requires CanCall(mem[..], base, c)
    modifies mem
    ensures totalNumArgs == NumValues(c)
    ensures TailCalls(old(mem[..]), base, mem[..], newBase, target, Values(old(mem[..]), base, c))
  {
    hide TailCalls, ArgValues, NumArgs, Within, Clear, SafeOrder, AtMostOneRange, ResultsAt, IsFrame, TrueBegin, Rounded;
    match c {
      case InPlace(argStart, argNum) =>
        newBase := TailCallInPlace(mem, base, target, argStart, argNum);
        totalNumArgs := argNum;
      case NotInPlace(args) =>
        newBase, totalNumArgs := TailCallNotInPlace(mem, base, target, args);
      case VariadicInPlace(argStart, argNum, v) =>
        newBase, totalNumArgs := TailCallVariadicInPlace(mem, base, target, argStart, argNum, v);
      case VariadicNotInPlace(args, v) =>
        newBase, totalNumArgs := TailCallVariadicNotInPlace(mem, base, target, args, v);
    }
  }

  // ---- the prologue of the callee ----

  /** With at most two fixed parameters nils are written behind the arguments whether or not any are
      missing. */
  predicate WithoutBranches(callee: Callee) {
    callee.specialized && !callee.takesVarArgs && callee.numFixed <= 2
  }

  predicate HasRoom(size: nat, base: nat, provided: nat, callee: Callee) {
    && HEADER <= base && base + provided <= size && base + callee.numFixed <= size
    && (WithoutBranches(callee) ==> base + provided + callee.numFixed <= size)
    && (callee.takesVarArgs && provided > callee.numFixed ==>
         provided < 0x1_0000_0000 && base + provided + HEADER + callee.numFixed <= size)
  }

  /** Missing parameters are padded; of a function that takes variadic arguments the frame is fixed up;
      otherwise arguments beyond the fixed ones are ignored. */
  function Prologue(m: seq<nat>, base: nat, provided: nat, callee: Callee, nil: nat): (f: Frame)
    requires HasRoom(|m|, base, provided, callee)
    ensures |f.mem| == |m|
  {
    if WithoutBranches(callee) then Frame(Splice(m, base + provided, Nils(callee.numFixed, nil)), base)
    else if provided < callee.numFixed then Frame(Splice(m, base + provided, Nils(callee.numFixed - provided, nil)), base)
    else if provided > callee.numFixed && callee.takesVarArgs then
      Frame(FixedUp(m, base, provided, callee.numFixed, true), base + (provided - callee.numFixed))
    else Frame(m, base)
  }

  method StoreNils(mem: array<nat>, dst: nat, n: nat, nil: nat)
    requires dst + n <= mem.Length
    modifies mem
    ensures mem[..] == Splice(old(mem[..]), dst, Nils(n, nil))
  {
    hide Splice;
    SpliceNothing(mem[..], dst);
    assert Nils(0, nil) == [];
    for i := 0 to n
      invariant mem[..] == Splice(old(mem[..]), dst, Nils(i, nil))
    {
      SpliceOne(old(mem[..]), dst, Nils(i, nil), nil);
      assert Nils(i + 1, nil) == Nils(i, nil) + [nil];
      mem[dst + i] := nil;
    }
  }

  /** The part of the function entry that prepares the frame. */
  method EnterCallee(mem: array<nat>, base: nat, provided: nat, callee: Callee, nil: nat) returns (newBase: nat)
    requires IsFrame(mem[..], base) && NumVarArgs(mem[..], base) == 0 && HasRoom(mem.Length, base, provided, callee)
    modifies mem
    ensures Frame(mem[..], newBase) == Prologue(old(mem[..]), base, provided, callee, nil)
  {
    hide Splice, FixedUp, Entered;
    newBase := base;
    if WithoutBranches(callee) {
      StoreNils(mem, base + provided, callee.numFixed, nil);
    } else if provided < callee.numFixed {
      PadWithNil(mem, base, provided, callee.numFixed, nil);
    } else if provided > callee.numFixed && callee.takesVarArgs {
      newBase := FixupVariadic(mem, base, provided, callee.numFixed, true);
    }
  }

  /** The callee's fixed parameters, its variadic arguments, and its function are what was passed. */
  predicate Receives(f: Frame, values: seq<nat>, callee: Callee, nil: nat) {
    && IsFrame(f.mem, f.base) && f.base + callee.numFixed <= |f.mem| && f.mem[f.base - 4] == callee.target
    && f.mem[f.base..f.base + callee.numFixed] == FixedParams(values, callee.numFixed, nil)
    && f.mem[TrueBegin(f.mem, f.base)..f.base - HEADER]
       == if callee.takesVarArgs && |values| > callee.numFixed then values[callee.numFixed..] else []
  }

  function FixedParams(values: seq<nat>, numFixed: nat, nil: nat): seq<nat> {
    if |values| < numFixed then values + Nils(numFixed - |values|, nil) else values[..numFixed]
  }

  /** The prologue keeps everything below the frame and whom it returns to. */
  lemma PrologueReplaces(m: seq<nat>, base: nat, provided: nat, callee: Callee, nil: nat)
    requires IsFrame(m, base) && NumVarArgs(m, base) == 0 && HasRoom(|m|, base, provided, callee)
    ensures var f := Prologue(m, base, provided, callee, nil); Replaces(m, base, f.mem, f.base)
  {
    hide Splice, Nils, FixedUp;
    if WithoutBranches(callee) || provided < callee.numFixed {
      var nils := Nils(if WithoutBranches(callee) then callee.numFixed else callee.numFixed - provided, nil);
      BehindHeader(m, base, base + provided, nils);
      Outside(m, base + provided, nils, 0, base - HEADER);
    } else if provided > callee.numFixed && callee.takesVarArgs {
      FixedUpEntered(m, base, provided, callee.numFixed, true, nil);
    }
  }

  lemma PaddedReceives(m: seq<nat>, base: nat, values: seq<nat>, callee: Callee, nil: nat)
    requires Ready(m, base, callee.target, values) && HasRoom(|m|, base, |values|, callee)
    requires !WithoutBranches(callee) && |values| < callee.numFixed
    ensures Receives(Prologue(m, base, |values|, callee, nil), values, callee, nil)
  {
    hide Splice, Nils;
    var nils := Nils(callee.numFixed - |values|, nil);
    BehindHeader(m, base, base + |values|, nils);
    PaddedParams(m, base, |values|, callee.numFixed, nils);
    assert Prologue(m, base, |values|, callee, nil).mem[base - HEADER..base - HEADER] == [];
  }

  lemma PaddedAnywayReceives(m: seq<nat>, base: nat, values: seq<nat>, callee: Callee, nil: nat)
    requires Ready(m, base, callee.target, values) && HasRoom(|m|, base, |values|, callee) && WithoutBranches(callee)
    ensures Receives(Prologue(m, base, |values|, callee, nil), values, callee, nil)
  {
    hide Splice, Nils, FixedParams;
    var n, nils := callee.numFixed, Nils(callee.numFixed, nil);
    BehindHeader(m, base, base + |values|, nils);
    PaddedParams(m, base, |values|, |values| + n, nils);
    ParamsInFront(values, n, nil);
    var r := Splice(m, base + |values|, nils);
    assert r[base..base + n] == r[base..base + |values| + n][..n];
    assert r[base - HEADER..base - HEADER] == [];
  }

  lemma ParamsInFront(values: seq<nat>, n: nat, nil: nat)
    ensures (values + Nils(n, nil))[..n] == FixedParams(values, n, nil)
  {
  }

  lemma FixedUpReceives(m: seq<nat>, base: nat, values: seq<nat>, callee: Callee, nil: nat)
    requires Ready(m, base, callee.target, values) && HasRoom(|m|, base, |values|, callee)
    requires |values| > callee.numFixed && callee.takesVarArgs
    ensures Receives(Prologue(m, base, |values|, callee, nil), values, callee, nil)
  {
    hide Splice, FixedUp;
    var provided, numFixed := |values|, callee.numFixed;
    FixedUpEntered(m, base, provided, numFixed, true, nil);
    assert m[base..base + numFixed] == m[base..base + provided][..numFixed];
    assert m[base + numFixed..base + provided] == m[base..base + provided][numFixed..];
  }

  lemma PrologueReceives(m: seq<nat>, base: nat, values: seq<nat>, callee: Callee, nil: nat)
    requires Ready(m, base, callee.target, values) && HasRoom(|m|, base, |values|, callee)
    ensures Receives(Prologue(m, base, |values|, callee, nil), values, callee, nil)
  {
    if WithoutBranches(callee) {
      PaddedAnywayReceives(m, base, values, callee, nil);
    } else if |values| < callee.numFixed {
      PaddedReceives(m, base, values, callee, nil);
    } else if |values| > callee.numFixed && callee.takesVarArgs {
      FixedUpReceives(m, base, values, callee, nil);
    } else {
      assert m[base..base + callee.numFixed] == m[base..base + |values|][..callee.numFixed];
      assert m[base - HEADER..base - HEADER] == [];
    }
  }

  // ---- one tail call ----

  /** The new frame begins where the current one truly begins. */
  predicate CanMake(m: seq<nat>, base: nat, c: TailCall, callee: Callee) {
    CanCall(m, base, c) && HasRoom(|m|, base - NumVarArgs(m, base), NumValues(c), callee)
  }

  /** What the four methods do, and then the prologue. */
  ghost predicate TailStep(f: Frame, g: Frame, c: TailCall, callee: Callee, nil: nat) {
    && CanMake(f.mem, f.base, c, callee)
    && exists m, b ::
         && |m| == |f.mem| && TailCalls(f.mem, f.base, m, b, callee.target, Values(f.mem, f.base, c))
         && HasRoom(|m|, b, NumValues(c), callee) && g == Prologue(m, b, NumValues(c), callee, nil)
  }

  /** Replacing a frame keeps where it begins. */
  lemma ReplacedBase(m0: seq<nat>, base0: nat, m: seq<nat>, base: nat)
    requires Replaces(m0, base0, m, base) && NumVarArgs(m, base) == 0
    ensures base == base0 - NumVarArgs(m0, base0)
  {
  }

  /** A whole tail call. */
  method MakeTailCall(mem: array<nat>, base: nat, c: TailCall, callee: Callee, nil: nat) returns (newBase: nat)
    requires CanMake(mem[..], base, c, callee)
    modifies mem
    ensures TailStep(Frame(old(mem[..]), base), Frame(mem[..], newBase), c, callee, nil)
    ensures Receives(Frame(mem[..], newBase), Values(old(mem[..]), base, c), callee, nil)
  {
    hide Values, CanCall, Prologue, HasRoom, Receives, Replaces;
    ghost var m0 := mem[..];
    var totalNumArgs;
    newBase, totalNumArgs := MoveArguments(mem, base, c, callee.target);
    ghost var m1, b1 := mem[..], newBase;
    ReplacedBase(m0, base, m1, b1);
    PrologueReceives(m1, b1, Values(m0, base, c), callee, nil);
    newBase := EnterCallee(mem, newBase, totalNumArgs, callee, nil);
  }

  lemma ReplacesTransitive(m0: seq<nat>, b0: nat, m1: seq<nat>, b1: nat, m2: seq<nat>, b2: nat)
    requires Replaces(m0, b0, m1, b1) && Replaces(m1, b1, m2, b2)
    ensures Replaces(m0, b0, m2, b2)
  {
  }

  lemma StepReplaces(f: Frame, g: Frame, c: TailCall, callee: Callee, nil: nat)
    requires TailStep(f, g, c, callee, nil)
    ensures Replaces(f.mem, f.base, g.mem, g.base)
  {
    hide Values, CanCall, Prologue, HasRoom, Replaces;
    var m, b :| |m| == |f.mem| && TailCalls(f.mem, f.base, m, b, callee.target, Values(f.mem, f.base, c))
                && HasRoom(|m|, b, NumValues(c), callee) && g == Prologue(m, b, NumValues(c), callee, nil);
    PrologueReplaces(m, b, NumValues(c), callee, nil);
    ReplacesTransitive(f.mem, f.base, m, b, g.mem, g.base);
  }

  // ---- runs ----

  /** Between its entry and its tail call a function writes the slots of its frame, but neither its
      header nor anything below. */
  datatype Event = Write(slot: nat, value: nat) | Call(c: TailCall, callee: Callee)

  predicate Possible(m: seq<nat>, base: nat, event: Event) {
    match event
    case Write(slot, _) => base <= slot < |m|
    case Call(c, callee) => CanMake(m, base, c, callee)
  }

  ghost predicate Step(f: Frame, g: Frame, event: Event, nil: nat) {
    && Possible(f.mem, f.base, event)
    && match event
       case Write(slot, value) => g == Frame(f.mem[slot := value], f.base)
       case Call(c, callee) => TailStep(f, g, c, callee, nil)
  }

  ghost predicate RunOf(frames: seq<Frame>, events: seq<Event>, nil: nat) {
    && |frames| == |events| + 1 && IsFrame(frames[0].mem, frames[0].base)
    && forall i :: 0 <= i < |events| ==> Step(frames[i], frames[i + 1], events[i], nil)
  }

  /** However many tail calls follow each other: the frame begins where the first one began, everything
      below is untouched, and the last callee returns to the first one's caller. */
  lemma {:induction false} TailCallsDoNotGrow(frames: seq<Frame>, events: seq<Event>, nil: nat)
    requires RunOf(frames, events, nil)
    ensures var f, g := frames[0], frames[|events|]; Replaces(f.mem, f.base, g.mem, g.base)
    decreases |events|
  {
    if events != [] {
      var n := |events| - 1;
      RunFront(frames, events, nil);
      TailCallsDoNotGrow(frames[..n + 1], events[..n], nil);
      EventReplaces(frames[n], frames[n + 1], events[n], nil);
      ReplacesTransitive(frames[0].mem, frames[0].base, frames[n].mem, frames[n].base, frames[n + 1].mem, frames[n + 1].base);
    }
  }

  lemma RunFront(frames: seq<Frame>, events: seq<Event>, nil: nat)
    requires RunOf(frames, events, nil) && events != []
    ensures RunOf(frames[..|events|], events[..|events| - 1], nil)
    ensures Step(frames[|events| - 1], frames[|events|], events[|events| - 1], nil)
  {
    hide Step;
  }

  lemma EventReplaces(f: Frame, g: Frame, event: Event, nil: nat)
    requires Step(f, g, event, nil) && IsFrame(f.mem, f.base)
    ensures Replaces(f.mem, f.base, g.mem, g.base)
  {
    if event.Call? {
      StepReplaces(f, g, event.c, event.callee, nil);
    }
  }

  /** Executes events as long as they are possible: such a run, which therefore leaves the stack where
      it was. */
  method Execute(mem: array<nat>, base: nat, events: seq<Event>, nil: nat) returns (newBase: nat, n: nat, ghost frames: seq<Frame>)
    requires IsFrame(mem[..], base)
    modifies mem
    ensures n <= |events| && (n < |events| ==> !Possible(mem[..], newBase, events[n]))
    ensures RunOf(frames, events[..n], nil)
    ensures frames[0] == Frame(old(mem[..]), base) && frames[n] == Frame(mem[..], newBase)
    ensures Replaces(old(mem[..]), base, mem[..], newBase)
  {
    hide Replaces, TailStep, CanMake;
    newBase, n := base, 0;
    frames := [Frame(mem[..], base)];
    while n < |events| && Possible(mem[..], newBase, events[n])
      invariant n <= |events| && RunOf(frames, events[..n], nil)
      invariant frames[0] == Frame(old(mem[..]), base) && frames[n] == Frame(mem[..], newBase)
    {
      match events[n] {
        case Write(slot, value) =>
          mem[slot] := value;
        case Call(c, callee) =>
          newBase := MakeTailCall(mem, newBase, c, callee, nil);
      }
      assert Step(frames[n], Frame(mem[..], newBase), events[n], nil);
      OneMoreStep(frames, events, n, Frame(mem[..], newBase), nil);
      frames := frames + [Frame(mem[..], newBase)];
      n := n + 1;
    }
    TailCallsDoNotGrow(frames, events[..n], nil);
  }

  lemma OneMoreStep(frames: seq<Frame>, events: seq<Event>, n: nat, g: Frame, nil: nat)
    requires n < |events| && RunOf(frames, events[..n], nil) && Step(frames[n], g, events[n], nil)
    ensures RunOf(frames + [g], events[..n + 1], nil)
  {
    hide Step;
  }
}
