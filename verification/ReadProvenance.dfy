/** What the analysis of read locations means when a function runs.

    Run-time values carry their provenance: whether they were computed from the pointer, other than
    by loading through it.  Control flow is arbitrary: a run executes the instructions in any order,
    any number of times.  The pointer escapes by the analysis exactly when some run stores a value
    computed from it or passes one to a call, and the locations reported are exactly the values that
    some run reads through. */
module ReadProvenance {
  import opened ReadLocations

  datatype Value = Value(bits: int, based: bool)

  /** What instructions compute, and what calls write: from the bits of the operands. */
  datatype Interp = Interp(value: (nat, seq<int>) -> int, writes: (nat, seq<int>) -> map<int, int>)

  /** `passed` says that a call was given a value computed from the pointer; `readThrough` holds those
      that were used as the address of a read. */
  datatype State = State(env: map<nat, Value>, mem: map<int, Value>, passed: bool, readThrough: set<nat>)

  function Look<K>(m: map<K, Value>, k: K): Value {
    if k in m then m[k] else Value(0, false)
  }

  function Bits(env: map<nat, Value>, vs: seq<nat>): seq<int> {
    seq(|vs|, i requires 0 <= i < |vs| => Look(env, vs[i]).bits)
  }

  predicate AnyBased(env: map<nat, Value>, vs: seq<nat>) {
    exists i :: 0 <= i < |vs| && Look(env, vs[i]).based
  }

  function NoteRead(s: State, ptr: nat): State {
    if Look(s.env, ptr).based then s.(readThrough := s.readThrough + {ptr}) else s
  }

  function Define(fn: Fn, s: State, i: nat, v: Value): State {
    s.(env := s.env[fn.numArgs + i := v])
  }

  function Written(w: map<int, int>, based: bool): map<int, Value> {
    map a | a in w :: Value(w[a], based)
  }

  /** One instruction. */
  function Step(fn: Fn, interp: Interp, s: State, i: nat): State
    requires i < |fn.insts|
  {
    match fn.insts[i]
    case Store(value, ptr) =>
      s.(mem := s.mem[Look(s.env, ptr).bits := Look(s.env, value)])
    case Load(ptr) =>
      Define(fn, NoteRead(s, ptr), i, Look(s.mem, Look(s.env, ptr).bits))
    case CmpXchg(ptr, cmp, new_) =>
      var addr, c := Look(s.env, ptr).bits, Look(s.env, cmp);
      var was := Look(s.mem, addr);
      var s' := Define(fn, NoteRead(s, ptr), i, Value(interp.value(i, [was.bits, c.bits]), was.based || c.based));
      if was.bits == c.bits then s'.(mem := s.mem[addr := Look(s.env, new_)]) else s'
    case Rmw(ptr, val) =>
      var addr, v := Look(s.env, ptr).bits, Look(s.env, val);
      var was := Look(s.mem, addr);
      Define(fn, NoteRead(s, ptr), i, was)
        .(mem := s.mem[addr := Value(interp.value(i, [was.bits, v.bits]), was.based || v.based)])
    case Call(operands) =>
      var bits, based := Bits(s.env, operands), AnyBased(s.env, operands);
      Define(fn, s, i, Value(interp.value(i, bits), based))
        .(mem := s.mem + Written(interp.writes(i, bits), based), passed := s.passed || based)
    case Other(operands, isVoid) =>
      if isVoid then s
      else Define(fn, s, i, Value(interp.value(i, Bits(s.env, operands)), AnyBased(s.env, operands)))
  }

  predicate IsTrace(fn: Fn, trace: seq<nat>) {
    forall k :: 0 <= k < |trace| ==> trace[k] < |fn.insts|
  }

  function Exec(fn: Fn, interp: Interp, s: State, trace: seq<nat>): State
    requires IsTrace(fn, trace)
  {
    if trace == [] then s
    else Step(fn, interp, Exec(fn, interp, s, trace[..|trace| - 1]), trace[|trace| - 1])
  }

  /** A value computed from the pointer is in memory, or was passed to a call. */
  predicate Escaped(s: State) {
    s.passed || exists a :: a in s.mem && s.mem[a].based
  }

  /** The pointer is the only value computed from itself. */
  predicate IsStart(ptr: nat, s: State) {
    && Look(s.env, ptr).based && (forall v :: v in s.env && s.env[v].based ==> v == ptr)
    && !Escaped(s) && s.readThrough == {}
  }

  // ---- nothing happens that the analysis does not see ----

  ghost predicate Tracked(fn: Fn, ptr: nat, s: State) {
    && !Escaped(s)
    && (forall v: nat :: v in s.env && s.env[v].based ==> Derived(fn, ptr, v))
    && (forall v :: v in s.readThrough ==> IsReadFrom(fn, ptr, v))
  }

  /** A value computed from a derived operand that is not an address is derived. */
  lemma OperandPasses(fn: Fn, ptr: nat, i: nat, k: nat)
    requires i < |fn.insts| && k < |Operands(fn.insts[i])| && Derived(fn, ptr, Operands(fn.insts[i])[k])
    requires !SomeEscape(fn, ptr)
    ensures !Escapes(fn, Operands(fn.insts[i])[k], Use(i, k))
    ensures PassesOn(fn, Use(i, k)) ==> Derived(fn, ptr, fn.numArgs + i)
    ensures ReadsThrough(fn, Use(i, k)) ==> IsReadFrom(fn, ptr, Operands(fn.insts[i])[k])
  {
    hide Derived, Escapes, PassesOn, ReadsThrough;
    var v, u := Operands(fn.insts[i])[k], Use(i, k);
    assert IsUse(fn, v, u);
    if PassesOn(fn, u) {
      assert Edge(fn, v, fn.numArgs + i);
      DerivedStep(fn, ptr, v, fn.numArgs + i);
    }
  }

  lemma BasedIsDerived(fn: Fn, ptr: nat, s: State, v: nat)
    requires Tracked(fn, ptr, s) && Look(s.env, v).based
    ensures Derived(fn, ptr, v)
  {
  }

  /** What the analysis knows of an operand computed from the pointer. */
  ghost predicate OperandKnown(fn: Fn, ptr: nat, s: State, i: nat, k: nat)
    requires i < |fn.insts| && k < |Operands(fn.insts[i])|
  {
    var v, u := Operands(fn.insts[i])[k], Use(i, k);
    Look(s.env, v).based ==>
      && !Escapes(fn, v, u)
      && (PassesOn(fn, u) ==> Derived(fn, ptr, fn.numArgs + i))
      && (ReadsThrough(fn, u) ==> IsReadFrom(fn, ptr, v))
  }

  lemma OperandsKnown(fn: Fn, ptr: nat, s: State, i: nat)
    requires Tracked(fn, ptr, s) && i < |fn.insts| && !SomeEscape(fn, ptr)
    ensures forall k: nat :: k < |Operands(fn.insts[i])| ==> OperandKnown(fn, ptr, s, i, k)
  {
    hide Derived, IsReadFrom, SomeEscape, Escaped;
    forall k: nat | k < |Operands(fn.insts[i])| ensures OperandKnown(fn, ptr, s, i, k) {
      if Look(s.env, Operands(fn.insts[i])[k]).based {
        BasedIsDerived(fn, ptr, s, Operands(fn.insts[i])[k]);
        OperandPasses(fn, ptr, i, k);
      }
    }
  }

  lemma StepTracked(fn: Fn, ptr: nat, interp: Interp, s: State, i: nat)
    requires Tracked(fn, ptr, s) && i < |fn.insts| && !SomeEscape(fn, ptr)
    ensures Tracked(fn, ptr, Step(fn, interp, s, i))
  {
    hide Derived, IsReadFrom, SomeEscape, Bits;
    OperandsKnown(fn, ptr, s, i);
    match fn.insts[i] {
      case Store(value, _) =>
        assert OperandKnown(fn, ptr, s, i, 0) && Operands(fn.insts[i])[0] == value;
      case Load(p) =>
        assert OperandKnown(fn, ptr, s, i, 0) && Operands(fn.insts[i])[0] == p;
      case CmpXchg(p, cmp, new_) =>
        assert OperandKnown(fn, ptr, s, i, 0) && Operands(fn.insts[i])[0] == p;
        assert OperandKnown(fn, ptr, s, i, 1) && Operands(fn.insts[i])[1] == cmp;
        assert OperandKnown(fn, ptr, s, i, 2) && Operands(fn.insts[i])[2] == new_;
      case Rmw(p, val) =>
        assert OperandKnown(fn, ptr, s, i, 0) && Operands(fn.insts[i])[0] == p;
        assert OperandKnown(fn, ptr, s, i, 1) && Operands(fn.insts[i])[1] == val;
      case Call(operands) =>
        forall k: nat | k < |operands| ensures !Look(s.env, operands[k]).based {
          assert OperandKnown(fn, ptr, s, i, k);
        }
      case Other(operands, isVoid) =>
        if AnyBased(s.env, operands) && !isVoid {
          var k :| 0 <= k < |operands| && Look(s.env, operands[k]).based;
          assert OperandKnown(fn, ptr, s, i, k);
        }
    }
  }

  lemma {:induction false} RunTracked(fn: Fn, ptr: nat, interp: Interp, s: State, trace: seq<nat>)
    requires Tracked(fn, ptr, s) && IsTrace(fn, trace) && !SomeEscape(fn, ptr)
    ensures Tracked(fn, ptr, Exec(fn, interp, s, trace))
    decreases |trace|
  {
    hide Tracked, SomeEscape, Step;
    if trace != [] {
      RunTracked(fn, ptr, interp, s, trace[..|trace| - 1]);
      StepTracked(fn, ptr, interp, Exec(fn, interp, s, trace[..|trace| - 1]), trace[|trace| - 1]);
    }
  }

  // ---- everything the analysis sees can happen ----

  /** With all bits zero every address is the same and every comparison succeeds. */
  ghost predicate AllZero(s: State) {
    && (forall v :: v in s.env ==> s.env[v].bits == 0)
    && (forall a :: a in s.mem ==> s.mem[a].bits == 0)
  }

  const ZERO: Interp := Interp((i, bits) => 0, (i, bits) => map[])

  lemma StepZero(fn: Fn, s: State, i: nat)
    requires AllZero(s) && i < |fn.insts|
    ensures AllZero(Step(fn, ZERO, s, i))
  {
    hide Bits, AnyBased;
    match fn.insts[i] {
      case Store(_, _) =>
      case Load(_) =>
      case CmpXchg(_, _, _) =>
      case Rmw(_, _) =>
      case Call(_) =>
      case Other(_, _) =>
    }
  }

  lemma EdgeRuns(fn: Fn, interp: Interp, s: State, v: nat, u: Use)
    requires IsUse(fn, v, u) && !Escapes(fn, v, u) && PassesOn(fn, u) && Look(s.env, v).based
    ensures Look(Step(fn, interp, s, u.user).env, fn.numArgs + u.user).based
  {
    if fn.insts[u.user].Other? {
      assert Look(s.env, Operands(fn.insts[u.user])[u.operandNo]).based;
    }
  }

  lemma EscapeRuns(fn: Fn, s: State, v: nat, u: Use)
    requires IsUse(fn, v, u) && Escapes(fn, v, u) && Look(s.env, v).based && AllZero(s)
    ensures Escaped(Step(fn, ZERO, s, u.user))
  {
    var s' := Step(fn, ZERO, s, u.user);
    if fn.insts[u.user].Call? {
      assert Look(s.env, Operands(fn.insts[u.user])[u.operandNo]).based;
    } else {
      assert 0 in s'.mem && s'.mem[0].based;
    }
  }

  lemma ReadRuns(fn: Fn, interp: Interp, s: State, v: nat, u: Use)
    requires IsUse(fn, v, u) && ReadsThrough(fn, u) && Look(s.env, v).based
    ensures v in Step(fn, interp, s, u.user).readThrough
  {
  }

  lemma ExecMore(fn: Fn, interp: Interp, s: State, trace: seq<nat>, i: nat)
    requires IsTrace(fn, trace) && i < |fn.insts|
    ensures IsTrace(fn, trace + [i]) && Exec(fn, interp, s, trace + [i]) == Step(fn, interp, Exec(fn, interp, s, trace), i)
  {
    hide Step;
    assert (trace + [i])[..|trace|] == trace;
  }

  function Start(ptr: nat): State {
    State(map[ptr := Value(0, true)], map[], false, {})
  }

  /** Executing the instructions along a path computes its last value from the pointer. */
  lemma {:induction false} PathRuns(fn: Fn, ptr: nat, path: seq<nat>) returns (trace: seq<nat>)
    requires path != [] && path[0] == ptr && Path(fn, path)
    ensures IsTrace(fn, trace) && Look(Exec(fn, ZERO, Start(ptr), trace).env, path[|path| - 1]).based
    ensures AllZero(Exec(fn, ZERO, Start(ptr), trace))
    decreases |path|
  {
    hide Step, Edge, AllZero;
    if |path| == 1 {
      trace := [];
      StartZero(ptr);
    } else {
      var front := path[..|path| - 1];
      forall i | 0 <= i < |front| - 1 ensures Edge(fn, front[i], front[i + 1]) {
        assert Edge(fn, path[i], path[i + 1]);
      }
      trace := PathRuns(fn, ptr, front);
      assert Edge(fn, path[|path| - 2], path[|path| - 1]);
      var u := UseOf(fn, path[|path| - 2], path[|path| - 1]);
      var s := Exec(fn, ZERO, Start(ptr), trace);
      EdgeRuns(fn, ZERO, s, path[|path| - 2], u);
      StepZero(fn, s, u.user);
      ExecMore(fn, ZERO, Start(ptr), trace, u.user);
      trace := trace + [u.user];
    }
  }

  lemma StartZero(ptr: nat)
    ensures AllZero(Start(ptr)) && IsStart(ptr, Start(ptr))
  {
  }

  lemma UseOf(fn: Fn, v: nat, w: nat) returns (u: Use)
    requires Edge(fn, v, w)
    ensures IsUse(fn, v, u) && !Escapes(fn, v, u) && PassesOn(fn, u) && w == fn.numArgs + u.user
  {
    u :| IsUse(fn, v, u) && !Escapes(fn, v, u) && PassesOn(fn, u) && w == fn.numArgs + u.user;
  }

  lemma DerivedRuns(fn: Fn, ptr: nat, v: nat) returns (trace: seq<nat>)
    requires Derived(fn, ptr, v)
    ensures IsTrace(fn, trace) && Look(Exec(fn, ZERO, Start(ptr), trace).env, v).based
    ensures AllZero(Exec(fn, ZERO, Start(ptr), trace))
  {
    hide Path, Exec, AllZero;
    var path: seq<nat> :| path != [] && path[0] == ptr && path[|path| - 1] == v && Path(fn, path);
    trace := PathRuns(fn, ptr, path);
  }

  // ---- the analysis is exact ----

  ghost predicate MayEscape(fn: Fn, ptr: nat) {
    exists interp, s, trace :: IsStart(ptr, s) && IsTrace(fn, trace) && Escaped(Exec(fn, interp, s, trace))
  }

  ghost predicate MayReadThrough(fn: Fn, ptr: nat, v: nat) {
    exists interp, s, trace :: IsStart(ptr, s) && IsTrace(fn, trace) && v in Exec(fn, interp, s, trace).readThrough
  }

  /** The analysis gives up if and only if some run stores a value computed from the pointer, or passes
      one to a call. */
  lemma EscapesIffInSomeRun(fn: Fn, ptr: nat)
    ensures SomeEscape(fn, ptr) <==> MayEscape(fn, ptr)
  {
    hide Exec, Derived, AllZero, Escaped, Escapes, IsStart;
    if SomeEscape(fn, ptr) {
      var v, u :| Derived(fn, ptr, v) && IsUse(fn, v, u) && Escapes(fn, v, u);
      var trace := DerivedRuns(fn, ptr, v);
      EscapeRuns(fn, Exec(fn, ZERO, Start(ptr), trace), v, u);
      ExecMore(fn, ZERO, Start(ptr), trace, u.user);
      StartZero(ptr);
    } else if MayEscape(fn, ptr) {
      var interp, s, trace :| IsStart(ptr, s) && IsTrace(fn, trace) && Escaped(Exec(fn, interp, s, trace));
      StartTracked(fn, ptr, s);
      RunTracked(fn, ptr, interp, s, trace);
    }
  }

  lemma StartTracked(fn: Fn, ptr: nat, s: State)
    requires IsStart(ptr, s)
    ensures Tracked(fn, ptr, s)
  {
    hide Derived;
    DerivedSelf(fn, ptr);
  }

  /** If it does not give up, the values it reports are those through which some run reads. */
  lemma ReadsIffInSomeRun(fn: Fn, ptr: nat, v: nat)
    requires !SomeEscape(fn, ptr)
    ensures IsReadFrom(fn, ptr, v) <==> MayReadThrough(fn, ptr, v)
  {
    hide Exec, Derived, AllZero, Escaped, IsStart, SomeEscape, ReadsThrough;
    if IsReadFrom(fn, ptr, v) {
      var u :| IsUse(fn, v, u) && ReadsThrough(fn, u);
      var trace := DerivedRuns(fn, ptr, v);
      ReadRuns(fn, ZERO, Exec(fn, ZERO, Start(ptr), trace), v, u);
      ExecMore(fn, ZERO, Start(ptr), trace, u.user);
      StartZero(ptr);
    }
    if MayReadThrough(fn, ptr, v) {
      var interp, s, trace :| IsStart(ptr, s) && IsTrace(fn, trace) && v in Exec(fn, interp, s, trace).readThrough;
      StartTracked(fn, ptr, s);
      RunTracked(fn, ptr, interp, s, trace);
    }
  }
}
