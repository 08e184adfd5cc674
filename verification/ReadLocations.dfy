/** Which memory locations a bytecode reads through one of its pointer arguments.

    A worklist closes the set of values derived from the pointer.  The analysis gives up exactly when
    a derived value escapes into memory or into a call, and otherwise collects exactly the derived
    values that are loaded from. */
module ReadLocations {
  import opened Wrappers

  /** Instructions as the analysis sees them; operands are value numbers. */
  datatype Inst =
    | Store(value: nat, ptr: nat)
    | Load(ptr: nat)
    | CmpXchg(ptr: nat, cmp: nat, new_: nat)
    | Rmw(ptr: nat, val: nat)
    | Call(operands: seq<nat>)
    | Other(operands: seq<nat>, isVoid: bool)

  /** A function: `numArgs` arguments are values 0, 1, ...; instruction `i` is value `numArgs + i`. */
  datatype Fn = Fn(numArgs: nat, insts: seq<Inst>)

  datatype Use = Use(user: nat, operandNo: nat)

  function Operands(inst: Inst): seq<nat> {
    match inst
    case Store(value, ptr) => [value, ptr]
    case Load(ptr) => [ptr]
    case CmpXchg(ptr, cmp, new_) => [ptr, cmp, new_]
    case Rmw(ptr, val) => [ptr, val]
    case Call(operands) => operands
    case Other(operands, _) => operands
  }

  predicate IsVoid(inst: Inst) {
    inst.Store? || (inst.Other? && inst.isVoid)
  }

  predicate IsUse(fn: Fn, v: nat, u: Use) {
    u.user < |fn.insts| && u.operandNo < |Operands(fn.insts[u.user])| && Operands(fn.insts[u.user])[u.operandNo] == v
  }

  // ---- what a use does ----

  /** The value is stored, or passed to a call. */
  predicate Escapes(fn: Fn, v: nat, u: Use)
    requires u.user < |fn.insts|
  {
    match fn.insts[u.user]
    case Store(value, _) => v == value
    case CmpXchg(_, _, new_) => v == new_
    case Rmw(_, val) => v == val
    case Call(_) => true
    case _ => false
  }

  function PointerOperand(inst: Inst): Option<nat> {
    match inst
    case Store(_, _) => Some(1)
    case Load(_) => Some(0)
    case CmpXchg(_, _, _) => Some(0)
    case Rmw(_, _) => Some(0)
    case _ => None
  }

  predicate IsAddress(fn: Fn, u: Use)
    requires u.user < |fn.insts|
  {
    PointerOperand(fn.insts[u.user]) == Some(u.operandNo)
  }

  predicate ReadsThrough(fn: Fn, u: Use)
    requires u.user < |fn.insts|
  {
    IsAddress(fn, u) && !fn.insts[u.user].Store?
  }

  predicate PassesOn(fn: Fn, u: Use)
    requires u.user < |fn.insts|
  {
    !IsAddress(fn, u) && !IsVoid(fn.insts[u.user])
  }

  // ---- derived values ----

  /** The value computed by `w` depends on `v`. */
  ghost predicate Edge(fn: Fn, v: nat, w: nat) {
    exists u :: IsUse(fn, v, u) && !Escapes(fn, v, u) && PassesOn(fn, u) && w == fn.numArgs + u.user
  }

  ghost predicate Path(fn: Fn, path: seq<nat>) {
    forall i :: 0 <= i < |path| - 1 ==> Edge(fn, path[i], path[i + 1])
  }

  ghost predicate Derived(fn: Fn, ptr: nat, v: nat) {
    exists path: seq<nat> :: path != [] && path[0] == ptr && path[|path| - 1] == v && Path(fn, path)
  }

  lemma DerivedSelf(fn: Fn, ptr: nat)
    ensures Derived(fn, ptr, ptr)
  {
    assert Path(fn, [ptr]) && [ptr][0] == ptr;
  }

  lemma DerivedStep(fn: Fn, ptr: nat, v: nat, w: nat)
    requires Derived(fn, ptr, v) && Edge(fn, v, w)
    ensures Derived(fn, ptr, w)
  {
    hide Edge;
    var path: seq<nat> :| path != [] && path[0] == ptr && path[|path| - 1] == v && Path(fn, path);
    var longer := path + [w];
    forall i | 0 <= i < |longer| - 1 ensures Edge(fn, longer[i], longer[i + 1]) {
      assert longer[i] == path[i];
    }
    assert longer[0] == ptr && longer[|longer| - 1] == w;
  }

  /** A set closed under the edges contains every derived value. */
  lemma {:induction false} ClosedContains(fn: Fn, path: seq<nat>, closed: set<nat>)
    requires path != [] && path[0] in closed && Path(fn, path)
    requires forall v, w :: v in closed && Edge(fn, v, w) ==> w in closed
    ensures path[|path| - 1] in closed
    decreases |path|
  {
    hide Edge;
    if |path| > 1 {
      var front := path[..|path| - 1];
      assert Path(fn, front) by {
        forall i | 0 <= i < |front| - 1 ensures Edge(fn, front[i], front[i + 1]) {
          assert Edge(fn, path[i], path[i + 1]);
        }
      }
      ClosedContains(fn, front, closed);
      assert Edge(fn, path[|path| - 2], path[|path| - 1]);
    }
  }

  // ---- specification ----

  ghost predicate SomeEscape(fn: Fn, ptr: nat) {
    exists v, u :: Derived(fn, ptr, v) && IsUse(fn, v, u) && Escapes(fn, v, u)
  }

  ghost predicate IsReadFrom(fn: Fn, ptr: nat, v: nat) {
    Derived(fn, ptr, v) && HasRead(fn, v)
  }

  ghost predicate HasRead(fn: Fn, v: nat) {
    exists u :: IsUse(fn, v, u) && ReadsThrough(fn, u)
  }

  // ---- the worklist ----

  /** The uses of a value, instruction by instruction. */
  method UsesOf(fn: Fn, v: nat) returns (uses: seq<Use>)
    ensures forall u :: u in uses <==> IsUse(fn, v, u)
  {
    uses := [];
    for i := 0 to |fn.insts|
      invariant forall u :: u in uses <==> IsUse(fn, v, u) && u.user < i
    {
      var ops := Operands(fn.insts[i]);
      for k := 0 to |ops|
        invariant forall u :: u in uses <==> IsUse(fn, v, u) && (u.user < i || (u.user == i && u.operandNo < k))
      {
        if ops[k] == v {
          uses := uses + [Use(i, k)];
        }
      }
    }
  }

  /** What has been done for the values taken from the queue: none escapes, everything passed on is
      known, and those read through are recorded. */
  ghost predicate Settled(fn: Fn, v: nat, u: Use, based: set<nat>, loaded: set<nat>) {
    IsUse(fn, v, u) ==>
      && !Escapes(fn, v, u)
      && (PassesOn(fn, u) ==> fn.numArgs + u.user in based)
      && (ReadsThrough(fn, u) ==> v in loaded)
  }

  ghost predicate AllSettled(fn: Fn, v: nat, based: set<nat>, loaded: set<nat>) {
    forall u :: Settled(fn, v, u, based, loaded)
  }

  /** The state of the worklist. */
  ghost predicate Progress(fn: Fn, ptr: nat, q: seq<nat>, based: set<nat>, loaded: set<nat>) {
    && ptr in based
    && (forall v :: v in q ==> v in based)
    && (forall v :: v in based ==> Derived(fn, ptr, v) && v < fn.numArgs + |fn.insts|)
    && (forall v :: v in loaded ==> IsReadFrom(fn, ptr, v))
  }

  ghost predicate Done(fn: Fn, q: seq<nat>, based: set<nat>, loaded: set<nat>) {
    forall v :: v in based && v !in q ==> AllSettled(fn, v, based, loaded)
  }

  lemma StaysSettled(fn: Fn, v: nat, based: set<nat>, loaded: set<nat>, based': set<nat>, loaded': set<nat>)
    requires AllSettled(fn, v, based, loaded) && based <= based' && loaded <= loaded'
    ensures AllSettled(fn, v, based', loaded')
  {
    forall u ensures Settled(fn, v, u, based', loaded') {
      assert Settled(fn, v, u, based, loaded);
    }
  }

  /** One use of a value taken from the queue. */
  method VisitUse(fn: Fn, ghost ptr: nat, val: nat, u: Use, q: seq<nat>, based: set<nat>, loaded: set<nat>)
    returns (ok: bool, q': seq<nat>, based': set<nat>, loaded': set<nat>)
    requires IsUse(fn, val, u) && Derived(fn, ptr, val) && Progress(fn, ptr, q, based, loaded)
    ensures !ok ==> SomeEscape(fn, ptr)
    ensures ok ==> Progress(fn, ptr, q', based', loaded') && Settled(fn, val, u, based', loaded')
    ensures ok ==> based <= based' && loaded <= loaded' && (forall v :: v in based' ==> v in based || v in q')
    ensures ok ==> q <= q' && (based' == based ==> q' == q)
  {
    hide Derived;
    ok, q', based', loaded' := true, q, based, loaded;
    var usr := fn.insts[u.user];
    if usr.Store? && val == usr.value {
      return false, q, based, loaded;
    }
    if usr.CmpXchg? && val == usr.new_ {
      return false, q, based, loaded;
    }
    if usr.Rmw? && val == usr.val {
      return false, q, based, loaded;
    }
    if usr.Call? {
      return false, q, based, loaded;
    }
    if usr.Store? && u.operandNo == 1 {
      return;
    }
    if (usr.Load? || usr.CmpXchg? || usr.Rmw?) && u.operandNo == 0 {
      assert ReadsThrough(fn, u) && HasRead(fn, val);
      loaded' := loaded + {val};
      return;
    }
    if !IsVoid(usr) {
      var w := fn.numArgs + u.user;
      assert Edge(fn, val, w);
      DerivedStep(fn, ptr, val, w);
      if w !in based {
        based', q' := based + {w}, q + [w];
      }
    }
  }

  /** All uses of one value. */
  method VisitValue(fn: Fn, ghost ptr: nat, val: nat, q: seq<nat>, based: set<nat>, loaded: set<nat>)
    returns (ok: bool, q': seq<nat>, based': set<nat>, loaded': set<nat>)
    requires val in based && Progress(fn, ptr, q, based, loaded)
    requires forall v :: v in based && v !in q && v != val ==> AllSettled(fn, v, based, loaded)
    ensures !ok ==> SomeEscape(fn, ptr)
    ensures ok ==> Progress(fn, ptr, q', based', loaded') && Done(fn, q', based', loaded')
    ensures ok ==> based <= based' && (based' == based ==> q' == q)
  {
    hide Progress, Derived, Settled;
    assert Derived(fn, ptr, val) by { BasedIsDerived(fn, ptr, q, based, loaded, val); }
    var uses := UsesOf(fn, val);
    ok, q', based', loaded' := true, q, based, loaded;
    for i := 0 to |uses|
      invariant Progress(fn, ptr, q', based', loaded')
      invariant based <= based' && loaded <= loaded' && q <= q' && (forall v :: v in based' ==> v in based || v in q')
      invariant based' == based ==> q' == q
      invariant forall j :: 0 <= j < i ==> Settled(fn, val, uses[j], based', loaded')
    {
      assert uses[i] in uses;
      var based0, loaded0 := based', loaded';
      ok, q', based', loaded' := VisitUse(fn, ptr, val, uses[i], q', based', loaded');
      if !ok {
        return;
      }
      forall j | 0 <= j < i ensures Settled(fn, val, uses[j], based', loaded') {
        SettledMore(fn, val, uses[j], based0, loaded0, based', loaded');
      }
    }
    forall u ensures Settled(fn, val, u, based', loaded') {
      NoUse(fn, val, u, based', loaded');
    }
    forall v | v in based' && v !in q' ensures AllSettled(fn, v, based', loaded') {
      if v != val {
        assert v in based && v !in q;
        StaysSettled(fn, v, based, loaded, based', loaded');
      }
    }
  }

  lemma BasedIsDerived(fn: Fn, ptr: nat, q: seq<nat>, based: set<nat>, loaded: set<nat>, v: nat)
    requires Progress(fn, ptr, q, based, loaded) && v in based
    ensures Derived(fn, ptr, v)
  {
  }

  lemma SettledMore(fn: Fn, v: nat, u: Use, based: set<nat>, loaded: set<nat>, based': set<nat>, loaded': set<nat>)
    requires Settled(fn, v, u, based, loaded) && based <= based' && loaded <= loaded'
    ensures Settled(fn, v, u, based', loaded')
  {
  }

  lemma NoUse(fn: Fn, v: nat, u: Use, based: set<nat>, loaded: set<nat>)
    ensures !IsUse(fn, v, u) ==> Settled(fn, v, u, based, loaded)
  {
  }

  function UpTo(n: nat): (s: set<nat>)
    ensures forall v: nat :: v in s <==> v < n
  {
    if n == 0 then {} else UpTo(n - 1) + {n - 1}
  }

  /** All value numbers. */
  function Values(fn: Fn): set<nat> {
    UpTo(fn.numArgs + |fn.insts|)
  }

  /** The closure: gives up exactly when some derived value escapes, and otherwise collects exactly the
      derived values that are read through. */
  method CollectReads(fn: Fn, ptr: nat) returns (ok: bool, loadedFromSet: set<nat>)
    requires ptr < fn.numArgs
    ensures ok <==> !SomeEscape(fn, ptr)
    ensures ok ==> forall v :: v in loadedFromSet <==> IsReadFrom(fn, ptr, v)
  {
    hide Derived, Settled, AllSettled;
    var basedOnSet: set<nat> := {ptr};
    var q: seq<nat> := [ptr];
    loadedFromSet := {};
    DerivedSelf(fn, ptr);
    while q != []
      invariant Progress(fn, ptr, q, basedOnSet, loadedFromSet) && Done(fn, q, basedOnSet, loadedFromSet)
      decreases Values(fn) - basedOnSet, |q|
    {
      var val := q[0];
      q := q[1..];
      ghost var before := basedOnSet;
      ok, q, basedOnSet, loadedFromSet := VisitValue(fn, ptr, val, q, basedOnSet, loadedFromSet);
      if !ok {
        return;
      }
      assert basedOnSet <= Values(fn);
      if before != basedOnSet {
        assert exists v :: v in basedOnSet && v !in before;
      }
    }
    ok := true;
    Closed(fn, ptr, basedOnSet, loadedFromSet);
  }

  /** An empty queue: the analysis is complete. */
  lemma Closed(fn: Fn, ptr: nat, based: set<nat>, loaded: set<nat>)
    requires Progress(fn, ptr, [], based, loaded) && Done(fn, [], based, loaded)
    ensures !SomeEscape(fn, ptr) && forall v :: v in loaded <==> IsReadFrom(fn, ptr, v)
  {
    hide Derived, Path, Edge;
    forall v: nat | Derived(fn, ptr, v) ensures v in based {
      DerivedInBased(fn, ptr, based, loaded, v);
    }
    forall v, u | v in based && IsUse(fn, v, u) ensures !Escapes(fn, v, u) && (ReadsThrough(fn, u) ==> v in loaded) {
      assert AllSettled(fn, v, based, loaded);
      assert Settled(fn, v, u, based, loaded);
    }
  }

  lemma DerivedInBased(fn: Fn, ptr: nat, based: set<nat>, loaded: set<nat>, v: nat)
    requires Progress(fn, ptr, [], based, loaded) && Done(fn, [], based, loaded) && Derived(fn, ptr, v)
    ensures v in based
  {
    var path: seq<nat> :| path != [] && path[0] == ptr && path[|path| - 1] == v && Path(fn, path);
    hide Derived, Path;
    forall x, w | x in based && Edge(fn, x, w) ensures w in based {
      var u :| IsUse(fn, x, u) && !Escapes(fn, x, u) && PassesOn(fn, u) && w == fn.numArgs + u.user;
      assert AllSettled(fn, x, based, loaded);
      assert Settled(fn, x, u, based, loaded);
    }
    ClosedContains(fn, path, based);
  }

  // ---- the result ----

  /** `TryAnalyzeBytecodeReadLocations`: the expressions of all locations read, if every one of them
      has an expression.  `exprs` is the outcome of the expression analysis, which may fail. */
  method TryAnalyze(fn: Fn, ptr: nat, exprs: Option<map<nat, set<nat>>>) returns (result: Option<set<nat>>)
    requires ptr < fn.numArgs
    ensures result.Some? <==>
      !SomeEscape(fn, ptr) && exprs.Some? && forall v :: IsReadFrom(fn, ptr, v) ==> v in exprs.value
    ensures result.Some? ==> forall x :: x in result.value <==>
      exists v :: IsReadFrom(fn, ptr, v) && v in exprs.value && x in exprs.value[v]
  {
    hide IsReadFrom;
    var ok, loadedFromSet := CollectReads(fn, ptr);
    if !ok || exprs.None? {
      return None;
    }
    var r: set<nat> := {};
    var rest := loadedFromSet;
    while rest != {}
      invariant rest <= loadedFromSet
      invariant forall v :: v in loadedFromSet && v !in rest ==> v in exprs.value
      invariant forall x :: x in r <==> exists v :: v in loadedFromSet && v !in rest && v in exprs.value && x in exprs.value[v]
      decreases rest
    {
      var loadPtrOperand :| loadPtrOperand in rest;
      if loadPtrOperand !in exprs.value {
        assert IsReadFrom(fn, ptr, loadPtrOperand);
        return None;
      }
      r := r + exprs.value[loadPtrOperand];
      rest := rest - {loadPtrOperand};
    }
    result := Some(r);
  }
}
