/** Tail duplication: inline cache cases that all jump to one small dispatching block each get their
    own copy of it.

    The pass works on a function in SSA form.  It removes the block's incoming edges one at a time,
    replacing each PHI by the value that came in along the removed edge.  Whatever path is taken, the
    rewritten function makes the same dispatch, to the same target with the same arguments and the
    same memory. */
module TailDuplicate {
  import opened Wrappers

  datatype Operand = Literal(n: nat) | Val(id: nat)

  /** PHIs, ordinary instructions, and the inline assembly that only keeps blocks apart. */
  datatype Inst =
    | Phi(id: nat, incoming: map<nat, Operand>)
    | Op(id: nat, code: nat, operands: seq<Operand>)
    | Dummy(ord: nat)

  datatype Term =
    | Br(dest: nat)
    | CondBr(cond: Operand, yes: nat, no: nat)
    | TailCall(callee: Operand, args: seq<Operand>)

  datatype Block = Block(insts: seq<Inst>, term: Term)

  type Fn = map<nat, Block>

  type Env = map<nat, nat>

  /** What the instructions compute: from the opcode, the operands and the memory, a value and the
      new memory. */
  type Interp = (nat, seq<nat>, nat) -> (nat, nat)

  // ---- meaning ----

  function Eval(env: Env, v: Operand): nat {
    match v
    case Literal(n) => n
    case Val(id) => if id in env then env[id] else 0
  }

  function EvalAll(env: Env, vs: seq<Operand>): (ns: seq<nat>)
    ensures |ns| == |vs|
  {
    seq(|vs|, i requires 0 <= i < |vs| => Eval(env, vs[i]))
  }

  datatype State = State(env: Env, mem: nat)

  /** One instruction; PHIs read the values on entry to the block. */
  function ExecInst(interp: Interp, inst: Inst, prev: Option<nat>, entry: Env, s: State): State {
    match inst
    case Phi(id, incoming) =>
      var v := if prev.Some? && prev.value in incoming then Eval(entry, incoming[prev.value]) else 0;
      State(s.env[id := v], s.mem)
    case Op(id, code, operands) =>
      var (v, mem') := interp(code, EvalAll(s.env, operands), s.mem);
      State(s.env[id := v], mem')
    case Dummy(_) => s
  }

  function Exec(interp: Interp, insts: seq<Inst>, prev: Option<nat>, entry: Env, s: State): State {
    if insts == [] then s
    else
      var n := |insts| - 1;
      ExecInst(interp, insts[n], prev, entry, Exec(interp, insts[..n], prev, entry, s))
  }

  datatype Result = Dispatched(callee: nat, args: seq<nat>, mem: nat) | Running

  /** The block that is executed next. */
  function Successor(t: Term, env: Env): nat
    requires !t.TailCall?
  {
    match t
    case Br(dest) => dest
    case CondBr(cond, yes, no) => if Eval(env, cond) != 0 then yes else no
  }

  /** `fuel` blocks, starting with `b` entered from `prev`. */
  function Run(interp: Interp, fn: Fn, b: nat, prev: Option<nat>, s: State, fuel: nat): Result
    decreases fuel
  {
    if fuel == 0 || b !in fn then Running
    else
      var s' := Exec(interp, fn[b].insts, prev, s.env, s);
      match fn[b].term
      case TailCall(callee, args) => Dispatched(Eval(s'.env, callee), EvalAll(s'.env, args), s'.mem)
      case t => Run(interp, fn, Successor(t, s'.env), Some(b), s', fuel - 1)
  }

  lemma {:induction false} ExecAppend(interp: Interp, a: seq<Inst>, b: seq<Inst>, prev: Option<nat>, entry: Env, s: State)
    ensures Exec(interp, a + b, prev, entry, s) == Exec(interp, b, prev, entry, Exec(interp, a, prev, entry, s))
  {
    if b == [] {
      assert a + b == a;
    } else {
      var n := |b| - 1;
      assert (a + b)[..|a| + n] == a + b[..n] && (a + b)[|a| + n] == b[n];
      ExecAppend(interp, a, b[..n], prev, entry, s);
    }
  }

  // ---- the rewrite of one edge ----

  function Subst(remap: map<nat, Operand>, v: Operand): Operand {
    if v.Val? && v.id in remap then remap[v.id] else v
  }

  function SubstAll(remap: map<nat, Operand>, vs: seq<Operand>): (ws: seq<Operand>)
    ensures |ws| == |vs|
  {
    seq(|vs|, i requires 0 <= i < |vs| => Subst(remap, vs[i]))
  }

  /** The copy made so far: its instructions, what the original values became, and the next unused
      value name. */
  datatype Copy = Copy(insts: seq<Inst>, remap: map<nat, Operand>, next: nat)

  predicate HasEdge(insts: seq<Inst>, target: nat) {
    forall k :: 0 <= k < |insts| && insts[k].Phi? ==> target in insts[k].incoming
  }

  function CloneInst(c: Copy, inst: Inst, target: nat): Copy {
    match inst
    case Phi(id, incoming) =>
      if target in incoming then Copy(c.insts, c.remap[id := incoming[target]], c.next) else c
    case Op(id, code, operands) =>
      Copy(c.insts + [Op(c.next, code, SubstAll(c.remap, operands))], c.remap[id := Val(c.next)], c.next + 1)
    case Dummy(ord) => Copy(c.insts + [Dummy(ord)], c.remap, c.next)
  }

  function Clone(insts: seq<Inst>, target: nat, next: nat): Copy {
    if insts == [] then Copy([], map[], next)
    else CloneInst(Clone(insts[..|insts| - 1], target, next), insts[|insts| - 1], target)
  }

  /** The original block without the edge. */
  function DropEdgeInst(inst: Inst, target: nat): Inst {
    if inst.Phi? then Phi(inst.id, inst.incoming - {target}) else inst
  }

  function DropEdge(insts: seq<Inst>, target: nat): (r: seq<Inst>)
    ensures |r| == |insts|
  {
    seq(|insts|, i requires 0 <= i < |insts| => DropEdgeInst(insts[i], target))
  }

  /** An unconditional jump to a block that ends in a tail call. */
  predicate Candidate(fn: Fn, target: nat) {
    && target in fn && fn[target].term.Br?
    && var dest := fn[target].term.dest;
       dest in fn && fn[dest].term.TailCall? && HasEdge(fn[dest].insts, target)
  }

  function CloneTerm(remap: map<nat, Operand>, t: Term): Term {
    if t.TailCall? then TailCall(Subst(remap, t.callee), SubstAll(remap, t.args)) else t
  }

  function Rewritten(fn: Fn, target: nat, next: nat, ord: nat): Fn
    requires Candidate(fn, target)
  {
    var dest := fn[target].term.dest;
    var c := Clone(fn[dest].insts, target, next);
    fn[target := Block(fn[target].insts + c.insts, CloneTerm(c.remap, fn[dest].term))]
      [dest := Block(DropEdge(fn[dest].insts, target) + [Dummy(ord)], fn[dest].term)]
  }

  // ---- PHIs and predecessors ----

  predicate JumpsTo(t: Term, b: nat) {
    match t
    case Br(dest) => b == dest
    case CondBr(_, yes, no) => b == yes || b == no
    case TailCall(_, _) => false
  }

  /** Execution goes on only with blocks that the terminator names, and with each of them in some
      environment, unless its condition is a literal. */
  lemma JumpsAreTaken(t: Term, b: nat)
    requires !t.TailCall?
    ensures forall env :: JumpsTo(t, Successor(t, env))
    ensures JumpsTo(t, b) && (t.CondBr? ==> t.cond.Val?) ==> exists env :: Successor(t, env) == b
  {
    if JumpsTo(t, b) {
      var env: Env := if t.CondBr? && t.cond.Val? && b == t.yes then map[t.cond.id := 1] else map[];
      assert (t.CondBr? ==> t.cond.Val?) ==> Successor(t, env) == b;
    }
  }

  predicate IsPredecessor(fn: Fn, p: nat, b: nat) {
    p in fn && JumpsTo(fn[p].term, b)
  }

  /** Every PHI among the instructions of block `b` has a value for each predecessor of the block, and
      for nothing else. */
  ghost predicate PhisMatch(fn: Fn, b: nat, insts: seq<Inst>) {
    forall k, p: nat :: 0 <= k < |insts| && insts[k].Phi? ==> (p in insts[k].incoming <==> IsPredecessor(fn, p, b))
  }

  /** What the validator of the intermediate representation demands: jumps stay inside the function,
      and the incoming blocks of every PHI are exactly the predecessors of its block. */
  ghost predicate ValidJumps(fn: Fn) {
    && (forall p, b: nat :: IsPredecessor(fn, p, b) ==> b in fn)
    && (forall b: nat :: b in fn ==> PhisMatch(fn, b, fn[b].insts))
  }

  lemma ValidEdge(fn: Fn, b: nat)
    requires ValidJumps(fn) && b in fn && fn[b].term.Br?
    ensures fn[b].term.dest in fn && HasEdge(fn[fn[b].term.dest].insts, b)
  {
    var dest := fn[b].term.dest;
    assert IsPredecessor(fn, b, dest);
    assert PhisMatch(fn, dest, fn[dest].insts);
  }

  lemma {:induction false} CloneHasNoPhi(insts: seq<Inst>, target: nat, next: nat)
    ensures forall k :: 0 <= k < |Clone(insts, target, next).insts| ==> !Clone(insts, target, next).insts[k].Phi?
  {
    if insts != [] {
      CloneHasNoPhi(insts[..|insts| - 1], target, next);
    }
  }

  /** The rewrite removes one edge, and with it the values that came in along it. */
  lemma RewrittenPredecessors(fn: Fn, target: nat, first: nat, ord: nat, p: nat, b: nat)
    requires Candidate(fn, target)
    ensures IsPredecessor(Rewritten(fn, target, first, ord), p, b)
       <==> IsPredecessor(fn, p, b) && !(p == target && b == fn[target].term.dest)
  {
    hide Clone, DropEdge, HasEdge;
  }

  lemma RewriteKeepsJumps(fn: Fn, target: nat, first: nat, ord: nat)
    requires Candidate(fn, target) && ValidJumps(fn)
    ensures ValidJumps(Rewritten(fn, target, first, ord))
  {
    hide Clone, HasEdge, JumpsTo, DropEdge;
    var fn' := Rewritten(fn, target, first, ord);
    forall p, b: nat | IsPredecessor(fn', p, b) ensures b in fn' {
      RewrittenPredecessors(fn, target, first, ord, p, b);
    }
    forall b: nat | b in fn' ensures PhisMatch(fn', b, fn'[b].insts) {
      RewrittenPhis(fn, target, first, ord, b);
    }
  }

  lemma RewrittenPhis(fn: Fn, target: nat, first: nat, ord: nat, b: nat)
    requires Candidate(fn, target) && ValidJumps(fn) && b in fn
    ensures b in Rewritten(fn, target, first, ord)
    ensures PhisMatch(Rewritten(fn, target, first, ord), b, Rewritten(fn, target, first, ord)[b].insts)
  {
    hide Clone, HasEdge, IsPredecessor;
    var fn' := Rewritten(fn, target, first, ord);
    CloneHasNoPhi(fn[fn[target].term.dest].insts, target, first);
    assert PhisMatch(fn, b, fn[b].insts);
    forall k, p: nat | 0 <= k < |fn'[b].insts| && fn'[b].insts[k].Phi?
      ensures p in fn'[b].insts[k].incoming <==> IsPredecessor(fn', p, b)
    {
      RewrittenPredecessors(fn, target, first, ord, p, b);
      assert p in fn[b].insts[k].incoming <==> IsPredecessor(fn, p, b);
    }
  }

  // ---- names ----

  predicate OperandBelow(v: Operand, n: nat) {
    v.Val? ==> v.id < n
  }

  predicate OperandsBelow(vs: seq<Operand>, n: nat) {
    forall k :: 0 <= k < |vs| ==> OperandBelow(vs[k], n)
  }

  predicate InstBelow(inst: Inst, n: nat) {
    match inst
    case Phi(id, incoming) => id < n && forall b :: b in incoming ==> OperandBelow(incoming[b], n)
    case Op(id, _, operands) => id < n && OperandsBelow(operands, n)
    case Dummy(_) => true
  }

  predicate InstsBelow(insts: seq<Inst>, n: nat) {
    forall k :: 0 <= k < |insts| ==> InstBelow(insts[k], n)
  }

  predicate TermBelow(t: Term, n: nat) {
    match t
    case Br(_) => true
    case CondBr(cond, _, _) => OperandBelow(cond, n)
    case TailCall(callee, args) => OperandBelow(callee, n) && OperandsBelow(args, n)
  }

  predicate BlockBelow(b: Block, n: nat) {
    InstsBelow(b.insts, n) && TermBelow(b.term, n)
  }

  /** All value names of the function are below `n`. */
  predicate FnBelow(fn: Fn, n: nat) {
    forall b :: b in fn ==> BlockBelow(fn[b], n)
  }

  // ---- the copy computes what the original computed ----

  /** After some instructions of the original block and of its copy: every value the function can
      name is what its replacement is in the copy; the copy has only added new names. */
  ghost predicate Agrees(first: nat, s: State, s': State, c: Copy, entry: Env) {
    && first <= c.next && s.mem == s'.mem
    && (forall id: nat :: id < first ==> Eval(s.env, Val(id)) == Eval(s'.env, Subst(c.remap, Val(id))))
    && (forall id: nat :: id < first ==> Eval(s'.env, Val(id)) == Eval(entry, Val(id)))
    && (forall id :: id in c.remap ==> OperandBelow(c.remap[id], c.next))
  }

  lemma AgreeingOperands(first: nat, s: State, s': State, c: Copy, entry: Env, vs: seq<Operand>)
    requires Agrees(first, s, s', c, entry) && OperandsBelow(vs, first)
    ensures EvalAll(s'.env, SubstAll(c.remap, vs)) == EvalAll(s.env, vs)
  {
    forall i | 0 <= i < |vs| ensures Eval(s'.env, Subst(c.remap, vs[i])) == Eval(s.env, vs[i]) {
      assert OperandBelow(vs[i], first);
    }
  }

  lemma ClonePhi(first: nat, s: State, s': State, c: Copy, entry: Env, id: nat, v: Operand)
    requires Agrees(first, s, s', c, entry) && OperandBelow(v, first)
    ensures Agrees(first, State(s.env[id := Eval(entry, v)], s.mem), s', Copy(c.insts, c.remap[id := v], c.next), entry)
  {
    assert Eval(s'.env, v) == Eval(entry, v);
  }

  lemma CloneOp(first: nat, s: State, s': State, c: Copy, insts: seq<Inst>, entry: Env, id: nat, v: nat, mem: nat)
    requires Agrees(first, s, s', c, entry)
    ensures Agrees(first, State(s.env[id := v], mem), State(s'.env[c.next := v], mem),
                   Copy(insts, c.remap[id := Val(c.next)], c.next + 1), entry)
  {
    var t, t', d := s.env[id := v], s'.env[c.next := v], c.remap[id := Val(c.next)];
    forall x: nat | x < first
      ensures Eval(t, Val(x)) == Eval(t', Subst(d, Val(x))) && Eval(t', Val(x)) == Eval(entry, Val(x))
    {
      if x != id && x in c.remap {
        assert OperandBelow(c.remap[x], c.next);
      }
    }
  }

  lemma CloneStep(interp: Interp, first: nat, inst: Inst, target: nat, prev: Option<nat>, entry: Env, entry': Env, s: State, s': State, c: Copy)
    requires Agrees(first, s, s', c, entry) && InstBelow(inst, first) && (inst.Phi? ==> target in inst.incoming)
    ensures var c2 := CloneInst(c, inst, target);
            var t := ExecInst(interp, inst, Some(target), entry, s);
            var t' := if inst.Phi? then s' else ExecInst(interp, c2.insts[|c2.insts| - 1], prev, entry', s');
            Agrees(first, t, t', c2, entry)
  {
    match inst {
      case Phi(id, incoming) =>
        hide Agrees, Eval;
        ClonePhi(first, s, s', c, entry, id, incoming[target]);
      case Op(id, code, operands) =>
        AgreeingOperands(first, s, s', c, entry, operands);
        assert s.mem == s'.mem;
        hide Agrees, Eval, EvalAll, SubstAll;
        var (v, mem) := interp(code, EvalAll(s.env, operands), s.mem);
        CloneOp(first, s, s', c, c.insts + [Op(c.next, code, SubstAll(c.remap, operands))], entry, id, v, mem);
      case Dummy(_) =>
    }
  }

  lemma {:induction false} CloneRuns(interp: Interp, insts: seq<Inst>, target: nat, first: nat, prev: Option<nat>, entry': Env, s: State)
    requires InstsBelow(insts, first) && HasEdge(insts, target)
    ensures var c := Clone(insts, target, first);
            Agrees(first, Exec(interp, insts, Some(target), s.env, s), Exec(interp, c.insts, prev, entry', s), c, s.env)
  {
    hide CloneInst, ExecInst, Agrees;
    var c := Clone(insts, target, first);
    if insts == [] {
      NothingCloned(first, s);
    } else {
      var n := |insts| - 1;
      CloneRuns(interp, insts[..n], target, first, prev, entry', s);
      var c0 := Clone(insts[..n], target, first);
      var t, t' := Exec(interp, insts[..n], Some(target), s.env, s), Exec(interp, c0.insts, prev, entry', s);
      CloneStep(interp, first, insts[n], target, prev, s.env, entry', t, t', c0);
      CloneGrows(c0, insts[n], target);
    }
  }

  lemma NothingCloned(first: nat, s: State)
    ensures Agrees(first, s, s, Copy([], map[], first), s.env)
  {
  }

  lemma CloneGrows(c: Copy, inst: Inst, target: nat)
    ensures var c2 := CloneInst(c, inst, target);
            if inst.Phi? then c2.insts == c.insts else |c2.insts| == |c.insts| + 1 && c2.insts[..|c.insts|] == c.insts
  {
  }

  /** Jumping to the block and dispatching there is what the copy does on the spot. */
  lemma CopyDispatches(interp: Interp, fn: Fn, target: nat, first: nat, ord: nat, prev: Option<nat>, s: State, fuel: nat)
    requires Candidate(fn, target) && FnBelow(fn, first) && fuel > 0
    ensures Run(interp, Rewritten(fn, target, first, ord), target, prev, s, fuel) == Run(interp, fn, target, prev, s, fuel + 1)
    ensures Run(interp, fn, target, prev, s, fuel + 1).Dispatched?
    ensures Run(interp, fn, target, prev, s, 1) == Running
  {
    hide Agrees, Clone, Exec, FnBelow, BlockBelow, Eval, EvalAll, HasEdge;
    var dest := fn[target].term.dest;
    BlockNames(fn, dest, first);
    var c := Clone(fn[dest].insts, target, first);
    var mid := Exec(interp, fn[target].insts, prev, s.env, s);
    CloneRuns(interp, fn[dest].insts, target, first, prev, s.env, mid);
    ExecAppend(interp, fn[target].insts, c.insts, prev, s.env, s);
    var end, end' := Exec(interp, fn[dest].insts, Some(target), mid.env, mid), Exec(interp, c.insts, prev, s.env, mid);
    AgreeingCall(first, end, end', c, mid.env, fn[dest].term);
    assert Run(interp, fn, dest, Some(target), mid, fuel)
        == Dispatched(Eval(end.env, fn[dest].term.callee), EvalAll(end.env, fn[dest].term.args), end.mem);
  }

  lemma BlockNames(fn: Fn, b: nat, n: nat)
    requires FnBelow(fn, n) && b in fn
    ensures InstsBelow(fn[b].insts, n) && TermBelow(fn[b].term, n)
  {
  }

  lemma AgreeingCall(first: nat, s: State, s': State, c: Copy, entry: Env, t: Term)
    requires Agrees(first, s, s', c, entry) && t.TailCall? && TermBelow(t, first)
    ensures Eval(s'.env, Subst(c.remap, t.callee)) == Eval(s.env, t.callee)
    ensures EvalAll(s'.env, SubstAll(c.remap, t.args)) == EvalAll(s.env, t.args)
    ensures s'.mem == s.mem
  {
    AgreeingOperands(first, s, s', c, entry, t.args);
  }

  /** Entered along any other edge, the original block runs as before. */
  lemma {:induction false} OtherEdges(interp: Interp, insts: seq<Inst>, target: nat, prev: Option<nat>, entry: Env, s: State)
    requires prev != Some(target)
    ensures Exec(interp, DropEdge(insts, target), prev, entry, s) == Exec(interp, insts, prev, entry, s)
  {
    if insts != [] {
      var n := |insts| - 1;
      OtherEdges(interp, insts[..n], target, prev, entry, s);
      assert DropEdge(insts, target)[..n] == DropEdge(insts[..n], target);
    }
  }

  lemma DummyLast(interp: Interp, insts: seq<Inst>, ord: nat, prev: Option<nat>, entry: Env, s: State)
    ensures Exec(interp, insts + [Dummy(ord)], prev, entry, s) == Exec(interp, insts, prev, entry, s)
  {
    assert (insts + [Dummy(ord)])[..|insts|] == insts;
  }

  // ---- the whole function ----

  /** The edge that the rewrite removes. */
  predicate RemovedEdge(fn: Fn, target: nat, b: nat, prev: Option<nat>)
    requires Candidate(fn, target)
  {
    prev == Some(target) && b == fn[target].term.dest
  }

  lemma SameBlock(interp: Interp, fn: Fn, target: nat, first: nat, ord: nat, b: nat, prev: Option<nat>, s: State)
    requires Candidate(fn, target) && !RemovedEdge(fn, target, b, prev) && b in fn && b != target
    ensures var fn' := Rewritten(fn, target, first, ord);
            && b in fn' && fn'[b].term == fn[b].term
            && Exec(interp, fn'[b].insts, prev, s.env, s) == Exec(interp, fn[b].insts, prev, s.env, s)
  {
    hide Exec, Clone;
    if b == fn[target].term.dest {
      DummyLast(interp, DropEdge(fn[b].insts, target), ord, prev, s.env, s);
      OtherEdges(interp, fn[b].insts, target, prev, s.env, s);
    }
  }

  /** Both functions make the same dispatch; the rewritten one needs at most one block less. */
  lemma {:induction false} RewriteKeepsRuns(interp: Interp, fn: Fn, target: nat, first: nat, ord: nat, b: nat, prev: Option<nat>, s: State, fuel: nat)
    requires Candidate(fn, target) && FnBelow(fn, first) && !RemovedEdge(fn, target, b, prev)
    ensures var r, r' := Run(interp, fn, b, prev, s, fuel), Run(interp, Rewritten(fn, target, first, ord), b, prev, s, fuel);
            && (r.Dispatched? ==> r' == r)
            && (r'.Dispatched? ==> Run(interp, fn, b, prev, s, fuel + 1) == r')
    decreases fuel
  {
    hide Exec, Clone, FnBelow, HasEdge;
    if fuel > 0 && b in fn {
      if b == target {
        CopyDispatches(interp, fn, target, first, ord, prev, s, fuel);
        if fuel > 1 {
          CopyDispatches(interp, fn, target, first, ord, prev, s, fuel - 1);
        }
      } else {
        SameBlock(interp, fn, target, first, ord, b, prev, s);
        var s' := Exec(interp, fn[b].insts, prev, s.env, s);
        if !fn[b].term.TailCall? {
          RewriteKeepsRuns(interp, fn, target, first, ord, Successor(fn[b].term, s'.env), Some(b), s', fuel - 1);
        }
      }
    }
  }

  /** From the entry block the function ends in this dispatch. */
  ghost predicate Dispatches(interp: Interp, fn: Fn, entry: nat, s: State, r: Result) {
    r.Dispatched? && exists fuel: nat :: Run(interp, fn, entry, None, s, fuel) == r
  }

  /** For every environment and memory, and every way instructions may compute. */
  ghost predicate SameMeaning(fn: Fn, fn': Fn) {
    forall interp, entry, s, r :: Dispatches(interp, fn, entry, s, r) <==> Dispatches(interp, fn', entry, s, r)
  }

  lemma RewriteKeepsMeaning(fn: Fn, target: nat, first: nat, ord: nat)
    requires Candidate(fn, target) && FnBelow(fn, first)
    ensures SameMeaning(fn, Rewritten(fn, target, first, ord))
  {
    hide Run, Rewritten, FnBelow, HasEdge;
    var fn' := Rewritten(fn, target, first, ord);
    forall interp, entry, s, r
      ensures Dispatches(interp, fn, entry, s, r) <==> Dispatches(interp, fn', entry, s, r)
    {
      if Dispatches(interp, fn, entry, s, r) {
        var fuel: nat :| Run(interp, fn, entry, None, s, fuel) == r;
        RewriteKeepsRuns(interp, fn, target, first, ord, entry, None, s, fuel);
        assert Run(interp, fn', entry, None, s, fuel) == r;
      }
      if Dispatches(interp, fn', entry, s, r) {
        var fuel: nat :| Run(interp, fn', entry, None, s, fuel) == r;
        RewriteKeepsRuns(interp, fn, target, first, ord, entry, None, s, fuel);
        assert Run(interp, fn, entry, None, s, fuel + 1) == r;
      }
    }
  }

  // ---- the pass ----

  lemma SameMeaningTransitive(f: Fn, g: Fn, h: Fn)
    requires SameMeaning(f, g) && SameMeaning(g, h)
    ensures SameMeaning(f, h)
  {
    hide Dispatches;
  }

  lemma {:induction false} CloneNames(insts: seq<Inst>, target: nat, first: nat)
    requires InstsBelow(insts, first)
    ensures var c := Clone(insts, target, first);
            c.next >= first && InstsBelow(c.insts, c.next) && forall id :: id in c.remap ==> OperandBelow(c.remap[id], c.next)
  {
    if insts != [] {
      var n := |insts| - 1;
      CloneNames(insts[..n], target, first);
      assert InstBelow(insts[n], first);
      CloneInstNames(Clone(insts[..n], target, first), insts[n], target, first);
    }
  }

  lemma CloneInstNames(c: Copy, inst: Inst, target: nat, first: nat)
    requires InstBelow(inst, first) && first <= c.next && InstsBelow(c.insts, c.next)
    requires forall id :: id in c.remap ==> OperandBelow(c.remap[id], c.next)
    ensures var c2 := CloneInst(c, inst, target);
            c2.next >= c.next && InstsBelow(c2.insts, c2.next) && forall id :: id in c2.remap ==> OperandBelow(c2.remap[id], c2.next)
  {
    MoreNames(c.insts, c.next, c.next + 1);
    if inst.Op? {
      SubstNames(c.remap, inst.operands, c.next);
    }
  }

  lemma SubstNames(remap: map<nat, Operand>, vs: seq<Operand>, n: nat)
    requires OperandsBelow(vs, n) && forall id :: id in remap ==> OperandBelow(remap[id], n)
    ensures OperandsBelow(SubstAll(remap, vs), n)
  {
    forall k | 0 <= k < |vs| ensures OperandBelow(SubstAll(remap, vs)[k], n) {
      assert OperandBelow(vs[k], n);
    }
  }

  lemma MoreNames(insts: seq<Inst>, m: nat, n: nat)
    requires InstsBelow(insts, m) && m <= n
    ensures InstsBelow(insts, n)
  {
    forall k | 0 <= k < |insts| ensures InstBelow(insts[k], n) {
      assert InstBelow(insts[k], m);
      if insts[k].Op? {
        assert OperandsBelow(insts[k].operands, m);
      }
    }
  }

  lemma MoreTermNames(t: Term, m: nat, n: nat)
    requires TermBelow(t, m) && m <= n
    ensures TermBelow(t, n)
  {
    if t.TailCall? {
      assert OperandsBelow(t.args, m);
    }
  }

  lemma DropEdgeNames(insts: seq<Inst>, target: nat, n: nat)
    requires InstsBelow(insts, n)
    ensures InstsBelow(DropEdge(insts, target), n)
  {
    forall k | 0 <= k < |insts| ensures InstBelow(DropEdge(insts, target)[k], n) {
      assert InstBelow(insts[k], n);
    }
  }

  lemma AppendNames(a: seq<Inst>, b: seq<Inst>, n: nat)
    requires InstsBelow(a, n) && InstsBelow(b, n)
    ensures InstsBelow(a + b, n)
  {
  }

  /** The names of the rewritten function. */
  lemma RewrittenNames(fn: Fn, target: nat, first: nat, ord: nat)
    requires Candidate(fn, target) && FnBelow(fn, first)
    ensures var next := Clone(fn[fn[target].term.dest].insts, target, first).next;
            next >= first && FnBelow(Rewritten(fn, target, first, ord), next)
  {
    hide Clone, InstsBelow, TermBelow, DropEdge, HasEdge, SubstAll, OperandsBelow;
    var dest := fn[target].term.dest;
    var c := Clone(fn[dest].insts, target, first);
    assert BlockBelow(fn[target], first) && BlockBelow(fn[dest], first);
    CloneNames(fn[dest].insts, target, first);
    forall b | b in fn ensures InstsBelow(fn[b].insts, c.next) && TermBelow(fn[b].term, c.next) {
      assert BlockBelow(fn[b], first);
      MoreNames(fn[b].insts, first, c.next);
      MoreTermNames(fn[b].term, first, c.next);
    }
    AppendNames(fn[target].insts, c.insts, c.next);
    DropEdgeNames(fn[dest].insts, target, c.next);
    DummyNames(ord, c.next);
    AppendNames(DropEdge(fn[dest].insts, target), [Dummy(ord)], c.next);
    CallNames(c, fn[dest].term);
  }

  lemma DummyNames(ord: nat, n: nat)
    ensures InstsBelow([Dummy(ord)], n)
  {
  }

  lemma CallNames(c: Copy, t: Term)
    requires TermBelow(t, c.next) && t.TailCall? && forall id :: id in c.remap ==> OperandBelow(c.remap[id], c.next)
    ensures TermBelow(CloneTerm(c.remap, t), c.next)
  {
    SubstNames(c.remap, t.args, c.next);
  }

  /** Rewriting one candidate leaves the others candidates, even those with the same destination. */
  lemma StaysCandidate(fn: Fn, target: nat, first: nat, ord: nat, other: nat)
    requires Candidate(fn, target) && Candidate(fn, other) && other != target
    ensures Candidate(Rewritten(fn, target, first, ord), other)
  {
    hide Clone;
    var dest := fn[target].term.dest;
    var insts := DropEdge(fn[dest].insts, target) + [Dummy(ord)];
    if fn[other].term.dest == dest {
      forall k | 0 <= k < |insts| && insts[k].Phi? ensures other in insts[k].incoming {
        assert other in fn[dest].insts[k].incoming;
      }
    }
  }

  /** The function after visiting `i` instructions of the destination block. */
  ghost function Partial(fn: Fn, target: nat, first: nat, i: nat): Fn
    requires Candidate(fn, target) && i <= |fn[fn[target].term.dest].insts|
  {
    var dest := fn[target].term.dest;
    fn[target := Block(fn[target].insts + Clone(fn[dest].insts[..i], target, first).insts, fn[target].term)]
      [dest := Block(DropEdge(fn[dest].insts[..i], target) + fn[dest].insts[i..], fn[dest].term)]
  }

  lemma PartialStart(fn: Fn, target: nat, first: nat)
    requires Candidate(fn, target)
    ensures Partial(fn, target, first, 0) == fn
  {
    hide HasEdge;
    var dest := fn[target].term.dest;
    assert fn[target].insts + [] == fn[target].insts;
    NoEdgeDropped(fn[dest].insts, target);
  }

  lemma PartialParts(fn: Fn, target: nat, first: nat, i: nat)
    requires Candidate(fn, target) && i <= |fn[fn[target].term.dest].insts|
    ensures var dest, p := fn[target].term.dest, Partial(fn, target, first, i);
            && dest != target && target in p && dest in p && p[dest].term == fn[dest].term && p[target].term == fn[target].term
            && p[target].insts == fn[target].insts + Clone(fn[dest].insts[..i], target, first).insts
            && |p[dest].insts| == |fn[dest].insts|
            && (i < |fn[dest].insts| ==> p[dest].insts[i] == fn[dest].insts[i])
  {
    hide HasEdge, Clone, DropEdgeInst;
  }

  lemma PartialMore(fn: Fn, target: nat, first: nat, i: nat)
    requires Candidate(fn, target) && i < |fn[fn[target].term.dest].insts|
    ensures var dest, p := fn[target].term.dest, Partial(fn, target, first, i);
            && target in p && dest in p && i < |p[dest].insts|
            && Partial(fn, target, first, i + 1)
               == p[target := Block(fn[target].insts + Clone(fn[dest].insts[..i + 1], target, first).insts, fn[target].term)]
                   [dest := Block(p[dest].insts[i := DropEdgeInst(fn[dest].insts[i], target)], fn[dest].term)]
  {
    hide HasEdge, Clone, DropEdgeInst;
    var insts := fn[fn[target].term.dest].insts;
    DropEdgeMore(insts, target, i);
    var p := DropEdge(insts[..i], target) + insts[i..];
    assert p[i := DropEdgeInst(insts[i], target)] == DropEdge(insts[..i + 1], target) + insts[i + 1..];
  }

  lemma PartialEnd(fn: Fn, target: nat, first: nat, ord: nat)
    requires Candidate(fn, target)
    ensures var dest := fn[target].term.dest;
            var p := Partial(fn, target, first, |fn[dest].insts|);
            var c := Clone(fn[dest].insts, target, first);
            && target in p && dest in p
            && Rewritten(fn, target, first, ord)
               == p[target := Block(p[target].insts, CloneTerm(c.remap, fn[dest].term))]
                   [dest := Block(p[dest].insts + [Dummy(ord)], fn[dest].term)]
  {
    hide HasEdge, Clone, DropEdge, CloneTerm;
    var insts := fn[fn[target].term.dest].insts;
    assert insts[..|insts|] == insts && insts[|insts|..] == [];
    assert DropEdge(insts, target) + [] == DropEdge(insts, target);
  }

  // ---- copies are kept apart ----

  const FIRST_ORD: nat := 1000000

  /** No inline assembly with this number or a higher one. */
  ghost predicate DummiesBelow(insts: seq<Inst>, ord: nat) {
    forall o: nat :: Dummy(o) in insts ==> o < ord
  }

  ghost predicate AllDummiesBelow(fn: Fn, ord: nat) {
    forall b :: b in fn ==> DummiesBelow(fn[b].insts, ord)
  }

  lemma {:induction false} CloneDummies(insts: seq<Inst>, target: nat, next: nat, o: nat)
    ensures Dummy(o) in Clone(insts, target, next).insts <==> Dummy(o) in insts
  {
    if insts != [] {
      var n := |insts| - 1;
      CloneDummies(insts[..n], target, next, o);
      assert insts == insts[..n] + [insts[n]];
    }
  }

  lemma DropEdgeDummies(insts: seq<Inst>, target: nat, o: nat)
    ensures Dummy(o) in DropEdge(insts, target) <==> Dummy(o) in insts
  {
    if Dummy(o) in insts {
      var k :| 0 <= k < |insts| && insts[k] == Dummy(o);
      assert DropEdge(insts, target)[k] == Dummy(o);
    }
  }

  /** The copy has the numbers its original had; the original gets a new one. */
  lemma RewrittenDummies(fn: Fn, target: nat, first: nat, ord: nat, o: nat)
    requires Candidate(fn, target)
    ensures var dest, fn' := fn[target].term.dest, Rewritten(fn, target, first, ord);
            && target in fn' && dest in fn' && dest != target
            && (Dummy(o) in fn'[target].insts <==> Dummy(o) in fn[target].insts || Dummy(o) in fn[dest].insts)
            && (Dummy(o) in fn'[dest].insts <==> Dummy(o) in fn[dest].insts || o == ord)
  {
    hide Clone, DropEdge, HasEdge;
    var dest := fn[target].term.dest;
    CloneDummies(fn[dest].insts, target, first, o);
    DropEdgeDummies(fn[dest].insts, target, o);
  }

  predicate Shared(fn: Fn, a: nat, b: nat) {
    a in fn && b in fn && fn[a].term.Br? && fn[b].term == fn[a].term
  }

  /** Of two blocks that got copies of one block, the second has a number that the first has not. */
  predicate CopiesDiffer(fn0: Fn, fn: Fn, targets: seq<nat>, ord: nat) {
    forall k, j :: 0 <= k < j < |targets| && Shared(fn0, targets[k], targets[j]) ==>
      && targets[k] in fn && Dummy(ord + k) !in fn[targets[k]].insts
      && targets[j] in fn && Dummy(ord + k) in fn[targets[j]].insts
  }

  ghost predicate ToldApart(fn: Fn, a: nat, b: nat) {
    a in fn && b in fn && exists o: nat :: Dummy(o) in fn[a].insts <==> Dummy(o) !in fn[b].insts
  }

  lemma DifferentCopies(fn0: Fn, fn: Fn, targets: seq<nat>, ord: nat, a: nat, b: nat)
    requires CopiesDiffer(fn0, fn, targets, ord) && Shared(fn0, a, b) && a != b && a in targets && b in targets
    ensures ToldApart(fn, a, b)
  {
    var k :| 0 <= k < |targets| && targets[k] == a;
    var j :| 0 <= j < |targets| && targets[j] == b;
    var o: nat := ord + if k < j then k else j;
    assert Shared(fn0, b, a);
    assert Dummy(o) in fn[a].insts <==> Dummy(o) !in fn[b].insts;
  }

  /** The number is in the copy that `b` has got, or in the block it still jumps to. */
  predicate Marked(fn: Fn, b: nat, o: nat, copied: bool) {
    b in fn
    && if copied then Dummy(o) in fn[b].insts
       else fn[b].term.Br? && fn[b].term.dest in fn && Dummy(o) in fn[fn[b].term.dest].insts
  }

  /** The state of that after `i` rewrites. */
  ghost predicate Apart(fn0: Fn, fn: Fn, targets: seq<nat>, i: nat, ord: nat) {
    && i <= |targets| && AllDummiesBelow(fn, ord + i)
    && (forall j :: i <= j < |targets| ==> targets[j] in fn0 && targets[j] in fn && fn[targets[j]].term == fn0[targets[j]].term)
    && (forall k :: 0 <= k < i ==> targets[k] in fn && Dummy(ord + k) !in fn[targets[k]].insts)
    && (forall k, j :: 0 <= k < i && k < j < |targets| && Shared(fn0, targets[k], targets[j]) ==>
          Marked(fn, targets[j], ord + k, j < i))
  }

  lemma ApartMore(fn0: Fn, fn: Fn, targets: seq<nat>, i: nat, first: nat, ord: nat)
    requires Apart(fn0, fn, targets, i, ord) && i < |targets| && Candidate(fn, targets[i])
    requires forall k :: 0 <= k < |targets| ==> Candidate(fn0, targets[k])
    requires forall k, j :: 0 <= k < j < |targets| ==> targets[k] != targets[j]
    ensures Apart(fn0, Rewritten(fn, targets[i], first, ord + i), targets, i + 1, ord)
  {
    hide HasEdge, Rewritten;
    var target := targets[i];
    var dest, fn' := fn[target].term.dest, Rewritten(fn, target, first, ord + i);
    OtherBlocksKept(fn, target, first, ord + i);
    assert fn0[dest].term.TailCall?;
    forall b, o: nat | b in fn' && Dummy(o) in fn'[b].insts ensures o < ord + (i + 1) {
      RewrittenDummies(fn, target, first, ord + i, o);
      assert DummiesBelow(fn[b].insts, ord + i) && DummiesBelow(fn[dest].insts, ord + i);
    }
    forall k | 0 <= k < i + 1 ensures targets[k] in fn' && Dummy(ord + k) !in fn'[targets[k]].insts {
      RewrittenDummies(fn, target, first, ord + i, ord + k);
      assert DummiesBelow(fn[target].insts, ord + i) && DummiesBelow(fn[dest].insts, ord + i);
    }
    forall k, j | 0 <= k < i + 1 && k < j < |targets| && Shared(fn0, targets[k], targets[j])
      ensures Marked(fn', targets[j], ord + k, j < i + 1)
    {
      RewrittenDummies(fn, target, first, ord + i, ord + k);
      assert k < i ==> Marked(fn, targets[j], ord + k, j < i);
    }
  }

  lemma ApartStart(fn: Fn, targets: seq<nat>)
    requires AllDummiesBelow(fn, FIRST_ORD) && forall k :: 0 <= k < |targets| ==> Candidate(fn, targets[k])
    ensures Apart(fn, fn, targets, 0, FIRST_ORD)
  {
    hide AllDummiesBelow, HasEdge;
  }

  lemma ApartEnd(fn0: Fn, fn: Fn, targets: seq<nat>)
    requires Apart(fn0, fn, targets, |targets|, FIRST_ORD)
    ensures CopiesDiffer(fn0, fn, targets, FIRST_ORD)
  {
    hide AllDummiesBelow;
    forall k, j | 0 <= k < j < |targets| && Shared(fn0, targets[k], targets[j])
      ensures targets[j] in fn && Dummy(FIRST_ORD + k) in fn[targets[j]].insts
    {
      assert Marked(fn, targets[j], FIRST_ORD + k, true);
    }
  }

  lemma OtherBlocksKept(fn: Fn, target: nat, first: nat, ord: nat)
    requires Candidate(fn, target)
    ensures var dest, fn' := fn[target].term.dest, Rewritten(fn, target, first, ord);
            fn'.Keys == fn.Keys && forall b :: b in fn && b != target && b != dest ==> fn'[b] == fn[b]
  {
    hide Clone, DropEdge, HasEdge;
  }

  class SsaFunction {
    var blocks: Fn
    var nextId: nat

    /** The operands of a clone, replaced one by one. */
    static method RemapOperands(remap: map<nat, Operand>, operands: seq<Operand>) returns (r: seq<Operand>)
      ensures r == SubstAll(remap, operands)
    {
      r := operands;
      for i := 0 to |operands|
        invariant |r| == |operands|
        invariant forall k :: 0 <= k < |r| ==> r[k] == if k < i then Subst(remap, operands[k]) else operands[k]
      {
        if r[i].Val? && r[i].id in remap {
          r := r[i := remap[r[i].id]];
        }
      }
    }

    /** Visits one instruction of the destination block: a PHI loses the edge, anything else is cloned
        in front of the target block's terminator. */
    method VisitInst(target: nat, dest: nat, i: nat, remap: map<nat, Operand>) returns (remap': map<nat, Operand>)
      requires target in blocks && dest in blocks && target != dest && i < |blocks[dest].insts|
      requires blocks[dest].insts[i].Phi? ==> target in blocks[dest].insts[i].incoming
      modifies this
      ensures var c := CloneInst(Copy(old(blocks)[target].insts, remap, old(nextId)), old(blocks)[dest].insts[i], target);
              && remap' == c.remap && nextId == c.next
              && blocks == old(blocks)[target := Block(c.insts, old(blocks)[target].term)]
                                      [dest := Block(old(blocks)[dest].insts[i := DropEdgeInst(old(blocks)[dest].insts[i], target)],
                                                     old(blocks)[dest].term)]
    {
      var insts := blocks[dest].insts;
      assert insts[i := insts[i]] == insts;
      match insts[i] {
        case Phi(id, incoming) =>
          var incomingValue := incoming[target];
          blocks := blocks[dest := blocks[dest].(insts := insts[i := Phi(id, incoming - {target})])];
          remap' := remap[id := incomingValue];
        case Op(id, code, operands) =>
          var cloned := RemapOperands(remap, operands);
          blocks := blocks[target := blocks[target].(insts := blocks[target].insts + [Op(nextId, code, cloned)])];
          remap' := remap[id := Val(nextId)];
          nextId := nextId + 1;
        case Dummy(o) =>
          blocks := blocks[target := blocks[target].(insts := blocks[target].insts + [Dummy(o)])];
          remap' := remap;
      }
    }

    /** Clones the tail call in place of the jump, and keeps the blocks apart. */
    method CloneCall(target: nat, dest: nat, remap: map<nat, Operand>, ord: nat)
      requires target in blocks && dest in blocks && target != dest && blocks[dest].term.TailCall?
      modifies this`blocks
      ensures blocks == old(blocks)[target := Block(old(blocks)[target].insts, CloneTerm(remap, old(blocks)[dest].term))]
                                   [dest := Block(old(blocks)[dest].insts + [Dummy(ord)], old(blocks)[dest].term)]
    {
      var call := blocks[dest].term;
      var args := RemapOperands(remap, call.args);
      blocks := blocks[target := Block(blocks[target].insts, TailCall(Subst(remap, call.callee), args))];
      blocks := blocks[dest := Block(blocks[dest].insts + [Dummy(ord)], call)];
    }

    /** Duplicates one block's tail: walks the destination block, then clones the tail call. */
    method DuplicateTail(target: nat, ord: nat)
      requires Candidate(blocks, target)
      modifies this
      ensures blocks == Rewritten(old(blocks), target, old(nextId), ord)
      ensures nextId == Clone(old(blocks)[old(blocks)[target].term.dest].insts, target, old(nextId)).next
    {
      hide CloneInst, HasEdge, DropEdge, DropEdgeInst, CloneTerm, Partial, Rewritten;
      ghost var fn, first := blocks, nextId;
      var dest := blocks[target].term.dest;
      ghost var original := blocks[dest].insts;
      var remap: map<nat, Operand> := map[];
      PartialStart(fn, target, first);
      for i := 0 to |blocks[dest].insts|
        invariant blocks == Partial(fn, target, first, i)
        invariant remap == Clone(original[..i], target, first).remap && nextId == Clone(original[..i], target, first).next
      {
        PartialParts(fn, target, first, i);
        if original[i].Phi? {
          EdgeOf(original, target, i);
        }
        assert original[..i + 1][..i] == original[..i];
        CloneAfter(fn[target].insts, Clone(original[..i], target, first), original[i], target);
        PartialMore(fn, target, first, i);
        remap := VisitInst(target, dest, i, remap);
      }
      assert original[..|original|] == original;
      PartialParts(fn, target, first, |original|);
      PartialEnd(fn, target, first, ord);
      CloneCall(target, dest, remap, ord);
    }

    /** The selection: of the blocks that are cache cases, those that jump unconditionally to a small
        block dispatching to the next bytecode. */
    method SelectTargets(icEntryBBList: seq<nat>, fallthrough: nat) returns (targets: seq<nat>)
      requires forall k :: 0 <= k < |icEntryBBList| ==> icEntryBBList[k] in blocks
      requires forall b :: b in blocks && blocks[b].term.Br? ==> blocks[b].term.dest in blocks
      requires forall i, j :: 0 <= i < j < |icEntryBBList| ==> icEntryBBList[i] != icEntryBBList[j]
      ensures forall b :: b in targets <==> b in icEntryBBList && Selected(blocks, b, fallthrough)
      ensures forall i, j :: 0 <= i < j < |targets| ==> targets[i] != targets[j]
    {
      targets := [];
      for k := 0 to |icEntryBBList|
        invariant forall b :: b in targets <==> b in icEntryBBList[..k] && Selected(blocks, b, fallthrough)
        invariant forall i, j :: 0 <= i < j < |targets| ==> targets[i] != targets[j]
      {
        var targetBB := icEntryBBList[k];
        assert targetBB !in icEntryBBList[..k];
        var term := blocks[targetBB].term;
        if !term.Br? {
          continue;
        }
        var bb := blocks[term.dest];
        // the tail call and the return behind it count, too
        if |bb.insts| + 2 > 12 {
          continue;
        }
        if !bb.term.TailCall? {
          continue;
        }
        if bb.term.callee == Literal(fallthrough) {
          targets := targets + [targetBB];
        }
      }
    }

    /** The whole pass over the selected blocks. */
    method DuplicateTails(targets: seq<nat>)
      requires FnBelow(blocks, nextId) && ValidJumps(blocks)
      requires forall k :: 0 <= k < |targets| ==> Candidate(blocks, targets[k])
      requires forall i, j :: 0 <= i < j < |targets| ==> targets[i] != targets[j]
      modifies this
      ensures SameMeaning(old(blocks), blocks) && ValidJumps(blocks) && FnBelow(blocks, nextId)
      ensures forall k :: 0 <= k < |targets| ==> targets[k] in blocks && blocks[targets[k]].term.TailCall?
      ensures blocks.Keys == old(blocks.Keys)
      ensures forall b :: b in blocks && b !in targets ==> blocks[b].term == old(blocks)[b].term
      ensures AllDummiesBelow(old(blocks), FIRST_ORD) ==> CopiesDiffer(old(blocks), blocks, targets, FIRST_ORD)
    {
      hide SameMeaning, Clone, FnBelow, Candidate, Rewritten, ValidJumps, Apart, AllDummiesBelow, CopiesDiffer;
      var dummyOrd := FIRST_ORD;
      Reflexive(blocks);
      if AllDummiesBelow(blocks, dummyOrd) {
        ApartStart(blocks, targets);
      }
      for i := 0 to |targets|
        invariant dummyOrd == FIRST_ORD + i
        invariant AllDummiesBelow(old(blocks), FIRST_ORD) ==> Apart(old(blocks), blocks, targets, i, FIRST_ORD)
        invariant SameMeaning(old(blocks), blocks) && FnBelow(blocks, nextId) && ValidJumps(blocks)
        invariant forall k :: i <= k < |targets| ==> Candidate(blocks, targets[k])
        invariant forall k :: 0 <= k < i ==> targets[k] in blocks && blocks[targets[k]].term.TailCall?
        invariant blocks.Keys == old(blocks.Keys)
        invariant forall b :: b in blocks && b !in targets ==> blocks[b].term == old(blocks)[b].term
      {
        ghost var fn, first := blocks, nextId;
        RewriteKeepsMeaning(fn, targets[i], first, dummyOrd);
        RewrittenNames(fn, targets[i], first, dummyOrd);
        RewriteKeepsJumps(fn, targets[i], first, dummyOrd);
        if AllDummiesBelow(old(blocks), FIRST_ORD) {
          ApartMore(old(blocks), fn, targets, i, first, FIRST_ORD);
        }
        forall k | i < k < |targets| ensures Candidate(Rewritten(fn, targets[i], first, dummyOrd), targets[k]) {
          StaysCandidate(fn, targets[i], first, dummyOrd, targets[k]);
        }
        forall b | b in fn && fn[b].term.TailCall?
          ensures b in Rewritten(fn, targets[i], first, dummyOrd) && Rewritten(fn, targets[i], first, dummyOrd)[b].term.TailCall?
        {
          StaysTail(fn, targets[i], first, dummyOrd, b);
        }
        CandidateIn(fn, targets[i]);
        OtherTermsKept(fn, targets[i], first, dummyOrd);
        StaysTail(fn, targets[i], first, dummyOrd, targets[i]);
        DuplicateTail(targets[i], dummyOrd);
        SameMeaningTransitive(old(blocks), fn, blocks);
        dummyOrd := dummyOrd + 1;
      }
      if AllDummiesBelow(old(blocks), FIRST_ORD) {
        ApartEnd(old(blocks), blocks, targets);
      }
    }
  }

  /** `AttemptIrRewriteToManuallyTailDuplicateSimpleIcCases`: the selected blocks end in their own
      dispatch afterwards, and the function means the same. */
  method AttemptRewrite(fn: SsaFunction, icEntryBBList: seq<nat>, fallthrough: nat)
    requires ValidJumps(fn.blocks) && FnBelow(fn.blocks, fn.nextId)
    requires forall k :: 0 <= k < |icEntryBBList| ==> icEntryBBList[k] in fn.blocks
    requires forall i, j :: 0 <= i < j < |icEntryBBList| ==> icEntryBBList[i] != icEntryBBList[j]
    modifies fn
    ensures SameMeaning(old(fn.blocks), fn.blocks) && ValidJumps(fn.blocks) && FnBelow(fn.blocks, fn.nextId)
    ensures forall b :: b in icEntryBBList && Selected(old(fn.blocks), b, fallthrough) ==>
              b in fn.blocks && fn.blocks[b].term.TailCall?
    ensures fn.blocks.Keys == old(fn.blocks.Keys)
    ensures forall b :: b in fn.blocks && !(b in icEntryBBList && Selected(old(fn.blocks), b, fallthrough)) ==>
              fn.blocks[b].term == old(fn.blocks)[b].term
    ensures AllDummiesBelow(old(fn.blocks), FIRST_ORD) ==>
              forall a, b :: a in icEntryBBList && Selected(old(fn.blocks), a, fallthrough) ==>
                b in icEntryBBList && b != a && Shared(old(fn.blocks), a, b) ==> ToldApart(fn.blocks, a, b)
  {
    hide SameMeaning, FnBelow, ValidJumps, HasEdge, Candidate, CopiesDiffer, ToldApart, AllDummiesBelow;
    forall b | b in fn.blocks && fn.blocks[b].term.Br? ensures fn.blocks[b].term.dest in fn.blocks {
      ValidEdge(fn.blocks, b);
    }
    var targets := fn.SelectTargets(icEntryBBList, fallthrough);
    forall k | 0 <= k < |targets| ensures Candidate(fn.blocks, targets[k]) {
      assert targets[k] in targets;
      ValidEdge(fn.blocks, targets[k]);
      SelectedIsCandidate(fn.blocks, targets[k], fallthrough);
    }
    fn.DuplicateTails(targets);
    if AllDummiesBelow(old(fn.blocks), FIRST_ORD) {
      forall a, b | a in targets && b in targets && a != b && Shared(old(fn.blocks), a, b)
        ensures ToldApart(fn.blocks, a, b)
      {
        DifferentCopies(old(fn.blocks), fn.blocks, targets, FIRST_ORD, a, b);
      }
    }
  }

  predicate Selected(fn: Fn, b: nat, fallthrough: nat) {
    && b in fn && fn[b].term.Br? && fn[b].term.dest in fn
    && var dest := fn[fn[b].term.dest];
       |dest.insts| + 2 <= 12 && dest.term.TailCall? && dest.term.callee == Literal(fallthrough)
  }

  /** In a function whose PHIs have a value for every incoming edge, the selected blocks qualify. */
  lemma SelectedIsCandidate(fn: Fn, b: nat, fallthrough: nat)
    requires Selected(fn, b, fallthrough) && HasEdge(fn[fn[b].term.dest].insts, b)
    ensures Candidate(fn, b)
  {
  }

  lemma Reflexive(fn: Fn)
    ensures SameMeaning(fn, fn)
  {
  }

  /** A rewrite adds no block and redirects no other one. */
  lemma OtherTermsKept(fn: Fn, target: nat, first: nat, ord: nat)
    requires Candidate(fn, target)
    ensures Rewritten(fn, target, first, ord).Keys == fn.Keys
    ensures forall b :: b in fn && b != target ==> Rewritten(fn, target, first, ord)[b].term == fn[b].term
  {
    hide Clone, HasEdge;
  }

  lemma StaysTail(fn: Fn, target: nat, first: nat, ord: nat, b: nat)
    requires Candidate(fn, target) && b in fn && (fn[b].term.TailCall? || b == target)
    ensures b in Rewritten(fn, target, first, ord) && Rewritten(fn, target, first, ord)[b].term.TailCall?
  {
    hide Clone, HasEdge;
  }

  lemma EdgeOf(insts: seq<Inst>, target: nat, i: nat)
    requires HasEdge(insts, target) && i < |insts| && insts[i].Phi?
    ensures target in insts[i].incoming
  {
  }

  /** Cloning behind other instructions. */
  lemma CloneAfter(base: seq<Inst>, c: Copy, inst: Inst, target: nat)
    ensures var c2, d2 := CloneInst(c, inst, target), CloneInst(Copy(base + c.insts, c.remap, c.next), inst, target);
            d2.insts == base + c2.insts && d2.remap == c2.remap && d2.next == c2.next
  {
  }

  lemma NoEdgeDropped(insts: seq<Inst>, target: nat)
    ensures DropEdge(insts[..0], target) + insts[0..] == insts
  {
  }

  lemma CandidateIn(fn: Fn, target: nat)
    requires Candidate(fn, target)
    ensures target in fn
  {
  }

  lemma DropEdgeMore(insts: seq<Inst>, target: nat, i: nat)
    requires i < |insts|
    ensures DropEdge(insts[..i + 1], target) == DropEdge(insts[..i], target) + [DropEdgeInst(insts[i], target)]
  {
  }
}
