/** The argument list that carries an inline cache effect from the pass that analyses it to the
    pass that lowers it.

    A nested description - specialised captures with their constants, wrapper functions, codec
    functions, stored values with their ranges - is flattened into one list of values with counts
    in front of each repetition.  The parser accepts exactly the lists the writer produces. */
module IcArgs {
  import opened Wrappers
  import E = IcEffects

  datatype FnKind = EffectBody | EffectWrapper | StateDecoder | StateEncoder | Other

  const BOOL: nat := 1
  const U8: nat := 8

  /** Operands of a call, as far as the parser distinguishes them. */
  datatype Value =
    | Argument(id: nat)
    | Alloca(id: nat)
    | Fn(id: nat, kind: FnKind)
    | U64(n: nat)
    | Bool(b: bool)
    | I64(i: int)
    | Local(id: nat, ty: nat)
    | Constant(id: nat, ty: nat)

  datatype SpecInfo = SpecInfo(isFullCoverage: bool, valueInBodyFn: Value, specializations: seq<Value>)

  datatype StateVal = StateVal(valueInBodyFn: Value, lbInclusive: int, ubInclusive: int)

  datatype EffectCall = EffectCall(icPtr: Value, capture: Value, bodyFn: Value, specs: seq<SpecInfo>,
                                   mains: seq<Value>, decoder: Value, encoder: Value, stateVals: seq<StateVal>)

  // ---- what the parser demands ----

  /** Only locals and constants carry a type here. */
  predicate HasType(v: Value, ty: nat) {
    (v.Local? || v.Constant?) && v.ty == ty
  }

  /** Constants of the captured type; for a boolean the captured value is a byte. */
  predicate IsSpecConstant(spValue: Value, v: Value) {
    v.Constant? && HasType(spValue, if v.ty == BOOL then U8 else v.ty)
  }

  predicate GoodSpec(sp: SpecInfo) {
    sp.specializations != [] && AllSpecConstants(sp.valueInBodyFn, sp.specializations)
  }

  predicate AllSpecConstants(spValue: Value, vs: seq<Value>) {
    forall k :: 0 <= k < |vs| ==> IsSpecConstant(spValue, vs[k])
  }

  predicate AllFns(vs: seq<Value>) {
    forall k :: 0 <= k < |vs| ==> vs[k].Fn?
  }

  /** What a parsed specialisation is to the ordinal getter; which values are listed does not matter
      for their number. */
  function SpecializationOf(sp: SpecInfo): E.Specialization {
    E.Specialization(0, sp.isFullCoverage, seq(|sp.specializations|, i => i), false)
  }

  function SpecializationsOf(specs: seq<SpecInfo>): (r: seq<E.Specialization>)
    ensures |r| == |specs|
  {
    seq(|specs|, i requires 0 <= i < |specs| => SpecializationOf(specs[i]))
  }

  /** One wrapper function per configuration of the specialised captures. */
  function ExpectedNumEffectFns(specs: seq<SpecInfo>): nat {
    E.NumSpecializations(SpecializationsOf(specs))
  }

  /** Which wrapper function is meant: per specialised capture one of its constants, or the general
      case unless the constants cover all values. */
  predicate IsChoice(specs: seq<SpecInfo>, choice: seq<Option<nat>>) {
    && |choice| == |specs|
    && forall i :: 0 <= i < |specs| ==>
         if choice[i].Some? then choice[i].value < |specs[i].specializations| else !specs[i].isFullCoverage
  }

  function ChoiceOf(specs: seq<SpecInfo>, n: nat): (choice: seq<Option<nat>>)
    ensures |choice| == |specs|
  {
    E.Configuration(SpecializationsOf(specs), E.Digits(SpecializationsOf(specs), n))
  }

  lemma ChoicesAreConfigurations(specs: seq<SpecInfo>, choice: seq<Option<nat>>)
    ensures IsChoice(specs, choice) <==> E.IsConfiguration(SpecializationsOf(specs), choice)
  {
    var sps := SpecializationsOf(specs);
    if |choice| == |specs| {
      forall i | 0 <= i < |specs| && choice[i].Some?
        ensures choice[i].value in sps[i].values <==> choice[i].value < |specs[i].specializations|
      {
        var v := choice[i].value;
        assert v < |sps[i].values| ==> sps[i].values[v] == v;
      }
    }
  }

  lemma ChoiceHasNumber(specs: seq<SpecInfo>, choice: seq<Option<nat>>) returns (n: nat)
    requires IsChoice(specs, choice)
    ensures n < ExpectedNumEffectFns(specs) && ChoiceOf(specs, n) == choice
  {
    hide E.Configuration, E.Digits, E.NumSpecializations;
    var sps := SpecializationsOf(specs);
    ChoicesAreConfigurations(specs, choice);
    E.ConfigurationsExactly(sps, choice);
    n :| n < E.NumSpecializations(sps) && E.Configuration(sps, E.Digits(sps, n)) == choice;
  }

  lemma NumberIsChoice(specs: seq<SpecInfo>, n: nat)
    requires n < ExpectedNumEffectFns(specs)
    ensures IsChoice(specs, ChoiceOf(specs, n))
  {
    ChoicesAreConfigurations(specs, ChoiceOf(specs, n));
    E.ConfigurationsExactly(SpecializationsOf(specs), ChoiceOf(specs, n));
    assert ChoiceOf(specs, n) == E.Configuration(SpecializationsOf(specs), E.Digits(SpecializationsOf(specs), n));
  }

  /** There are as many wrapper functions as choices: numbering the functions numbers the choices, all
      of them, each once. */
  lemma OneFnPerChoice(specs: seq<SpecInfo>)
    ensures forall choice :: IsChoice(specs, choice) <==>
              exists n: nat :: n < ExpectedNumEffectFns(specs) && ChoiceOf(specs, n) == choice
    ensures forall m, n :: 0 <= m < n < ExpectedNumEffectFns(specs) ==> ChoiceOf(specs, m) != ChoiceOf(specs, n)
  {
    hide IsChoice, ChoiceOf, ExpectedNumEffectFns;
    forall choice: seq<Option<nat>> | IsChoice(specs, choice)
      ensures exists n: nat :: n < ExpectedNumEffectFns(specs) && ChoiceOf(specs, n) == choice
    {
      var n := ChoiceHasNumber(specs, choice);
    }
    forall n: nat | n < ExpectedNumEffectFns(specs) ensures IsChoice(specs, ChoiceOf(specs, n)) {
      NumberIsChoice(specs, n);
    }
    forall m, n | 0 <= m < n < ExpectedNumEffectFns(specs) ensures ChoiceOf(specs, m) != ChoiceOf(specs, n) {
      NumbersDiffer(specs, m, n);
    }
  }

  lemma NumbersDiffer(specs: seq<SpecInfo>, m: nat, n: nat)
    requires m < n < ExpectedNumEffectFns(specs)
    ensures ChoiceOf(specs, m) != ChoiceOf(specs, n)
  {
    hide E.Configuration, E.Digits, E.NumSpecializations;
    E.ConfigurationsDistinct(SpecializationsOf(specs), m, n);
  }

  predicate GoodSpecs(specs: seq<SpecInfo>) {
    forall k :: 0 <= k < |specs| ==> GoodSpec(specs[k])
  }

  predicate GoodState(vs: seq<StateVal>) {
    forall k :: 0 <= k < |vs| ==> vs[k].lbInclusive <= vs[k].ubInclusive
  }

  predicate WellFormed(e: EffectCall) {
    && e.icPtr.Argument? && e.capture.Alloca? && e.bodyFn.Fn?
    && GoodSpecs(e.specs)
    && |e.mains| == ExpectedNumEffectFns(e.specs) > 0 && AllFns(e.mains)
    && e.decoder.Fn? && e.decoder.kind == StateDecoder
    && e.encoder.Fn? && e.encoder.kind == StateEncoder
    && GoodState(e.stateVals)
  }

  // ---- writing ----

  function EncodeSpec(sp: SpecInfo): seq<Value> {
    [Bool(sp.isFullCoverage), sp.valueInBodyFn, U64(|sp.specializations|)] + sp.specializations
  }

  function EncodeSpecs(specs: seq<SpecInfo>): seq<Value> {
    if specs == [] then [] else EncodeSpec(specs[0]) + EncodeSpecs(specs[1..])
  }

  function EncodeState(vs: seq<StateVal>): seq<Value> {
    if vs == [] then []
    else [vs[0].valueInBodyFn, I64(vs[0].lbInclusive), I64(vs[0].ubInclusive)] + EncodeState(vs[1..])
  }

  function Encode(e: EffectCall): seq<Value> {
    [e.icPtr, e.capture, e.bodyFn, U64(|e.specs|)] + EncodeSpecs(e.specs)
    + [U64(|e.mains|)] + e.mains
    + [e.decoder, e.encoder, U64(|e.stateVals|)] + EncodeState(e.stateVals)
  }

  /** A boolean whose two values are both listed and cover everything has two wrapper functions; its
      argument list, item by item. */
  lemma CoveredBoolean()
    ensures var covered := SpecInfo(true, Local(3, U8), [Constant(4, BOOL), Constant(5, BOOL)]);
            var e := EffectCall(Argument(0), Alloca(1), Fn(2, EffectBody), [covered],
                                [Fn(6, EffectWrapper), Fn(7, EffectWrapper)],
                                Fn(8, StateDecoder), Fn(9, StateEncoder), [StateVal(Local(10, U8), -1, 5)]);
            && WellFormed(e)
            && Encode(e) == [Argument(0), Alloca(1), Fn(2, EffectBody), U64(1),
                             Bool(true), Local(3, U8), U64(2), Constant(4, BOOL), Constant(5, BOOL),
                             U64(2), Fn(6, EffectWrapper), Fn(7, EffectWrapper),
                             Fn(8, StateDecoder), Fn(9, StateEncoder), U64(1), Local(10, U8), I64(-1), I64(5)]
  {
    var covered := SpecInfo(true, Local(3, U8), [Constant(4, BOOL), Constant(5, BOOL)]);
    var v := StateVal(Local(10, U8), -1, 5);
    ExpectedMore([], covered, 2);
    assert SpecializationsOf([]) == [] && [] + [covered] == [covered];
    SpecsAppend([], covered);
    StateAppend([], v);
    assert [] + [v] == [v];
  }

  lemma {:induction false} SpecsAppend(a: seq<SpecInfo>, sp: SpecInfo)
    ensures EncodeSpecs(a + [sp]) == EncodeSpecs(a) + EncodeSpec(sp)
  {
    if a == [] {
      assert [sp][1..] == [];
    } else {
      assert (a + [sp])[1..] == a[1..] + [sp];
      SpecsAppend(a[1..], sp);
    }
  }

  lemma {:induction false} StateAppend(a: seq<StateVal>, v: StateVal)
    ensures EncodeState(a + [v]) == EncodeState(a) + [v.valueInBodyFn, I64(v.lbInclusive), I64(v.ubInclusive)]
  {
    if a == [] {
      assert [v][1..] == [];
    } else {
      assert (a + [v])[1..] == a[1..] + [v];
      StateAppend(a[1..], v);
    }
  }

  /** The rewriting of the effect call: arguments are pushed one by one. */
  method WriteArgs(e: EffectCall) returns (args: seq<Value>)
    ensures args == Encode(e)
  {
    args := [e.icPtr, e.capture, e.bodyFn, U64(|e.specs|)];
    ghost var header := args;
    for i := 0 to |e.specs|
      invariant args == header + EncodeSpecs(e.specs[..i])
    {
      var sp := e.specs[i];
      args := args + [Bool(sp.isFullCoverage)];
      args := args + [sp.valueInBodyFn];
      args := args + [U64(|sp.specializations|)];
      args := args + sp.specializations;
      SpecsAppend(e.specs[..i], sp);
      assert e.specs[..i + 1] == e.specs[..i] + [sp];
    }
    assert e.specs[..|e.specs|] == e.specs;
    args := args + [U64(|e.mains|)];
    args := args + e.mains;
    args := args + [e.decoder];
    args := args + [e.encoder];
    args := args + [U64(|e.stateVals|)];
    ghost var front := args;
    for i := 0 to |e.stateVals|
      invariant args == front + EncodeState(e.stateVals[..i])
    {
      var v := e.stateVals[i];
      args := args + [v.valueInBodyFn, I64(v.lbInclusive), I64(v.ubInclusive)];
      StateAppend(e.stateVals[..i], v);
      assert e.stateVals[..i + 1] == e.stateVals[..i] + [v];
    }
    assert e.stateVals[..|e.stateVals|] == e.stateVals;
  }

  // ---- parsing ----

  /** The parser, as a position in the argument list: every section either fails, or yields its
      items and the position after them, and then those arguments are what the writer writes. */

  method ParseSpec(args: seq<Value>, start: nat) returns (r: Option<SpecInfo>, cur: nat)
    requires start <= |args|
    ensures r.Some? ==> GoodSpec(r.value) && start <= cur <= |args| && args[start..cur] == EncodeSpec(r.value)
    ensures forall sp: SpecInfo :: GoodSpec(sp) && EncodeSpec(sp) <= args[start..] ==> r == Some(sp)
  {
    cur := start;
    if !(|args| > cur + 2) || !args[cur].Bool? || !args[cur + 2].U64? {
      return None, cur;
    }
    var isFullCoverage := args[cur].b;
    var valueInBodyFn := args[cur + 1];
    var num := args[cur + 2].n;
    cur := cur + 3;
    if !(|args| >= cur + num) {
      NotEnough(args, start);
      return None, cur;
    }
    var specializations := [];
    for k := 0 to num
      invariant cur == start + 3 + k && specializations == args[start + 3..cur]
      invariant AllSpecConstants(valueInBodyFn, specializations)
    {
      var v := args[cur];
      if !v.Constant? || !HasType(valueInBodyFn, if v.ty != BOOL then v.ty else U8) {
        BadConstant(args, start, k);
        return None, cur;
      }
      specializations := specializations + [v];
      cur := cur + 1;
    }
    if specializations == [] {
      return None, cur;
    }
    var sp := SpecInfo(isFullCoverage, valueInBodyFn, specializations);
    r := Some(sp);
    assert args[start..cur] == EncodeSpec(sp);
    forall sp': SpecInfo | GoodSpec(sp') && EncodeSpec(sp') <= args[start..] ensures r == Some(sp') {
      SpecAt(args, start, sp');
    }
  }

  /** Where the parts of a written specialisation are. */
  lemma SpecAt(args: seq<Value>, start: nat, sp: SpecInfo)
    requires start <= |args| && EncodeSpec(sp) <= args[start..]
    ensures var n := |sp.specializations|;
            && start + 3 + n <= |args|
            && args[start] == Bool(sp.isFullCoverage) && args[start + 1] == sp.valueInBodyFn && args[start + 2] == U64(n)
            && args[start + 3..start + 3 + n] == sp.specializations
  {
    var p, n := EncodeSpec(sp), |sp.specializations|;
    assert p == args[start..][..|p|] && args[start..][..|p|] == args[start..start + |p|];
    assert args[start] == p[0] && args[start + 1] == p[1] && args[start + 2] == p[2];
    assert args[start + 3..start + 3 + n] == args[start..start + |p|][3..] == p[3..];
  }

  lemma NotEnough(args: seq<Value>, start: nat)
    requires start + 3 <= |args| && args[start + 2].U64? && |args| < start + 3 + args[start + 2].n
    ensures forall sp: SpecInfo :: !(EncodeSpec(sp) <= args[start..])
  {
    forall sp: SpecInfo | EncodeSpec(sp) <= args[start..] ensures false {
      SpecAt(args, start, sp);
    }
  }

  lemma BadConstant(args: seq<Value>, start: nat, k: nat)
    requires start + 3 <= |args| && args[start + 2].U64? && k < args[start + 2].n
    requires start + 3 + k < |args| && !IsSpecConstant(args[start + 1], args[start + 3 + k])
    ensures forall sp: SpecInfo :: EncodeSpec(sp) <= args[start..] ==> !GoodSpec(sp)
  {
    forall sp: SpecInfo | EncodeSpec(sp) <= args[start..] ensures !GoodSpec(sp) {
      SpecAt(args, start, sp);
      assert sp.specializations[k] == args[start + 3 + k];
    }
  }

  lemma {:induction false} NextSpec(args: seq<Value>, start: nat, specs: seq<SpecInfo>, k: nat)
    requires start <= |args| && k < |specs| && EncodeSpecs(specs) <= args[start..]
    ensures var cur := start + |EncodeSpecs(specs[..k])|; cur <= |args| && EncodeSpec(specs[k]) <= args[cur..]
    decreases k
  {
    hide EncodeSpec;
    var first := EncodeSpec(specs[0]);
    assert EncodeSpecs(specs) == first + EncodeSpecs(specs[1..]);
    assert first <= args[start..] && EncodeSpecs(specs[1..]) <= args[start..][|first|..] == args[start + |first|..];
    if k > 0 {
      NextSpec(args, start + |first|, specs[1..], k - 1);
      assert specs[..k][1..] == specs[1..][..k - 1];
    }
  }

  method ParseSpecs(args: seq<Value>, start: nat, n: nat) returns (r: Option<seq<SpecInfo>>, cur: nat, expectedNumEffectFns: nat)
    requires start <= |args|
    ensures r.Some? ==> GoodSpecs(r.value) && |r.value| == n && expectedNumEffectFns == ExpectedNumEffectFns(r.value)
    ensures r.Some? ==> start <= cur <= |args| && args[start..cur] == EncodeSpecs(r.value)
    ensures forall specs: seq<SpecInfo> :: WritesSpecs(args, start, n, specs) ==> r == Some(specs)
  {
    hide EncodeSpec, GoodSpec, EncodeSpecs, ExpectedNumEffectFns, WritesSpecs, AllStart, NumOptions;
    cur, expectedNumEffectFns := start, 1;
    var parsed: seq<SpecInfo> := [];
    NoSpecs();
    AllStartEmpty(args, start, n);
    assert args[start..start] == EncodeSpecs([]);
    for k := 0 to n
      invariant |parsed| == k && GoodSpecs(parsed) && expectedNumEffectFns == ExpectedNumEffectFns(parsed)
      invariant start <= cur <= |args| && args[start..cur] == EncodeSpecs(parsed)
      invariant AllStart(args, start, n, parsed)
    {
      AllNext(args, start, n, parsed, cur);
      var sp, cur' := ParseSpec(args, cur);
      if sp.None? {
        return None, cur, expectedNumEffectFns;
      }
      SpecsAppend(parsed, sp.value);
      assert args[start..cur'] == args[start..cur] + args[cur..cur'];
      var numOptions := NumOptions(sp.value);
      ExpectedMore(parsed, sp.value, numOptions);
      expectedNumEffectFns := expectedNumEffectFns * numOptions;
      OneMoreKnown(args, start, n, parsed, sp.value);
      parsed, cur := parsed + [sp.value], cur';
    }
    Whole(args, start, n, parsed);
    r := Some(parsed);
  }

  /** A written list of `n` specialisations at `start`. */
  ghost predicate WritesSpecs(args: seq<Value>, start: nat, n: nat, specs: seq<SpecInfo>) {
    start <= |args| && |specs| == n && GoodSpecs(specs) && EncodeSpecs(specs) <= args[start..]
  }

  /** Whatever was written there starts with what has been parsed. */
  ghost predicate AllStart(args: seq<Value>, start: nat, n: nat, parsed: seq<SpecInfo>) {
    forall specs: seq<SpecInfo> :: WritesSpecs(args, start, n, specs) ==> parsed <= specs
  }

  lemma AllNext(args: seq<Value>, start: nat, n: nat, parsed: seq<SpecInfo>, cur: nat)
    requires |parsed| < n && AllStart(args, start, n, parsed) && start <= |args| && cur == start + |EncodeSpecs(parsed)| <= |args|
    ensures forall specs: seq<SpecInfo> :: WritesSpecs(args, start, n, specs) ==>
              |specs| == n && GoodSpec(specs[|parsed|]) && EncodeSpec(specs[|parsed|]) <= args[cur..]
  {
    hide EncodeSpec, GoodSpec, EncodeSpecs;
    forall specs: seq<SpecInfo> | WritesSpecs(args, start, n, specs)
      ensures GoodSpec(specs[|parsed|]) && EncodeSpec(specs[|parsed|]) <= args[cur..]
    {
      assert specs[..|parsed|] == parsed;
      NextSpec(args, start, specs, |parsed|);
    }
  }

  lemma OneMoreKnown(args: seq<Value>, start: nat, n: nat, parsed: seq<SpecInfo>, sp: SpecInfo)
    requires |parsed| < n && AllStart(args, start, n, parsed)
    requires forall specs: seq<SpecInfo> :: WritesSpecs(args, start, n, specs) ==> specs[|parsed|] == sp
    ensures AllStart(args, start, n, parsed + [sp])
  {
    hide EncodeSpecs, GoodSpec;
  }

  lemma Whole(args: seq<Value>, start: nat, n: nat, parsed: seq<SpecInfo>)
    requires |parsed| == n && AllStart(args, start, n, parsed)
    ensures forall specs: seq<SpecInfo> :: WritesSpecs(args, start, n, specs) ==> specs == parsed
  {
  }

  function NumOptions(sp: SpecInfo): nat {
    |sp.specializations| + if sp.isFullCoverage then 0 else 1
  }

  lemma ExpectedMore(specs: seq<SpecInfo>, sp: SpecInfo, numOptions: nat)
    requires numOptions == NumOptions(sp)
    ensures ExpectedNumEffectFns(specs + [sp]) == ExpectedNumEffectFns(specs) * numOptions
  {
    var n := |specs|;
    var more := SpecializationsOf(specs + [sp]);
    E.NumOfPrefix(more, n);
    assert more[..n] == SpecializationsOf(specs) && more[..n + 1] == more && more[n] == SpecializationOf(sp);
  }

  lemma AllStartEmpty(args: seq<Value>, start: nat, n: nat)
    ensures AllStart(args, start, n, [])
  {
  }

  lemma NoSpecs()
    ensures EncodeSpecs([]) == [] && ExpectedNumEffectFns([]) == 1
  {
  }

  // ---- the stored values ----

  method ParseState(args: seq<Value>, start: nat, n: nat) returns (r: Option<seq<StateVal>>)
    requires start <= |args|
    ensures r.Some? ==> GoodState(r.value) && |r.value| == n && args[start..] == EncodeState(r.value)
    ensures forall vs: seq<StateVal> :: |vs| == n && GoodState(vs) && args[start..] == EncodeState(vs) ==> r == Some(vs)
  {
    hide EncodeState;
    if !(start + n * 3 == |args|) {
      StateSizes();
      return None;
    }
    var parsed: seq<StateVal> := [];
    var cur := start;
    assert args[start..start] == EncodeState([]) by { NoState(); }
    for k := 0 to n
      invariant |parsed| == k && cur == start + 3 * k && GoodState(parsed) && args[start..cur] == EncodeState(parsed)
      invariant forall vs: seq<StateVal> :: |vs| == n && args[start..] == EncodeState(vs) ==> vs[..k] == parsed
    {
      var lb, ub := args[cur + 1], args[cur + 2];
      forall vs: seq<StateVal> | |vs| == n && args[start..] == EncodeState(vs)
        ensures args[cur] == vs[k].valueInBodyFn && lb == I64(vs[k].lbInclusive) && ub == I64(vs[k].ubInclusive)
      {
        StateAt(args, start, vs, k);
      }
      if !lb.I64? || !ub.I64? || !(lb.i <= ub.i) {
        return None;
      }
      var v := StateVal(args[cur], lb.i, ub.i);
      StateAppend(parsed, v);
      assert args[start..cur + 3] == args[start..cur] + [args[cur], lb, ub];
      forall vs: seq<StateVal> | |vs| == n && args[start..] == EncodeState(vs) ensures vs[..k + 1] == parsed + [v] {
        assert vs[..k + 1] == vs[..k] + [vs[k]];
      }
      parsed, cur := parsed + [v], cur + 3;
    }
    assert args[start..cur] == args[start..];
    assert forall vs: seq<StateVal> :: |vs| == n ==> vs[..n] == vs;
    r := Some(parsed);
  }

  lemma NoState()
    ensures EncodeState([]) == []
  {
  }

  lemma StateSizes()
    ensures forall vs: seq<StateVal> :: |EncodeState(vs)| == |vs| * 3
  {
    forall vs: seq<StateVal> ensures |EncodeState(vs)| == |vs| * 3 {
      StateSize(vs);
    }
  }

  lemma {:induction false} StateSize(vs: seq<StateVal>)
    ensures |EncodeState(vs)| == |vs| * 3
  {
    if vs != [] {
      StateSize(vs[1..]);
    }
  }

  lemma {:induction false} StateAt(args: seq<Value>, start: nat, vs: seq<StateVal>, k: nat)
    requires start <= |args| && k < |vs| && args[start..] == EncodeState(vs)
    ensures start + 3 * k + 3 <= |args|
    ensures args[start + 3 * k] == vs[k].valueInBodyFn
    ensures args[start + 3 * k + 1] == I64(vs[k].lbInclusive) && args[start + 3 * k + 2] == I64(vs[k].ubInclusive)
    decreases k
  {
    var first := [vs[0].valueInBodyFn, I64(vs[0].lbInclusive), I64(vs[0].ubInclusive)];
    var p := EncodeState(vs);
    assert p == first + EncodeState(vs[1..]);
    if k == 0 {
      assert p[0] == args[start..][0] && p[1] == args[start..][1] && p[2] == args[start..][2];
    } else {
      assert args[start + 3..] == args[start..][3..] == EncodeState(vs[1..]);
      StateAt(args, start + 3, vs[1..], k - 1);
    }
  }

  // ---- the whole list ----

  ghost predicate Writes(args: seq<Value>, e: EffectCall) {
    WellFormed(e) && args == Encode(e)
  }

  lemma HeaderOf(args: seq<Value>)
    ensures forall e :: Writes(args, e) ==>
      && |args| >= 9 && args[0] == e.icPtr && args[1] == e.capture && args[2] == e.bodyFn && args[3] == U64(|e.specs|)
      && WritesSpecs(args, 4, |e.specs|, e.specs)
      && e.icPtr.Argument? && e.capture.Alloca? && e.bodyFn.Fn?
  {
    hide EncodeSpecs, EncodeState, ExpectedNumEffectFns;
    forall e | Writes(args, e)
      ensures |args| >= 9 && args[0] == e.icPtr && args[1] == e.capture && args[2] == e.bodyFn && args[3] == U64(|e.specs|)
      ensures WritesSpecs(args, 4, |e.specs|, e.specs)
    {
      Parts(e);
    }
  }

  /** The sections of a written list. */
  lemma Parts(e: EffectCall)
    ensures var args := Encode(e);
            var m := 4 + |EncodeSpecs(e.specs)|;
            var d := m + 1 + |e.mains|;
            && |args| == d + 3 + |EncodeState(e.stateVals)|
            && args[..4] == [e.icPtr, e.capture, e.bodyFn, U64(|e.specs|)]
            && EncodeSpecs(e.specs) == args[4..m] && args[m] == U64(|e.mains|) && args[m + 1..d] == e.mains
            && args[d] == e.decoder && args[d + 1] == e.encoder && args[d + 2] == U64(|e.stateVals|)
            && args[d + 3..] == EncodeState(e.stateVals)
  {
    hide EncodeSpecs, EncodeState;
  }

  /** Once the specialisations are known, so is the place of everything up to the stored values. */
  lemma MiddleOf(args: seq<Value>, specs: seq<SpecInfo>, cur: nat)
    requires 4 <= cur <= |args| && args[4..cur] == EncodeSpecs(specs)
    ensures forall e :: Writes(args, e) && e.specs == specs ==>
      && cur < |args| && args[cur] == U64(|e.mains|) && |e.mains| == ExpectedNumEffectFns(specs) > 0
      && cur + 1 + |e.mains| + 3 <= |args| && args[cur + 1..cur + 1 + |e.mains|] == e.mains && AllFns(e.mains)
      && args[cur + 1 + |e.mains|] == e.decoder && args[cur + 2 + |e.mains|] == e.encoder
      && e.decoder.Fn? && e.decoder.kind == StateDecoder && e.encoder.Fn? && e.encoder.kind == StateEncoder
      && args[cur + 3 + |e.mains|] == U64(|e.stateVals|)
      && args[cur + 4 + |e.mains|..] == EncodeState(e.stateVals) && GoodState(e.stateVals)
  {
    hide EncodeSpecs, EncodeState, ExpectedNumEffectFns, GoodSpecs;
    forall e | Writes(args, e) && e.specs == specs
      ensures
        && cur < |args| && args[cur] == U64(|e.mains|)
        && cur + 1 + |e.mains| + 3 <= |args| && args[cur + 1..cur + 1 + |e.mains|] == e.mains
        && args[cur + 1 + |e.mains|] == e.decoder && args[cur + 2 + |e.mains|] == e.encoder
        && args[cur + 3 + |e.mains|] == U64(|e.stateVals|)
        && args[cur + 4 + |e.mains|..] == EncodeState(e.stateVals)
    {
      Parts(e);
    }
  }

  /** The wrapper functions, one by one. */
  method ParseMains(args: seq<Value>, start: nat, numEffectFns: nat) returns (ok: bool)
    requires start + numEffectFns <= |args|
    ensures ok <==> AllFns(args[start..start + numEffectFns])
  {
    for i := 0 to numEffectFns
      invariant forall k :: start <= k < start + i ==> args[k].Fn?
    {
      if !args[start + i].Fn? {
        assert args[start + i] == args[start..start + numEffectFns][i];
        return false;
      }
    }
    ok := true;
  }

  /** The sections after the specialisations. */
  method ParseRest(args: seq<Value>, specs: seq<SpecInfo>, start: nat, expectedNumEffectFns: nat) returns (r: Option<EffectCall>)
    requires 4 <= start <= |args| && args[4..start] == EncodeSpecs(specs) && GoodSpecs(specs)
    requires args[0].Argument? && args[1].Alloca? && args[2].Fn? && args[3] == U64(|specs|)
    requires expectedNumEffectFns == ExpectedNumEffectFns(specs)
    ensures r.Some? ==> WellFormed(r.value) && args == Encode(r.value)
    ensures forall e :: Writes(args, e) && e.specs == specs ==> r == Some(e)
  {
    hide Encode, WellFormed, EncodeSpecs, EncodeState, ExpectedNumEffectFns, GoodSpecs, GoodState, Writes;
    MiddleOf(args, specs, start);
    r := None;
    var cur := start;
    if !(cur < |args|) || !args[cur].U64? {
      return;
    }
    var numEffectFns := args[cur].n;
    cur := cur + 1;
    if !(cur + numEffectFns <= |args|) || numEffectFns != expectedNumEffectFns || numEffectFns == 0 {
      return;
    }
    var areFns := ParseMains(args, cur, numEffectFns);
    if !areFns {
      return;
    }
    var mains := args[cur..cur + numEffectFns];
    cur := cur + numEffectFns;
    if !(cur + 2 < |args|) || !IsCodec(args[cur], StateDecoder) || !IsCodec(args[cur + 1], StateEncoder) || !args[cur + 2].U64? {
      return;
    }
    var stateVals := ParseState(args, cur + 3, args[cur + 2].n);
    if stateVals.None? {
      return;
    }
    var e := EffectCall(args[0], args[1], args[2], specs, mains, args[cur], args[cur + 1], stateVals.value);
    r := Some(e);
    Assembled(args, e, cur);
    forall f | Writes(args, f) && f.specs == specs ensures f == e {
      HeadsOf(args, f);
    }
  }

  lemma HeadsOf(args: seq<Value>, e: EffectCall)
    requires Writes(args, e)
    ensures |args| >= 9 && args[0] == e.icPtr && args[1] == e.capture && args[2] == e.bodyFn
  {
    hide EncodeSpecs, EncodeState, ExpectedNumEffectFns;
    HeaderOf(args);
  }

  /** `AstInlineCacheParseOneUse`: succeeds exactly on the lists written for well-formed effects, with
      that effect, consuming every argument. */
  method Parse(args: seq<Value>) returns (r: Option<EffectCall>)
    ensures r.Some? ==> WellFormed(r.value) && args == Encode(r.value)
    ensures forall e :: Writes(args, e) ==> r == Some(e)
  {
    hide Encode, WellFormed, EncodeSpecs, EncodeState, ExpectedNumEffectFns, GoodSpecs, GoodState, WritesSpecs, Writes;
    HeaderOf(args);
    r := None;
    if !(|args| >= 9) || !args[0].Argument? || !args[1].Alloca? || !args[2].Fn? || !args[3].U64? {
      return;
    }
    var specs, cur, expectedNumEffectFns := ParseSpecs(args, 4, args[3].n);
    if specs.None? {
      return;
    }
    r := ParseRest(args, specs.value, cur, expectedNumEffectFns);
  }

  predicate IsCodec(v: Value, kind: FnKind) {
    v.Fn? && v.kind == kind
  }

  lemma Assembled(args: seq<Value>, e: EffectCall, d: nat)
    requires 4 + 1 <= d - |e.mains| && d + 3 <= |args|
    requires args[0] == e.icPtr && args[1] == e.capture && args[2] == e.bodyFn && args[3] == U64(|e.specs|)
    requires var m := d - |e.mains| - 1; args[4..m] == EncodeSpecs(e.specs) && args[m] == U64(|e.mains|) && args[m + 1..d] == e.mains
    requires args[d] == e.decoder && args[d + 1] == e.encoder && args[d + 2] == U64(|e.stateVals|)
    requires args[d + 3..] == EncodeState(e.stateVals)
    requires e.icPtr.Argument? && e.capture.Alloca? && e.bodyFn.Fn? && GoodSpecs(e.specs)
    requires |e.mains| == ExpectedNumEffectFns(e.specs) > 0 && AllFns(e.mains)
    requires IsCodec(e.decoder, StateDecoder) && IsCodec(e.encoder, StateEncoder) && GoodState(e.stateVals)
    ensures WellFormed(e) && args == Encode(e)
  {
    hide EncodeSpecs, EncodeState, ExpectedNumEffectFns, GoodSpecs, GoodState;
    var m := d - |e.mains| - 1;
    assert args == args[..4] + args[4..m] + [args[m]] + args[m + 1..d] + [args[d], args[d + 1], args[d + 2]] + args[d + 3..];
    assert args[..4] == [e.icPtr, e.capture, e.bodyFn, U64(|e.specs|)];
  }

  /** What is written is read back. */
  method RoundTrip(e: EffectCall) returns (r: Option<EffectCall>)
    requires WellFormed(e)
    ensures r == Some(e)
  {
    hide WellFormed, Encode;
    var args := WriteArgs(e);
    assert Writes(args, e);
    r := Parse(args);
  }

  /** Different effects are written differently. */
  lemma EncodeInjective(e: EffectCall, f: EffectCall)
    requires WellFormed(e) && WellFormed(f) && Encode(e) == Encode(f)
    ensures e == f
  {
    hide EncodeSpecs, EncodeState, ExpectedNumEffectFns, GoodSpecs, GoodState;
    Parts(e);
    Parts(f);
    SameSpecs(e.specs, f.specs, Encode(e)[4..]);
    SameState(e.stateVals, f.stateVals);
  }

  lemma {:induction false} SameSpecs(a: seq<SpecInfo>, b: seq<SpecInfo>, args: seq<Value>)
    requires |a| == |b| && EncodeSpecs(a) <= args && EncodeSpecs(b) <= args
    ensures a == b
  {
    hide EncodeSpec;
    if a != [] {
      var p, q := EncodeSpec(a[0]), EncodeSpec(b[0]);
      assert args[0..] == args;
      SpecAt(args, 0, a[0]);
      SpecAt(args, 0, b[0]);
      assert a[0] == b[0];
      SameSpecs(a[1..], b[1..], args[|p|..]);
    }
  }

  lemma {:induction false} SameState(a: seq<StateVal>, b: seq<StateVal>)
    requires |a| == |b| && EncodeState(a) == EncodeState(b)
    ensures a == b
  {
    if a != [] {
      var p, q := EncodeState(a), EncodeState(b);
      assert p[..3] == q[..3] && p[0] == q[0] && p[1] == q[1] && p[2] == q[2];
      assert p[3..] == EncodeState(a[1..]) && q[3..] == EncodeState(b[1..]);
      SameState(a[1..], b[1..]);
    }
  }
}
