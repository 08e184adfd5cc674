/** Inline cache effects: specialised captures, their mixed-radix ordinals, the stored state, and
    the wrapper that rebuilds an effect's capture struct on a cache hit. */
module IcEffects {
  import opened Arithmetic
  import opened StripeFold
  import opened LittleEndian
  import opened Wrappers

  /** Where a field of the capture struct comes from: computed in the cache body, and then constant
      for a key, or passed in by the main function, and then fresh in every execution. */
  datatype Source = FromBody(size: nat) | FromMain(arg: nat)

  /** A capture with a list of values that get their own copy of the effect; with full coverage no
      other value occurs.  Boolean captures are bytes, their listed values single bits. */
  datatype Specialization = Specialization(slot: nat, fullCoverage: bool, values: seq<nat>, isBool: bool)

  datatype Effect = Effect(slots: seq<Source>, specs: seq<Specialization>, run: seq<nat> -> nat)

  // ---- options and ordinals ----

  function Cnt(sp: Specialization): nat {
    |sp.values| + if sp.fullCoverage then 0 else 1
  }

  function NumSpecializations(specs: seq<Specialization>): nat {
    if specs == [] then 1 else Cnt(specs[0]) * NumSpecializations(specs[1..])
  }

  /** What the switch of the ordinal getter compares. */
  function SwitchValue(sp: Specialization, v: nat): nat {
    if sp.isBool then v % 2 else v
  }

  function IndexOf(values: seq<nat>, v: nat): (k: nat)
    ensures k <= |values|
    ensures k < |values| ==> values[k] == v
    ensures k == |values| ==> v !in values
  {
    if values == [] then 0 else if values[0] == v then 0 else 1 + IndexOf(values[1..], v)
  }

  function OptionOf(sp: Specialization, v: nat): nat {
    IndexOf(sp.values, SwitchValue(sp, v))
  }

  /** The promise of a specialisation about a captured value. */
  predicate Promised(sp: Specialization, v: nat) {
    && (sp.fullCoverage ==> SwitchValue(sp, v) in sp.values)
    && (sp.isBool ==> v < 2)
  }

  predicate IsOption(sp: Specialization, o: nat) {
    o < Cnt(sp)
  }

  predicate AreOptions(specs: seq<Specialization>, opts: seq<nat>) {
    |opts| == |specs| && forall i :: 0 <= i < |specs| ==> IsOption(specs[i], opts[i])
  }

  /** The mixed-radix number with digits `opts`, first digit least significant. */
  function Code(specs: seq<Specialization>, opts: seq<nat>): nat
    requires |opts| == |specs|
  {
    if specs == [] then 0 else opts[0] + Cnt(specs[0]) * Code(specs[1..], opts[1..])
  }

  function Digits(specs: seq<Specialization>, n: nat): (opts: seq<nat>)
    ensures |opts| == |specs|
  {
    if specs == [] then []
    else if Cnt(specs[0]) == 0 then [0] + Digits(specs[1..], n)
    else [n % Cnt(specs[0])] + Digits(specs[1..], Quotient(n, Cnt(specs[0])))
  }

  function Quotient(n: nat, m: nat): nat
    requires m > 0
  {
    MulAway(n / m, m);
    n / m
  }

  /** Every combination of options has a code below the number of specialisations. */
  lemma {:induction false} CodeBelow(specs: seq<Specialization>, opts: seq<nat>)
    requires AreOptions(specs, opts)
    ensures Code(specs, opts) < NumSpecializations(specs)
  {
    if specs != [] {
      TailOptions(specs, opts);
      CodeBelow(specs[1..], opts[1..]);
      LessDigit(opts[0], Cnt(specs[0]), Code(specs[1..], opts[1..]), NumSpecializations(specs[1..]));
    }
  }

  lemma TailOptions(specs: seq<Specialization>, opts: seq<nat>)
    requires AreOptions(specs, opts) && specs != []
    ensures IsOption(specs[0], opts[0]) && AreOptions(specs[1..], opts[1..])
  {
  }

  lemma LessDigit(o: nat, c: nat, x: nat, n: nat)
    requires o < c && x < n
    ensures o + c * x < c * n
  {
    MulAway(n - x, c);
    assert c * n - c * x == (n - x) * c;
  }

  /** The wrapper generator reads back exactly the options the getter coded. */
  lemma {:induction false} DigitsOfCode(specs: seq<Specialization>, opts: seq<nat>)
    requires AreOptions(specs, opts)
    ensures Digits(specs, Code(specs, opts)) == opts
  {
    if specs != [] {
      TailOptions(specs, opts);
      DigitsOfCode(specs[1..], opts[1..]);
      DivModUnique(Code(specs, opts), Cnt(specs[0]), Code(specs[1..], opts[1..]), opts[0]);
      assert opts == [opts[0]] + opts[1..];
    }
  }

  /** Conversely every ordinal below the number of specialisations is the code of its digits. */
  lemma {:induction false} CodeOfDigits(specs: seq<Specialization>, n: nat)
    requires n < NumSpecializations(specs)
    ensures AreOptions(specs, Digits(specs, n)) && Code(specs, Digits(specs, n)) == n
  {
    hide Cnt, Digits, Quotient, AreOptions;
    if specs == [] {
      assert Digits(specs, n) == [];
      NoOptions();
    } else {
      var c := Cnt(specs[0]);
      NextDigit(specs, n);
      CodeOfDigits(specs[1..], Quotient(n, c));
      ConsOptions(specs, Digits(specs, n));
      Recompose(n, c);
    }
  }

  lemma NoOptions()
    ensures AreOptions([], [])
  {
  }

  lemma Recompose(n: nat, c: nat)
    requires c > 0
    ensures n % c + c * Quotient(n, c) == n
  {
  }

  lemma ConsOptions(specs: seq<Specialization>, opts: seq<nat>)
    requires |opts| == |specs| > 0 && IsOption(specs[0], opts[0]) && AreOptions(specs[1..], opts[1..])
    ensures AreOptions(specs, opts)
  {
    forall i | 0 <= i < |specs| ensures IsOption(specs[i], opts[i]) {
      if i > 0 {
        assert specs[i] == specs[1..][i - 1] && opts[i] == opts[1..][i - 1];
      }
    }
  }

  // ---- the ordinal getter, in eight-bit arithmetic ----

  function Options(specs: seq<Specialization>, capture: seq<nat>): (opts: seq<nat>)
    requires forall sp :: sp in specs ==> sp.slot < |capture|
    ensures |opts| == |specs|
  {
    seq(|specs|, i requires 0 <= i < |specs| => OptionOf(specs[i], capture[specs[i].slot]))
  }

  predicate CapturePromised(specs: seq<Specialization>, capture: seq<nat>) {
    forall sp :: sp in specs ==> sp.slot < |capture| && Promised(sp, capture[sp.slot])
  }

  lemma OptionsAreOptions(specs: seq<Specialization>, capture: seq<nat>)
    requires CapturePromised(specs, capture)
    ensures AreOptions(specs, Options(specs, capture))
  {
    forall i | 0 <= i < |specs| ensures IsOption(specs[i], Options(specs, capture)[i]) {
      assert specs[i] in specs;
    }
  }

  /** The products of the counts before each position. */
  function Weights(specs: seq<Specialization>, w: nat): (ws: seq<nat>)
    ensures |ws| == |specs|
  {
    if specs == [] then [] else [w] + Weights(specs[1..], w * Cnt(specs[0]))
  }

  function WeightedSum(opts: seq<nat>, ws: seq<nat>): nat
    requires |opts| == |ws|
  {
    if opts == [] then 0 else opts[0] * ws[0] + WeightedSum(opts[1..], ws[1..])
  }

  lemma {:induction false} WeightedSumIsCode(specs: seq<Specialization>, opts: seq<nat>, w: nat)
    requires |opts| == |specs|
    ensures WeightedSum(opts, Weights(specs, w)) == w * Code(specs, opts)
  {
    if specs != [] {
      var c, x := Cnt(specs[0]), Code(specs[1..], opts[1..]);
      WeightedSumIsCode(specs[1..], opts[1..], w * c);
      assert w * (opts[0] + c * x) == opts[0] * w + w * c * x by { Distribute(w, opts[0], c, x); }
    }
  }

  lemma Distribute(w: nat, o: nat, c: nat, x: nat)
    ensures w * (o + c * x) == o * w + w * c * x
  {
  }

  lemma MulAssociates(a: nat, b: nat, c: nat)
    ensures a * b * c == a * (b * c)
  {
  }

  lemma {:induction false} NumOfPrefix(specs: seq<Specialization>, i: nat)
    requires i < |specs|
    ensures NumSpecializations(specs[..i + 1]) == NumSpecializations(specs[..i]) * Cnt(specs[i])
  {
    hide Cnt;
    if i == 0 {
      assert specs[..1][1..] == [];
    } else {
      NumOfPrefix(specs[1..], i - 1);
      assert specs[..i][1..] == specs[1..][..i - 1] && specs[..i + 1][1..] == specs[1..][..i];
      MulAssociates(Cnt(specs[0]), NumSpecializations(specs[1..][..i - 1]), Cnt(specs[i]));
    }
  }

  lemma {:induction false} WeightsPrefix(specs: seq<Specialization>, w: nat, i: nat)
    requires i < |specs|
    ensures Weights(specs, w)[i] == w * NumSpecializations(specs[..i])
  {
    hide Cnt;
    if i > 0 {
      WeightsPrefix(specs[1..], w * Cnt(specs[0]), i - 1);
      assert specs[..i][1..] == specs[1..][..i - 1];
      MulAssociates(w, Cnt(specs[0]), NumSpecializations(specs[1..][..i - 1]));
    }
  }

  lemma {:induction false} SumMore(opts: seq<nat>, ws: seq<nat>, i: nat)
    requires |opts| == |ws| && i < |opts|
    ensures WeightedSum(opts[..i + 1], ws[..i + 1]) == WeightedSum(opts[..i], ws[..i]) + opts[i] * ws[i]
    ensures WeightedSum(opts[..i + 1], ws[..i + 1]) <= WeightedSum(opts, ws)
  {
    if i == 0 {
      assert opts[..1][1..] == [] && ws[..1][1..] == [];
    } else {
      SumMore(opts[1..], ws[1..], i - 1);
      assert opts[..i + 1][1..] == opts[1..][..i] && ws[..i + 1][1..] == ws[1..][..i];
      assert opts[..i][1..] == opts[1..][..i - 1] && ws[..i][1..] == ws[1..][..i - 1];
    }
  }

  lemma TermBelow(opts: seq<nat>, ws: seq<nat>, i: nat)
    requires |opts| == |ws| && i < |opts|
    ensures opts[i] * ws[i] <= WeightedSum(opts, ws)
  {
    SumMore(opts, ws, i);
  }

  method ComputeWeights(specs: seq<Specialization>) returns (spOrdWeights: seq<nat>)
    ensures spOrdWeights == Weights(specs, 1)
  {
    hide Cnt, Weights;
    spOrdWeights := [];
    var curWeight: nat := 1;
    for i := 0 to |specs|
      invariant spOrdWeights == Weights(specs, 1)[..i] && curWeight == NumSpecializations(specs[..i])
    {
      WeightsPrefix(specs, 1, i);
      NumOfPrefix(specs, i);
      spOrdWeights := spOrdWeights + [curWeight];
      curWeight := curWeight * Cnt(specs[i]);
    }
  }

  /** `CreateEffectOrdinalGetterFn`: a switch per specialised capture, then a weighted sum whose
      products and sums are emitted as eight-bit operations that must not overflow. */
  method EffectOrdinal(specs: seq<Specialization>, capture: seq<nat>, startOrd: nat) returns (ord: nat)
    requires CapturePromised(specs, capture)
    requires startOrd + NumSpecializations(specs) <= 250
    ensures ord == startOrd + Code(specs, Options(specs, capture)) < 250
  {
    hide Weights, Options, Code, NumSpecializations;
    var opts := Options(specs, capture);
    OptionsAreOptions(specs, capture);
    CodeBelow(specs, opts);
    var spOrdWeights := ComputeWeights(specs);
    WeightedSumIsCode(specs, opts, 1);
    var sum := startOrd;
    for i := 0 to |specs|
      invariant sum == startOrd + WeightedSum(opts[..i], spOrdWeights[..i])
      invariant sum < 250
    {
      SumMore(opts, spOrdWeights, i);
      TermBelow(opts, spOrdWeights, i);
      var thisTerm := opts[i] * spOrdWeights[i];
      assert thisTerm < 0x100 && sum + thisTerm < 0x100;
      sum := sum + thisTerm;
    }
    assert opts[..|specs|] == opts && spOrdWeights[..|specs|] == spOrdWeights;
    ord := sum;
  }

  /** One digit is split off. */
  lemma NextDigit(specs: seq<Specialization>, n: nat)
    requires specs != [] && n < NumSpecializations(specs)
    ensures Cnt(specs[0]) > 0 && Quotient(n, Cnt(specs[0])) < NumSpecializations(specs[1..])
    ensures Digits(specs, n)[0] == n % Cnt(specs[0]) < Cnt(specs[0])
    ensures Digits(specs, n)[1..] == Digits(specs[1..], Quotient(n, Cnt(specs[0])))
  {
    QuotientBelow(n, Cnt(specs[0]), NumSpecializations(specs[1..]));
  }

  /** The configuration of the wrapper with a given ordinal: a constant per specialised capture, or
      the general case. */
  method ConfigurationOf(specs: seq<Specialization>, ordinal: nat) returns (config: seq<Option<nat>>)
    requires ordinal < NumSpecializations(specs)
    ensures config == Configuration(specs, Digits(specs, ordinal))
  {
    hide Digits, Quotient, NumSpecializations;
    config := [];
    var tmp: nat := ordinal;
    ghost var opts := Digits(specs, ordinal);
    for i := 0 to |specs|
      invariant config == Configuration(specs, opts)[..i]
      invariant tmp < NumSpecializations(specs[i..]) && opts[i..] == Digits(specs[i..], tmp)
    {
      NextDigit(specs[i..], tmp);
      assert specs[i..][1..] == specs[i + 1..] && specs[i..][0] == specs[i];
      assert opts[i] == opts[i..][0] && opts[i + 1..] == opts[i..][1..];
      var cnt := Cnt(specs[i]);
      var option: nat := tmp % cnt;
      tmp := Quotient(tmp, cnt);
      if option < |specs[i].values| {
        config := config + [Some(specs[i].values[option])];
      } else {
        assert !specs[i].fullCoverage;
        config := config + [None];
      }
    }
  }

  function Configuration(specs: seq<Specialization>, opts: seq<nat>): (config: seq<Option<nat>>)
    requires |opts| == |specs|
    ensures |config| == |specs|
  {
    seq(|specs|, i requires 0 <= i < |specs| =>
      if opts[i] < |specs[i].values| then Some(specs[i].values[opts[i]]) else None)
  }

  /** Per specialised capture one of its listed values, or the general case unless the list covers all
      values. */
  predicate IsConfiguration(specs: seq<Specialization>, config: seq<Option<nat>>) {
    && |config| == |specs|
    && forall i :: 0 <= i < |specs| ==>
         if config[i].Some? then config[i].value in specs[i].values else !specs[i].fullCoverage
  }

  /** The wrappers are those of all configurations, and of nothing else. */
  lemma ConfigurationsExactly(specs: seq<Specialization>, config: seq<Option<nat>>)
    ensures IsConfiguration(specs, config) <==>
      exists n: nat :: n < NumSpecializations(specs) && Configuration(specs, Digits(specs, n)) == config
  {
    hide Digits, NumSpecializations, Code;
    if IsConfiguration(specs, config) {
      var opts := seq(|specs|, i requires 0 <= i < |specs| =>
        if config[i].Some? then IndexOf(specs[i].values, config[i].value) else |specs[i].values|);
      CodeBelow(specs, opts);
      DigitsOfCode(specs, opts);
      assert Configuration(specs, opts) == config;
    }
    if n: nat :| n < NumSpecializations(specs) && Configuration(specs, Digits(specs, n)) == config {
      CodeOfDigits(specs, n);
      forall i | 0 <= i < |specs|
        ensures if config[i].Some? then config[i].value in specs[i].values else !specs[i].fullCoverage
      {
        assert IsOption(specs[i], Digits(specs, n)[i]);
      }
    }
  }

  /** No two wrappers are for the same configuration. */
  lemma ConfigurationsDistinct(specs: seq<Specialization>, m: nat, n: nat)
    requires forall i, j, k :: 0 <= i < |specs| && 0 <= j < k < |specs[i].values| ==> specs[i].values[j] != specs[i].values[k]
    requires m < NumSpecializations(specs) && n < NumSpecializations(specs)
    ensures Configuration(specs, Digits(specs, m)) == Configuration(specs, Digits(specs, n)) <==> m == n
  {
    hide Digits, NumSpecializations, Code;
    var a, b := Digits(specs, m), Digits(specs, n);
    CodeOfDigits(specs, m);
    CodeOfDigits(specs, n);
    if Configuration(specs, a) == Configuration(specs, b) {
      forall i | 0 <= i < |specs| ensures a[i] == b[i] {
        assert IsOption(specs[i], a[i]) && IsOption(specs[i], b[i]);
        assert Configuration(specs, a)[i] == Configuration(specs, b)[i];
      }
      assert a == b;
    }
  }

  /** A constant in the configuration is the captured value itself, a boolean widened to a byte. */
  lemma ConstantsAreCaptured(specs: seq<Specialization>, capture: seq<nat>, i: nat)
    requires CapturePromised(specs, capture) && i < |specs|
    ensures var c := Configuration(specs, Options(specs, capture))[i];
            && (c.Some? ==> c.value == capture[specs[i].slot])
            && (specs[i].fullCoverage ==> c.Some?)
  {
    assert specs[i] in specs;
  }

  // ---- ordinals of all effects of one cache ----

  function TotalEffectKinds(effects: seq<Effect>): nat {
    if effects == [] then 0 else NumSpecializations(effects[0].specs) + TotalEffectKinds(effects[1..])
  }

  function StartOrdinal(effects: seq<Effect>, e: nat): nat
    requires e <= |effects|
  {
    TotalEffectKinds(effects[..e])
  }

  lemma {:induction false} TotalOfAppend(a: seq<Effect>, b: seq<Effect>)
    ensures TotalEffectKinds(a + b) == TotalEffectKinds(a) + TotalEffectKinds(b)
  {
    if a == [] {
      assert a + b == b;
    } else {
      assert (a + b)[1..] == a[1..] + b;
      TotalOfAppend(a[1..], b);
    }
  }

  lemma StartOfNext(effects: seq<Effect>, e: nat)
    requires e < |effects|
    ensures StartOrdinal(effects, e + 1) == StartOrdinal(effects, e) + NumSpecializations(effects[e].specs)
  {
    assert effects[..e + 1] == effects[..e] + [effects[e]];
    TotalOfAppend(effects[..e], [effects[e]]);
    assert [effects[e]][1..] == [];
  }

  lemma {:induction false} StartsIncrease(effects: seq<Effect>, e: nat, f: nat)
    requires e < f <= |effects|
    ensures StartOrdinal(effects, e) + NumSpecializations(effects[e].specs) <= StartOrdinal(effects, f)
    decreases f
  {
    if f == e + 1 {
      StartOfNext(effects, e);
    } else {
      StartsIncrease(effects, e, f - 1);
      StartOfNext(effects, f - 1);
    }
  }

  /** Ordinals of different effects, or of different specialisations, never coincide, and all lie
      below the total number of effect kinds. */
  lemma OrdinalsDisjoint(effects: seq<Effect>, e: nat, c: nat, f: nat, d: nat)
    requires e < |effects| && c < NumSpecializations(effects[e].specs)
    requires f < |effects| && d < NumSpecializations(effects[f].specs)
    ensures StartOrdinal(effects, e) + c == StartOrdinal(effects, f) + d <==> e == f && c == d
    ensures StartOrdinal(effects, e) + c < TotalEffectKinds(effects)
  {
    assert effects[..|effects|] == effects;
    StartsIncrease(effects, e, |effects|);
    if e < f {
      StartsIncrease(effects, e, f);
    } else if f < e {
      StartsIncrease(effects, f, e);
    }
  }

  /** Every ordinal below the total belongs to an effect, at some specialisation. */
  function EffectOf(effects: seq<Effect>, n: nat): (e: nat)
    requires n < TotalEffectKinds(effects)
    ensures e < |effects| && StartOrdinal(effects, e) <= n < StartOrdinal(effects, e) + NumSpecializations(effects[e].specs)
  {
    var first := NumSpecializations(effects[0].specs);
    if n < first then 0
    else
      var e := EffectOf(effects[1..], n - first);
      assert effects[..e + 1][1..] == effects[1..][..e];
      e + 1
  }

  /** The loop that assigns the start ordinals. */
  method AssignStartOrdinals(effects: seq<Effect>) returns (starts: seq<nat>, totalEffectFns: nat)
    ensures |starts| == |effects| && totalEffectFns == TotalEffectKinds(effects)
    ensures forall e :: 0 <= e < |effects| ==> starts[e] == StartOrdinal(effects, e)
  {
    starts, totalEffectFns := [], 0;
    for e := 0 to |effects|
      invariant |starts| == e && totalEffectFns == StartOrdinal(effects, e)
      invariant forall j :: 0 <= j < e ==> starts[j] == StartOrdinal(effects, j)
    {
      StartOfNext(effects, e);
      starts := starts + [totalEffectFns];
      totalEffectFns := totalEffectFns + NumSpecializations(effects[e].specs);
    }
    assert effects[..|effects|] == effects;
  }

  // ---- what the front end accepts ----

  ghost predicate ValidSpecialization(sp: Specialization) {
    && sp.values != []
    && (forall i, j :: 0 <= i < j < |sp.values| ==> sp.values[i] != sp.values[j])
    && (sp.isBool ==> sp.fullCoverage && |sp.values| == 2 && sp.values[0] < 2 && sp.values[1] < 2)
  }

  ghost predicate ValidEffect(e: Effect) {
    && (forall i :: 0 <= i < |e.specs| ==>
         ValidSpecialization(e.specs[i]) && e.specs[i].slot < |e.slots| && e.slots[e.specs[i].slot].FromBody?)
    && (forall i, j :: 0 <= i < j < |e.specs| ==> e.specs[i].slot != e.specs[j].slot)
    && NumSpecializations(e.specs) <= 50
  }

  /** A capture struct as the cache body builds it, in an execution with the given fresh values. */
  predicate IsCapture(e: Effect, capture: seq<nat>, live: seq<nat>) {
    && |capture| == |e.slots|
    && CapturePromised(e.specs, capture)
    && forall s :: 0 <= s < |e.slots| ==> SlotHolds(e.slots[s], capture[s], live)
  }

  predicate SlotHolds(source: Source, v: nat, live: seq<nat>) {
    match source
    case FromBody(size) => v < Range(size)
    case FromMain(arg) => arg < |live| && v == live[arg]
  }

  /** The same captures with the fresh values of another execution. */
  function WithFresh(e: Effect, capture: seq<nat>, live: seq<nat>): seq<nat>
    requires |capture| == |e.slots|
  {
    seq(|capture|, s requires 0 <= s < |capture| =>
      if e.slots[s].FromMain? && e.slots[s].arg < |live| then live[e.slots[s].arg] else capture[s])
  }

  lemma WithOwnFresh(e: Effect, capture: seq<nat>, live: seq<nat>)
    requires IsCapture(e, capture, live)
    ensures WithFresh(e, capture, live) == capture
  {
    forall s | 0 <= s < |capture| ensures WithFresh(e, capture, live)[s] == capture[s] {
      assert SlotHolds(e.slots[s], capture[s], live);
    }
  }

  /** Of a boolean only the lowest bit is compared, and the bit is widened on a hit: the captured
      byte comes back exactly when it is 0 or 1. */
  lemma BooleanComesBack(sp: Specialization, v: nat)
    requires ValidSpecialization(sp) && sp.isBool
    ensures OptionOf(sp, v) < 2
    ensures sp.values[OptionOf(sp, v)] == v <==> v < 2
  {
    assert sp.values[0] != sp.values[1];
  }

  // ---- the stored state ----

  /** Captures with full coverage are known from the ordinal and not stored. */
  predicate FullyCovered(e: Effect, s: nat) {
    exists i :: 0 <= i < |e.specs| && e.specs[i].slot == s && e.specs[i].fullCoverage
  }

  predicate IsStored(e: Effect, s: nat) {
    s < |e.slots| && e.slots[s].FromBody? && !FullyCovered(e, s)
  }

  predicate AllStored(e: Effect, stored: seq<nat>) {
    forall i :: 0 <= i < |stored| ==> IsStored(e, stored[i])
  }

  function StoredSlots(e: Effect, n: nat): (stored: seq<nat>)
    requires n <= |e.slots|
    ensures AllStored(e, stored)
    ensures forall s: nat :: s < n && IsStored(e, s) ==> s in stored
  {
    if n == 0 then [] else StoredSlots(e, n - 1) + if IsStored(e, n - 1) then [n - 1] else []
  }

  /** Stored are the captures that the body computes and no list of values covers, each once, in the
      order of the struct. */
  lemma {:induction false} StoredExactly(e: Effect, n: nat)
    requires n <= |e.slots|
    ensures forall i, j :: 0 <= i < j < |StoredSlots(e, n)| ==> StoredSlots(e, n)[i] < StoredSlots(e, n)[j] < n
    ensures forall s: nat :: s in StoredSlots(e, n) <==>
              s < n && e.slots[s].FromBody? && forall sp :: sp in e.specs && sp.slot == s ==> !sp.fullCoverage
  {
    if n > 0 {
      StoredExactly(e, n - 1);
      var rest := StoredSlots(e, n - 1);
      assert forall i :: 0 <= i < |rest| ==> rest[i] in rest;
    }
  }

  /** The captured values one after the other, without padding. */
  function Packed(e: Effect, stored: seq<nat>, capture: seq<nat>): Bytes
    requires |capture| == |e.slots| && AllStored(e, stored)
  {
    if stored == [] then []
    else
      var last := stored[|stored| - 1];
      Packed(e, stored[..|stored| - 1], capture) + IntBytes(capture[last], e.slots[last].size)
  }

  function PackedState(e: Effect, capture: seq<nat>): Bytes
    requires |capture| == |e.slots|
  {
    Packed(e, StoredSlots(e, |e.slots|), capture)
  }

  lemma {:induction false} PackedMore(e: Effect, stored: seq<nat>, capture: seq<nat>, i: nat)
    requires |capture| == |e.slots| && AllStored(e, stored)
    requires i < |stored|
    ensures Packed(e, stored[..i + 1], capture)
         == Packed(e, stored[..i], capture) + IntBytes(capture[stored[i]], e.slots[stored[i]].size)
    ensures Packed(e, stored[..i + 1], capture) <= Packed(e, stored, capture)
    decreases |stored|
  {
    assert stored[..i + 1][..i] == stored[..i];
    if i + 1 < |stored| {
      PackedMore(e, stored[..|stored| - 1], capture, i);
      assert stored[..|stored| - 1][..i + 1] == stored[..i + 1];
    } else {
      assert stored[..i + 1] == stored;
    }
  }

  /** The size of an effect's state, whatever the captured values. */
  function SizeOf(e: Effect, stored: seq<nat>): nat
    requires AllStored(e, stored)
  {
    if stored == [] then 0
    else SizeOf(e, stored[..|stored| - 1]) + e.slots[stored[|stored| - 1]].size
  }

  function StateSize(e: Effect): nat {
    SizeOf(e, StoredSlots(e, |e.slots|))
  }

  lemma {:induction false} PackedSize(e: Effect, stored: seq<nat>, capture: seq<nat>)
    requires |capture| == |e.slots| && AllStored(e, stored)
    ensures |Packed(e, stored, capture)| == SizeOf(e, stored)
  {
    if stored != [] {
      PackedSize(e, stored[..|stored| - 1], capture);
    }
  }

  /** Copies bytes into a metadata area. */
  method CopyTo(mem: array<Byte>, off: nat, data: Bytes)
    requires off + |data| <= mem.Length
    modifies mem
    ensures mem[..off + |data|] == old(mem[..off]) + data
    ensures mem[off + |data|..] == old(mem[off + |data|..])
  {
    forall i | 0 <= i < |data| {
      mem[off + i] := data[i];
    }
  }

  /** The state encoder: one copy per stored capture, at the next free byte. */
  method EncodeState(e: Effect, capture: seq<nat>, mem: array<Byte>)
    requires |capture| == |e.slots| && |PackedState(e, capture)| <= mem.Length
    modifies mem
    ensures mem[..|PackedState(e, capture)|] == PackedState(e, capture)
    ensures mem[|PackedState(e, capture)|..] == old(mem[|PackedState(e, capture)|..])
  {
    hide IntBytes;
    var stored := StoredSlots(e, |e.slots|);
    ghost var all := |PackedState(e, capture)|;
    var off := 0;
    for i := 0 to |stored|
      invariant off == |Packed(e, stored[..i], capture)| <= all
      invariant mem[..off] == Packed(e, stored[..i], capture)
      invariant mem[all..] == old(mem[all..])
    {
      PackedMore(e, stored, capture, i);
      CopyTo(mem, off, IntBytes(capture[stored[i]], e.slots[stored[i]].size));
      off := off + e.slots[stored[i]].size;
    }
    assert stored[..|stored|] == stored;
  }

  lemma PackedAt(e: Effect, stored: seq<nat>, capture: seq<nat>, i: nat, mem: Bytes)
    requires |capture| == |e.slots| && AllStored(e, stored)
    requires i < |stored| && Packed(e, stored, capture) <= mem
    ensures var off, size := |Packed(e, stored[..i], capture)|, e.slots[stored[i]].size;
            && off + size == |Packed(e, stored[..i + 1], capture)| <= |mem|
            && mem[off..off + size] == IntBytes(capture[stored[i]], size)
  {
    hide IntBytes;
    PackedMore(e, stored, capture, i);
    var off, size := |Packed(e, stored[..i], capture)|, e.slots[stored[i]].size;
    assert mem[..off + size] == Packed(e, stored[..i + 1], capture);
    assert mem[off..off + size] == mem[..off + size][off..];
  }

  /** The state decoder fills the stored captures of a capture struct. */
  method DecodeState(e: Effect, ghost capture: seq<nat>, ghost live: seq<nat>, mem: Bytes, dst: array<nat>)
    requires IsCapture(e, capture, live) && PackedState(e, capture) <= mem && dst.Length == |e.slots|
    modifies dst
    ensures forall s :: 0 <= s < |e.slots| && IsStored(e, s) ==> dst[s] == capture[s]
  {
    hide IntBytes, Packed;
    var stored := StoredSlots(e, |e.slots|);
    var off := 0;
    assert Packed(e, stored[..0], capture) == [] by { NothingPacked(e, stored, capture); }
    for i := 0 to |stored|
      invariant off == |Packed(e, stored[..i], capture)|
      invariant forall j :: 0 <= j < i ==> dst[stored[j]] == capture[stored[j]]
    {
      PackedAt(e, stored, capture, i, mem);
      StoredFits(e, capture, live, stored[i]);
      ValueOfIntBytes(capture[stored[i]], e.slots[stored[i]].size);
      dst[stored[i]] := ValueOf(mem[off..off + e.slots[stored[i]].size]);
      off := off + e.slots[stored[i]].size;
    }
  }

  lemma NothingPacked(e: Effect, stored: seq<nat>, capture: seq<nat>)
    requires |capture| == |e.slots| && AllStored(e, stored)
    ensures Packed(e, stored[..0], capture) == []
  {
  }

  lemma StoredFits(e: Effect, capture: seq<nat>, live: seq<nat>, s: nat)
    requires IsCapture(e, capture, live) && IsStored(e, s)
    ensures s < |capture| && e.slots[s].FromBody? && capture[s] < Range(e.slots[s].size)
  {
    assert SlotHolds(e.slots[s], capture[s], live);
  }

  // ---- the effect wrapper ----

  /** The wrapper of one specialisation, after the state decoder has filled the stored captures: it
      stores the main function's values and finally the constants of its configuration.  Whatever
      the rest of the struct held before, the result is the struct of the execution that filled the
      cache, with the fresh values of this one. */
  method CompleteCapture(e: Effect, ordinal: nat, live: seq<nat>, ai: array<nat>, ghost capture: seq<nat>, ghost live0: seq<nat>)
    requires ValidEffect(e) && IsCapture(e, capture, live0) && |live| == |live0|
    requires ordinal == Code(e.specs, Options(e.specs, capture))
    requires ai.Length == |e.slots| && forall s :: 0 <= s < |e.slots| && IsStored(e, s) ==> ai[s] == capture[s]
    modifies ai
    ensures ai[..] == WithFresh(e, capture, live)
  {
    hide Code, Digits, Options, Configuration, CapturePromised, NumSpecializations;
    CodeKnown(e, capture, live0);
    var config := ConfigurationOf(e.specs, ordinal);
    ghost var decoded := ai[..];
    for s := 0 to |e.slots|
      invariant forall t :: 0 <= t < |e.slots| ==>
        ai[t] == if t < s && e.slots[t].FromMain? then live[e.slots[t].arg] else decoded[t]
    {
      assert SlotHolds(e.slots[s], capture[s], live0);
      if e.slots[s].FromMain? {
        ai[s] := live[e.slots[s].arg];
      }
    }
    ghost var filled := ai[..];
    for i := 0 to |e.specs|
      invariant forall t :: 0 <= t < |e.slots| ==> ai[t] == filled[t] || (e.slots[t].FromBody? && ai[t] == capture[t])
      invariant forall j :: 0 <= j < i && e.specs[j].fullCoverage ==> ai[e.specs[j].slot] == capture[e.specs[j].slot]
    {
      ConstantKnown(e, capture, live0, i);
      assert e.slots[e.specs[i].slot].FromBody?;
      if config[i].Some? {
        ai[e.specs[i].slot] := config[i].value;
      }
    }
    forall s | 0 <= s < |e.slots| ensures ai[s] == WithFresh(e, capture, live)[s] {
      assert SlotHolds(e.slots[s], capture[s], live0);
      if e.slots[s].FromBody? && FullyCovered(e, s) {
        var i :| 0 <= i < |e.specs| && e.specs[i].slot == s && e.specs[i].fullCoverage;
        assert ai[e.specs[i].slot] == capture[s];
      }
    }
  }

  /** The wrapper in the interpreter: the state is decoded from the metadata. */
  method RebuildCapture(e: Effect, ordinal: nat, mem: Bytes, live: seq<nat>, ai: array<nat>,
                        ghost capture: seq<nat>, ghost live0: seq<nat>)
    requires ValidEffect(e) && IsCapture(e, capture, live0) && |live| == |live0|
    requires ordinal == Code(e.specs, Options(e.specs, capture)) && PackedState(e, capture) <= mem
    requires ai.Length == |e.slots|
    modifies ai
    ensures ai[..] == WithFresh(e, capture, live)
  {
    hide Code, Options, PackedState, WithFresh, IsCapture, ValidEffect;
    DecodeState(e, capture, live0, mem, ai);
    CompleteCapture(e, ordinal, live, ai, capture, live0);
  }

  /** The stored captures as the constants of generated code. */
  function StoredValues(e: Effect, capture: seq<nat>): (values: seq<nat>)
    requires |capture| == |e.slots|
    ensures |values| == |StoredSlots(e, |e.slots|)|
  {
    var stored := StoredSlots(e, |e.slots|);
    seq(|stored|, i requires 0 <= i < |stored| => capture[stored[i]])
  }

  /** The wrapper in generated code: the state is a list of constants. */
  method RebuildFromConstants(e: Effect, ordinal: nat, values: seq<nat>, live: seq<nat>, ai: array<nat>,
                              ghost capture: seq<nat>, ghost live0: seq<nat>)
    requires ValidEffect(e) && IsCapture(e, capture, live0) && |live| == |live0|
    requires ordinal == Code(e.specs, Options(e.specs, capture)) && values == StoredValues(e, capture)
    requires ai.Length == |e.slots|
    modifies ai
    ensures ai[..] == WithFresh(e, capture, live)
  {
    hide Code, Options, WithFresh, CapturePromised, ValidEffect;
    var stored := StoredSlots(e, |e.slots|);
    for i := 0 to |stored|
      invariant forall j :: 0 <= j < i ==> ai[stored[j]] == capture[stored[j]]
    {
      ai[stored[i]] := values[i];
    }
    CompleteCapture(e, ordinal, live, ai, capture, live0);
  }

  lemma CodeKnown(e: Effect, capture: seq<nat>, live: seq<nat>)
    requires IsCapture(e, capture, live)
    ensures CapturePromised(e.specs, capture)
    ensures var opts := Options(e.specs, capture);
            Code(e.specs, opts) < NumSpecializations(e.specs) && Digits(e.specs, Code(e.specs, opts)) == opts
  {
    OptionsAreOptions(e.specs, capture);
    CodeBelow(e.specs, Options(e.specs, capture));
    DigitsOfCode(e.specs, Options(e.specs, capture));
  }

  lemma ConstantKnown(e: Effect, capture: seq<nat>, live: seq<nat>, i: nat)
    requires IsCapture(e, capture, live) && i < |e.specs|
    ensures CapturePromised(e.specs, capture)
    ensures var c := Configuration(e.specs, Options(e.specs, capture))[i];
            && (c.Some? ==> c.value == capture[e.specs[i].slot])
            && (e.specs[i].fullCoverage ==> c.Some?)
  {
    ConstantsAreCaptured(e.specs, capture, i);
  }
}
