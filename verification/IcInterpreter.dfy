/** The interpreter's inline cache: one entry kept in the bytecode metadata, and optionally the
    effect kind fused into the opcode of the bytecode.

    Every execution behaves like one step of the one-entry policy of `IcModel`, so every run
    returns what running the body each time returns.  A fused cache goes on working exactly as long
    as no effect kind of 128 or more is replaced; then its opcode is no longer one of the bytecode's. */
module IcInterpreter {
  import opened StripeFold
  import opened IcEffects
  import opened IcModel
  import opened Wrappers

  const NO_ENTRY: nat := 255

  // ---- opcode arithmetic ----

  function SignExtend8(v: nat): int {
    if v < 128 then v else v - 256
  }

  /** The opcode after replacing the effect kind `old` by `new`, in 16-bit arithmetic. */
  function AdjustOpcode(opcode: nat, old_: nat, new_: nat): nat {
    (opcode - SignExtend8(old_) + new_) % 0x1_0000
  }

  /** The opcodes of one bytecode: the one without an entry, then one per effect kind. */
  function OpcodeOf(base: nat, kind: nat): nat {
    if kind == NO_ENTRY then base else base + 1 + kind
  }

  /** The old kind is sign-extended and the new one zero-extended: the adjusted opcode is the one of
      the new kind exactly when there was no entry or the old kind is below 128. */
  lemma OpcodeTracksKind(base: nat, old_: nat, new_: nat)
    requires base + 256 < 0x1_0000 && old_ < 256 && new_ < 255
    ensures AdjustOpcode(OpcodeOf(base, old_), old_, new_) == OpcodeOf(base, new_) <==> old_ < 128 || old_ == NO_ENTRY
  {
  }

  /** With more than 128 effect kinds the scheme breaks: replacing kind 128 by kind 0 leaves an
      opcode 256 too high. */
  lemma OpcodeLosesTrack(base: nat)
    requires base + 512 < 0x1_0000
    ensures AdjustOpcode(OpcodeOf(base, 128), 128, 0) == OpcodeOf(base, 0) + 256
  {
  }

  /** The adjusted opcode is then none of this bytecode's. */
  lemma OpcodeLost(base: nat, old_: nat, new_: nat, total: nat)
    requires base + 256 < 0x1_0000 && 128 <= old_ < total < 250 && new_ < total
    ensures var opcode := AdjustOpcode(OpcodeOf(base, old_), old_, new_);
            opcode < base || opcode > base + total
  {
  }

  // ---- runs that keep the opcode ----

  ghost function KindIn(ic: Ic, en: Entry): nat {
    if en.effect < |ic.effects| && (forall sp :: sp in ic.effects[en.effect].specs ==> sp.slot < |en.capture|)
    then KindOf(ic, en) else 0
  }

  /** An execution does not replace an entry whose effect kind is 128 or more. */
  ghost predicate KeepsOpcode(ic: Ic, cached: Option<Entry>, i: Input) {
    cached.Some? && cached.value.key != i.key && Cacheable(ic.body(i)) ==> KindIn(ic, cached.value) < 128
  }

  /** No execution of a run but possibly the last one does. */
  ghost predicate RunKeepsOpcode(ic: Ic, cached: Option<Entry>, inputs: seq<Input>)
    decreases |inputs|
  {
    |inputs| <= 1 ||
    (KeepsOpcode(ic, cached, inputs[0]) && RunKeepsOpcode(ic, StepOne(ic, cached, inputs[0]).1, inputs[1..]))
  }

  /** No entry whose effect kind is 128 or more can ever be replaced by one for another key. */
  ghost predicate HighKindsStay(ic: Ic) {
    forall i, j :: Takes(ic, i) && Takes(ic, j) && Cacheable(ic.body(i)) && Cacheable(ic.body(j)) && i.key != j.key ==>
      KindIn(ic, EntryOf(i, ic.body(i))) < 128
  }

  lemma {:induction false} HighKindsStayInRuns(ic: Ic, cached: Option<Entry>, inputs: seq<Input>)
    requires HighKindsStay(ic) && TakesAll(ic, inputs) && (cached.Some? ==> Stems(ic, cached.value))
    ensures RunKeepsOpcode(ic, cached, inputs)
    decreases |inputs|
  {
    hide KindIn, Answer, Trivial;
    if |inputs| > 1 {
      var i := inputs[0];
      if cached.Some? && cached.value.key != i.key && Cacheable(ic.body(i)) {
        var j :| Takes(ic, j) && Cacheable(ic.body(j)) && cached.value == EntryOf(j, ic.body(j));
        assert Takes(ic, i);
      }
      if Cacheable(ic.body(i)) {
        EntryStems(ic, i);
      }
      HighKindsStayInRuns(ic, StepOne(ic, cached, i).1, inputs[1..]);
    }
  }

  /** Every run from an empty cache keeps the opcode if and only if that is so. */
  lemma AllRunsKeepOpcodeIff(ic: Ic)
    ensures (forall inputs :: TakesAll(ic, inputs) ==> RunKeepsOpcode(ic, None, inputs)) <==> HighKindsStay(ic)
  {
    hide KindIn, Answer, Trivial;
    if HighKindsStay(ic) {
      forall inputs | TakesAll(ic, inputs) ensures RunKeepsOpcode(ic, None, inputs) {
        HighKindsStayInRuns(ic, None, inputs);
      }
    }
    if forall inputs :: TakesAll(ic, inputs) ==> RunKeepsOpcode(ic, None, inputs) {
      forall i, j | Takes(ic, i) && Takes(ic, j) && Cacheable(ic.body(i)) && Cacheable(ic.body(j)) && i.key != j.key
        ensures KindIn(ic, EntryOf(i, ic.body(i))) < 128
      {
        assert TakesAll(ic, [i, j, j]) && [i, j, j][1..] == [j, j];
        assert RunKeepsOpcode(ic, Some(EntryOf(i, ic.body(i))), [j, j]);
      }
    }
  }

  /** Without caching there is no opcode to lose. */
  lemma {:induction false} KeepsWithoutCaching(ic: Ic, inputs: seq<Input>)
    requires NeverCaches(ic, inputs)
    ensures RunKeepsOpcode(ic, None, inputs)
    decreases |inputs|
  {
    hide KindIn, Answer, Trivial;
    if |inputs| > 1 {
      KeepsWithoutCaching(ic, inputs[1..]);
    }
  }

  // ---- the metadata of one site ----

  function MaxStateSize(effects: seq<Effect>): (n: nat)
    ensures forall e :: 0 <= e < |effects| ==> StateSize(effects[e]) <= n
  {
    if effects == [] then 0
    else
      var n := MaxStateSize(effects[1..]);
      assert forall e :: 0 < e < |effects| ==> effects[e] == effects[1..][e - 1];
      if StateSize(effects[0]) <= n then n else StateSize(effects[0])
  }

  lemma StateFits(e: Effect, capture: seq<nat>, n: nat)
    requires |capture| == |e.slots| && StateSize(e) <= n
    ensures |PackedState(e, capture)| <= n
  {
    PackedSize(e, StoredSlots(e, |e.slots|), capture);
  }

  lemma CaptureSize(e: Effect, capture: seq<nat>, live: seq<nat>)
    requires IsCapture(e, capture, live)
    ensures |capture| == |e.slots|
  {
  }

  class Metadata {
    const ic: Ic
    const fused: bool
    const baseOpcode: nat

    var cachedIcKey: nat
    var effectKind: nat
    const icState: array<Byte>
    var opcode: nat

    /** The entry the metadata stands for, and the fresh values of the execution that made it. */
    ghost var entry: Option<Entry>
    ghost var entryLive: seq<nat>

    function Total(): nat { TotalEffectKinds(ic.effects) }

    /** With one effect kind and an impossible key the kind is not stored. */
    predicate CanElideEffectKind() {
      Total() == 1 && ic.impossibleKey.Some?
    }

    /** What the front end accepts; a fused cache keeps its kind. */
    ghost predicate Supported() {
      && ValidIc(ic)
      && (fused ==> !CanElideEffectKind() && baseOpcode + 256 < 0x1_0000)
    }

    /** The opcode is one of this bytecode's, so that the interpreter comes here. */
    predicate OnSite()
      reads this
    {
      fused ==> baseOpcode <= opcode <= baseOpcode + Total()
    }

    ghost predicate HoldsEntry(en: Entry)
      requires IsEntry(ic, en, entryLive)
      reads this, icState
    {
      && cachedIcKey == en.key
      && (!CanElideEffectKind() ==>
           (forall sp :: sp in ic.effects[en.effect].specs ==> sp.slot < |en.capture|) && effectKind == KindOf(ic, en))
      && PackedState(ic.effects[en.effect], en.capture) <= icState[..]
    }

    ghost predicate HoldsNothing()
      reads this
    {
      effectKind == NO_ENTRY && (ic.impossibleKey.Some? ==> cachedIcKey == ic.impossibleKey.value)
    }

    ghost predicate Valid()
      reads this, icState
    {
      && Supported() && MaxStateSize(ic.effects) <= icState.Length
      && (entry.None? ==> HoldsNothing())
      && (entry.Some? ==> IsEntry(ic, entry.value, entryLive) && HoldsEntry(entry.value))
      && (fused && OnSite() ==> opcode == OpcodeOf(baseOpcode, effectKind))
    }

    /** Fresh metadata: the key is the impossible one, or whatever the memory held. */
    constructor (ic: Ic, fused: bool, baseOpcode: nat, junk: nat)
      requires ValidIc(ic)
      requires fused ==> baseOpcode + 256 < 0x1_0000
      requires fused ==> !(TotalEffectKinds(ic.effects) == 1 && ic.impossibleKey.Some?)
      ensures Valid() && OnSite() && fresh(icState) && entry == None && this.ic == ic
    {
      this.ic, this.fused, this.baseOpcode := ic, fused, baseOpcode;
      cachedIcKey := if ic.impossibleKey.Some? then ic.impossibleKey.value else junk;
      effectKind := NO_ENTRY;
      icState := new Byte[MaxStateSize(ic.effects)];
      opcode := baseOpcode;
      entry, entryLive := None, [];
    }

    /** Runs the effect wrapper of a kind on the stored state. */
    method CallEffectMain(kind: nat, i: Input) returns (r: nat)
      requires Valid() && Takes(ic, i) && entry.Some?
      requires forall sp :: sp in ic.effects[entry.value.effect].specs ==> sp.slot < |entry.value.capture|
      requires kind == KindOf(ic, entry.value)
      ensures r == Answer(ic, entry.value, i)
    {
      hide Code, Options, StartOrdinal, PackedState, MaxStateSize, WithFresh;
      KindNames(ic, entry.value, entryLive);
      var ord := EffectOf(ic.effects, kind);
      var e := ic.effects[ord];
      var ai := new nat[|e.slots|];
      RebuildCapture(e, kind - StartOrdinal(ic.effects, ord), icState[..], i.live, ai, entry.value.capture, entryLive);
      r := e.run(ai[..]);
    }

    lemma KindInRange()
      requires Valid() && !CanElideEffectKind()
      ensures effectKind == NO_ENTRY || effectKind < Total()
      ensures entry.Some? ==> effectKind == KindIn(ic, entry.value) < Total() < NO_ENTRY
      ensures entry.None? ==> effectKind == NO_ENTRY
    {
      if entry.Some? {
        KindNames(ic, entry.value, entryLive);
      }
    }

    /** Writes the effect kind, and adjusts the opcode if the kind is fused into it. */
    method UpdateKind(kind: nat)
      requires Supported() && kind < Total() && !CanElideEffectKind()
      requires fused ==> opcode == OpcodeOf(baseOpcode, effectKind)
      requires effectKind == NO_ENTRY || effectKind < Total()
      modifies this`effectKind, this`opcode
      ensures effectKind == kind
      ensures fused ==> (OnSite() <==> old(effectKind) < 128 || old(effectKind) == NO_ENTRY)
      ensures fused && OnSite() ==> opcode == OpcodeOf(baseOpcode, kind)
    {
      var oldEffectKind := effectKind;
      effectKind := kind;
      if fused {
        OpcodeTracksKind(baseOpcode, oldEffectKind, kind);
        if 128 <= oldEffectKind < Total() {
          OpcodeLost(baseOpcode, oldEffectKind, kind, Total());
        }
        opcode := AdjustOpcode(opcode, oldEffectKind, kind);
      }
    }

    /** Overwrites the entry: key, effect kind, opcode if it is fused, and state. */
    method UpdateEntry(key: nat, effect: nat, capture: seq<nat>, ghost live: seq<nat>)
      requires Valid() && OnSite() && IsEntry(ic, Entry(key, effect, capture), live)
      modifies this, icState
      ensures Valid() && entry == Some(Entry(key, effect, capture))
      ensures OnSite() <==> !fused || old(entry).None? || KindIn(ic, old(entry).value) < 128
    {
      hide KindOf, KindIn, OpcodeOf, PackedState, MaxStateSize, IsCapture, ValidIc;
      ghost var en := Entry(key, effect, capture);
      KindNames(ic, en, live);
      CaptureSize(ic.effects[effect], capture, live);
      if !CanElideEffectKind() {
        KindInRange();
      }
      cachedIcKey := key;
      if !CanElideEffectKind() {
        var kind := EffectOrdinalOf(key, effect, capture, live);
        UpdateKind(kind);
      }
      StateFits(ic.effects[effect], capture, icState.Length);
      EncodeState(ic.effects[effect], capture, icState);
      assert PackedState(ic.effects[effect], capture) <= icState[..];
      entry, entryLive := Some(en), live;
    }

    method EffectOrdinalOf(ghost key: nat, effect: nat, capture: seq<nat>, ghost live: seq<nat>) returns (kind: nat)
      requires ValidIc(ic) && effect < |ic.effects| && IsCapture(ic.effects[effect], capture, live)
      ensures forall sp :: sp in ic.effects[effect].specs ==> sp.slot < |capture|
      ensures kind == KindOf(ic, Entry(key, effect, capture)) < 250
    {
      ghost var n := NumSpecializations(ic.effects[effect].specs);
      CodeKnown(ic.effects[effect], capture, live);
      OrdinalsDisjoint(ic.effects, effect, n - 1, effect, n - 1);
      kind := EffectOrdinal(ic.effects[effect].specs, capture, StartOrdinal(ic.effects, effect));
    }

    /** The slow path: the body, with the cache update in front of each effect call. */
    method RunBody(i: Input) returns (r: nat)
      requires Valid() && OnSite() && Takes(ic, i)
      modifies this, icState
      ensures Valid() && r == Trivial(ic, i)
      ensures entry == if Cacheable(ic.body(i)) then Some(EntryOf(i, ic.body(i))) else old(entry)
      ensures var out := ic.body(i);
              if out.CallEffect? && out.cacheable then entry == Some(Entry(i.key, out.effect, out.capture))
              else entry == old(entry) && entryLive == old(entryLive) && opcode == old(opcode)
      ensures OnSite() <==>
        !fused || !Cacheable(ic.body(i)) || old(entry).None? || KindIn(ic, old(entry).value) < 128
    {
      hide IsCapture, HoldsEntry, MaxStateSize, KindIn;
      assert IsOutcome(ic, i, ic.body(i));
      match ic.body(i) {
        case Return(v) =>
          r := v;
        case CallEffect(effect, capture, isCacheable) =>
          if isCacheable {
            UpdateEntry(i.key, effect, capture, i.live);
          }
          r := ic.effects[effect].run(capture);
      }
    }

    /** One execution of the bytecode: right in any case, and after it the interpreter still comes here
        unless an entry of kind 128 or more was replaced. */
    method Execute(i: Input) returns (r: nat)
      requires Valid() && OnSite() && Takes(ic, i)
      modifies this, icState
      ensures Valid() && (r, entry) == StepOne(ic, old(entry), i)
      ensures ic.body(i).CallEffect? && !ic.body(i).cacheable ==> entry == old(entry)
      ensures ic.body(i).Return? ==> entry == old(entry)
      ensures OnSite() <==> (fused ==> KeepsOpcode(ic, old(entry), i))
    {
      hide Answer, Trivial, MaxStateSize, Code, Options, StartOrdinal, PackedState, IsCapture, KindIn;
      if entry.Some? {
        KindNames(ic, entry.value, entryLive);
      }
      if fused && opcode == baseOpcode {
        // the implementation for an empty cache: its hit check is constantly false
        r := RunBody(i);
      } else if cachedIcKey != i.key {
        r := RunBody(i);
      } else if CanElideEffectKind() {
        ElidedKind();
        r := CallEffectMain(0, i);
      } else {
        // a fused implementation knows its effect kind
        var kind := if fused then opcode - baseOpcode - 1 else effectKind;
        if kind < Total() {
          r := CallEffectMain(kind, i);
        } else {
          // the default case of the switch, unreachable when an impossible key is declared
          assert ic.impossibleKey.None?;
          r := RunBody(i);
        }
      }
    }

    lemma ElidedKind()
      requires Valid() && CanElideEffectKind() && entry.Some?
      ensures forall sp :: sp in ic.effects[entry.value.effect].specs ==> sp.slot < |entry.value.capture|
      ensures KindOf(ic, entry.value) == 0
    {
      KindNames(ic, entry.value, entryLive);
    }

    /** With at most 128 effect kinds the opcode is never lost. */
    lemma FewKinds(i: Input)
      requires Valid() && (fused ==> Total() <= 128)
      ensures fused ==> KeepsOpcode(ic, entry, i)
    {
      hide KindIn;
      if fused {
        KindInRange();
      }
    }

    /** What is known of the results of a run from an empty cache. */
    lemma RunLaws(inputs: seq<Input>, n: nat)
      requires ValidIc(ic) && TakesAll(ic, inputs) && n <= |inputs|
      ensures Contract(ic) || Promise(ic) ==> RunOne(ic, None, inputs[..n]) == TrivialRun(ic, inputs[..n])
      ensures NeverCaches(ic, inputs) ==> RunKeepsOpcode(ic, None, inputs)
      ensures NeverCaches(ic, inputs) && n == |inputs| ==> RunOne(ic, None, inputs[..n]) == TrivialRun(ic, inputs)
      ensures NeverCaches(ic, inputs) && inputs != [] ==> StepOne(ic, None, inputs[0]).1 == None
    {
      hide Contract, Promise, ValidIc;
      if Promise(ic) {
        PromiseKeepsContract(ic);
      }
      if Contract(ic) {
        OneRefines(ic, None, inputs[..n]);
      }
      if NeverCaches(ic, inputs) {
        NeverCachesOne(ic, inputs);
        KeepsWithoutCaching(ic, inputs);
        assert inputs[..|inputs|] == inputs;
      }
    }

    /** A run of executions, as long as the interpreter comes here.  The whole run is executed exactly
        when the opcode is kept, in particular with at most 128 effect kinds or without fusing.  If the
        user's promise is kept, the results are those of running the body every time; so they are,
        without any promise, and with the cache empty throughout, if no execution is cacheable. */
    method ExecuteAll(inputs: seq<Input>) returns (results: seq<nat>)
      requires Valid() && OnSite() && TakesAll(ic, inputs)
      modifies this, icState
      ensures Valid() && |results| <= |inputs| && results == RunOne(ic, old(entry), inputs[..|results|])
      ensures |results| == |inputs| <==> (fused ==> RunKeepsOpcode(ic, old(entry), inputs))
      ensures !fused || Total() <= 128 ==> |results| == |inputs|
      ensures old(entry) == None && Contract(ic) ==> results == TrivialRun(ic, inputs[..|results|])
      ensures old(entry) == None && Promise(ic) ==> results == TrivialRun(ic, inputs[..|results|])
      ensures old(entry) == None && NeverCaches(ic, inputs) ==> results == TrivialRun(ic, inputs) && entry == None
      decreases |inputs|
    {
      hide Contract, Promise, StepOne, KeepsOpcode, HoldsEntry, HoldsNothing, ValidIc;
      ghost var was := entry;
      assert ValidIc(ic);
      hide Valid;
      if inputs == [] {
        results := [];
      } else {
        if fused && Total() <= 128 {
          FewKinds(inputs[0]);
        }
        var r := Execute(inputs[0]);
        results := [r];
        if OnSite() {
          var rest := ExecuteAll(inputs[1..]);
          results := [r] + rest;
          assert inputs[..|results|][1..] == inputs[1..][..|rest|];
        } else {
          assert inputs[..1][1..] == [];
        }
      }
      if was == None {
        RunLaws(inputs, |results|);
      }
    }
  }
}
