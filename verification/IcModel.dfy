/** The meaning of an inline cache, without any caching code: what its body computes, what a cache
    entry would answer, and the promise its user makes.

    Running the body every time is the specification.  Both cache policies of the repository - one
    entry that is overwritten, and a growing list of entries - return the same results over every
    run exactly when every hit is right, and the user's promise makes every hit right. */
module IcModel {
  import opened IcEffects
  import opened Wrappers

  /** One execution: the key, the values captured in the main function, and everything else the
      body may look at. */
  datatype Input = Input(key: nat, live: seq<nat>, world: nat)

  /** The body either returns, or calls one of its effects on a capture struct; before the call it
      may have declared the execution uncacheable. */
  datatype Outcome = Return(value: nat) | CallEffect(effect: nat, capture: seq<nat>, cacheable: bool)

  datatype Ic = Ic(effects: seq<Effect>, body: Input -> Outcome, numLive: nat, impossibleKey: Option<nat>)

  datatype Entry = Entry(key: nat, effect: nat, capture: seq<nat>)

  ghost predicate ValidIc(ic: Ic) {
    && (forall e :: 0 <= e < |ic.effects| ==> ValidEffect(ic.effects[e]))
    && 0 < TotalEffectKinds(ic.effects) < 250
    && (forall i :: Takes(ic, i) ==> IsOutcome(ic, i, ic.body(i)))
  }

  /** Executions the site is used for: the declared impossible key never occurs. */
  predicate Takes(ic: Ic, i: Input) {
    |i.live| == ic.numLive && Some(i.key) != ic.impossibleKey
  }

  predicate IsOutcome(ic: Ic, i: Input, out: Outcome) {
    out.CallEffect? ==> out.effect < |ic.effects| && IsCapture(ic.effects[out.effect], out.capture, i.live)
  }

  // ---- results ----

  function RunEffect(ic: Ic, effect: nat, capture: seq<nat>): nat {
    if effect < |ic.effects| then ic.effects[effect].run(capture) else 0
  }

  /** `DoTrivialLowering`: run the body, which runs the effect. */
  function Trivial(ic: Ic, i: Input): nat {
    match ic.body(i)
    case Return(v) => v
    case CallEffect(e, capture, _) => RunEffect(ic, e, capture)
  }

  /** What an entry answers in an execution: its effect on its captures, the fresh ones renewed. */
  function Answer(ic: Ic, en: Entry, i: Input): nat {
    if en.effect < |ic.effects| && |en.capture| == |ic.effects[en.effect].slots|
    then RunEffect(ic, en.effect, WithFresh(ic.effects[en.effect], en.capture, i.live))
    else 0
  }

  predicate Cacheable(out: Outcome) {
    out.CallEffect? && out.cacheable
  }

  function EntryOf(i: Input, out: Outcome): Entry
    requires out.CallEffect?
  {
    Entry(i.key, out.effect, out.capture)
  }

  /** The promise of the cache's user: once an execution was cacheable, every execution with its key
      calls the same effect, with the same values in the captures that the body computes.  Captures of
      the main function may differ from execution to execution. */
  ghost predicate Promise(ic: Ic) {
    forall i, j :: Takes(ic, i) && Takes(ic, j) && i.key == j.key && Cacheable(ic.body(i)) ==>
      SameConstants(ic, ic.body(i), ic.body(j))
  }

  predicate SameConstants(ic: Ic, a: Outcome, b: Outcome) {
    && a.CallEffect? && b.CallEffect? && a.effect == b.effect && a.effect < |ic.effects|
    && var slots := ic.effects[a.effect].slots;
       && |a.capture| == |b.capture| == |slots|
       && forall s :: 0 <= s < |slots| && slots[s].FromBody? ==> a.capture[s] == b.capture[s]
  }

  /** What a hit needs to be right: an execution with the same key returns what the entry answers. */
  ghost predicate Contract(ic: Ic) {
    forall i, j :: Takes(ic, i) && Takes(ic, j) && i.key == j.key && Cacheable(ic.body(i)) ==>
      Trivial(ic, j) == Answer(ic, EntryOf(i, ic.body(i)), j)
  }

  /** Constants of a key and fresh values together are the capture struct the body would build. */
  lemma FreshIsRebuilt(e: Effect, stored: seq<nat>, live0: seq<nat>, capture: seq<nat>, live: seq<nat>)
    requires IsCapture(e, stored, live0) && IsCapture(e, capture, live)
    requires forall s :: 0 <= s < |e.slots| && e.slots[s].FromBody? ==> stored[s] == capture[s]
    ensures WithFresh(e, stored, live) == capture
  {
    WithOwnFresh(e, capture, live);
    forall s | 0 <= s < |e.slots| ensures WithFresh(e, stored, live)[s] == WithFresh(e, capture, live)[s] {
      assert SlotHolds(e.slots[s], capture[s], live);
    }
  }

  /** A kept promise makes every hit right. */
  lemma PromiseKeepsContract(ic: Ic)
    requires ValidIc(ic) && Promise(ic)
    ensures Contract(ic)
  {
    hide WithFresh, IsCapture;
    forall i, j | Takes(ic, i) && Takes(ic, j) && i.key == j.key && Cacheable(ic.body(i))
      ensures Trivial(ic, j) == Answer(ic, EntryOf(i, ic.body(i)), j)
    {
      var a, b := ic.body(i), ic.body(j);
      assert SameConstants(ic, a, b) && IsOutcome(ic, i, a) && IsOutcome(ic, j, b);
      FreshIsRebuilt(ic.effects[a.effect], a.capture, i.live, b.capture, j.live);
    }
  }

  /** The result tells which effect was called on which captures, or that none was. */
  ghost predicate Telling(ic: Ic) {
    && (forall e: nat, f: nat, c, d :: IsCall(ic, e, c) && IsCall(ic, f, d) && RunEffect(ic, e, c) == RunEffect(ic, f, d) ==>
          e == f && c == d)
    && (forall i, e: nat, c :: Takes(ic, i) && ic.body(i).Return? && IsCall(ic, e, c) ==> ic.body(i).value != RunEffect(ic, e, c))
  }

  predicate IsCall(ic: Ic, e: nat, capture: seq<nat>) {
    e < |ic.effects| && |capture| == |ic.effects[e].slots|
  }

  /** Where results tell the calls apart, nothing less than the promise makes every hit right. */
  lemma TellingNeedsPromise(ic: Ic)
    requires ValidIc(ic) && Telling(ic)
    ensures Contract(ic) <==> Promise(ic)
  {
    if Promise(ic) {
      PromiseKeepsContract(ic);
    }
    if Contract(ic) {
      forall i, j | Takes(ic, i) && Takes(ic, j) && i.key == j.key && Cacheable(ic.body(i))
        ensures SameConstants(ic, ic.body(i), ic.body(j))
      {
        HitTells(ic, i, j);
      }
    }
  }

  lemma HitTells(ic: Ic, i: Input, j: Input)
    requires ValidIc(ic) && Telling(ic) && Takes(ic, i) && Takes(ic, j) && Cacheable(ic.body(i))
    requires Trivial(ic, j) == Answer(ic, EntryOf(i, ic.body(i)), j)
    ensures SameConstants(ic, ic.body(i), ic.body(j))
  {
    hide RunEffect, CapturePromised, SlotHolds;
    var a, b := ic.body(i), ic.body(j);
    assert IsOutcome(ic, i, a) && IsOutcome(ic, j, b);
    var rebuilt := WithFresh(ic.effects[a.effect], a.capture, j.live);
    assert IsCall(ic, a.effect, rebuilt);
    if b.CallEffect? {
      assert IsCall(ic, b.effect, b.capture);
      assert b.effect == a.effect && b.capture == rebuilt;
    }
  }

  // ---- entries and effect kinds ----

  function KindOf(ic: Ic, en: Entry): nat
    requires en.effect < |ic.effects|
    requires forall sp :: sp in ic.effects[en.effect].specs ==> sp.slot < |en.capture|
  {
    StartOrdinal(ic.effects, en.effect)
    + Code(ic.effects[en.effect].specs, Options(ic.effects[en.effect].specs, en.capture))
  }

  ghost predicate IsEntry(ic: Ic, en: Entry, live: seq<nat>) {
    && |live| == ic.numLive && Some(en.key) != ic.impossibleKey
    && en.effect < |ic.effects| && IsCapture(ic.effects[en.effect], en.capture, live)
  }

  /** The kind names the entry's effect and its specialisation. */
  lemma KindNames(ic: Ic, en: Entry, live: seq<nat>)
    requires ValidIc(ic) && IsEntry(ic, en, live)
    ensures forall sp :: sp in ic.effects[en.effect].specs ==> sp.slot < |en.capture|
    ensures KindOf(ic, en) < TotalEffectKinds(ic.effects) && EffectOf(ic.effects, KindOf(ic, en)) == en.effect
  {
    var e := ic.effects[en.effect];
    CodeKnown(e, en.capture, live);
    var c := Code(e.specs, Options(e.specs, en.capture));
    OrdinalsDisjoint(ic.effects, en.effect, c, en.effect, c);
    var f := EffectOf(ic.effects, KindOf(ic, en));
    OrdinalsDisjoint(ic.effects, en.effect, c, f, KindOf(ic, en) - StartOrdinal(ic.effects, f));
  }

  // ---- the two policies ----

  /** One entry: a miss that reaches a cacheable effect overwrites it. */
  function StepOne(ic: Ic, cached: Option<Entry>, i: Input): (nat, Option<Entry>) {
    if cached.Some? && cached.value.key == i.key then (Answer(ic, cached.value, i), cached)
    else (Trivial(ic, i), if Cacheable(ic.body(i)) then Some(EntryOf(i, ic.body(i))) else cached)
  }

  function Lookup(entries: seq<Entry>, key: nat): Option<Entry> {
    if entries == [] then None
    else if entries[0].key == key then Some(entries[0])
    else Lookup(entries[1..], key)
  }

  /** A list of entries: a miss that reaches a cacheable effect adds one while there is room; `pos`
      is where it goes. */
  function StepMany(ic: Ic, entries: seq<Entry>, max: nat, pos: nat, i: Input): (nat, seq<Entry>)
    requires pos <= |entries|
  {
    var found := Lookup(entries, i.key);
    if found.Some? then (Answer(ic, found.value, i), entries)
    else
      (Trivial(ic, i),
       if Cacheable(ic.body(i)) && |entries| < max
       then entries[..pos] + [EntryOf(i, ic.body(i))] + entries[pos..] else entries)
  }

  function TrivialRun(ic: Ic, inputs: seq<Input>): seq<nat> {
    if inputs == [] then [] else [Trivial(ic, inputs[0])] + TrivialRun(ic, inputs[1..])
  }

  function RunOne(ic: Ic, cached: Option<Entry>, inputs: seq<Input>): seq<nat>
    decreases |inputs|
  {
    if inputs == [] then []
    else
      var (r, cached') := StepOne(ic, cached, inputs[0]);
      [r] + RunOne(ic, cached', inputs[1..])
  }

  /** `positions` says where each new entry goes; the results will not depend on it. */
  function RunMany(ic: Ic, entries: seq<Entry>, max: nat, positions: seq<nat>, inputs: seq<Input>): seq<nat>
    requires |positions| == |inputs|
    decreases |inputs|
  {
    if inputs == [] then []
    else
      var pos := if positions[0] <= |entries| then positions[0] else 0;
      var (r, entries') := StepMany(ic, entries, max, pos, inputs[0]);
      [r] + RunMany(ic, entries', max, positions[1..], inputs[1..])
  }

  predicate TakesAll(ic: Ic, inputs: seq<Input>) {
    forall k :: 0 <= k < |inputs| ==> Takes(ic, inputs[k])
  }

  // ---- entries stem from executions ----

  ghost predicate Stems(ic: Ic, en: Entry) {
    exists i :: Takes(ic, i) && Cacheable(ic.body(i)) && en == EntryOf(i, ic.body(i))
  }

  lemma EntryStems(ic: Ic, i: Input)
    requires Takes(ic, i) && Cacheable(ic.body(i))
    ensures Stems(ic, EntryOf(i, ic.body(i)))
  {
  }

  lemma AnswerIsTrivial(ic: Ic, en: Entry, j: Input)
    requires Contract(ic) && Stems(ic, en) && Takes(ic, j) && en.key == j.key
    ensures Answer(ic, en, j) == Trivial(ic, j)
  {
    var i :| Takes(ic, i) && Cacheable(ic.body(i)) && en == EntryOf(i, ic.body(i));
  }

  lemma {:induction false} LookupFinds(entries: seq<Entry>, key: nat)
    ensures Lookup(entries, key).Some? ==> Lookup(entries, key).value in entries && Lookup(entries, key).value.key == key
    ensures Lookup(entries, key).None? <==> forall k :: 0 <= k < |entries| ==> entries[k].key != key
  {
    if entries != [] && entries[0].key != key {
      LookupFinds(entries[1..], key);
      assert forall k :: 0 < k < |entries| ==> entries[k] == entries[1..][k - 1];
    }
  }

  // ---- refinement over all runs ----

  lemma {:induction false} OneRefines(ic: Ic, cached: Option<Entry>, inputs: seq<Input>)
    requires Contract(ic) && TakesAll(ic, inputs) && (cached.Some? ==> Stems(ic, cached.value))
    ensures RunOne(ic, cached, inputs) == TrivialRun(ic, inputs)
    decreases |inputs|
  {
    hide Contract, Answer, Stems, Trivial;
    if inputs != [] {
      var i := inputs[0];
      if cached.Some? && cached.value.key == i.key {
        AnswerIsTrivial(ic, cached.value, i);
      } else if Cacheable(ic.body(i)) {
        EntryStems(ic, i);
      }
      OneRefines(ic, StepOne(ic, cached, i).1, inputs[1..]);
    }
  }

  ghost predicate AllStem(ic: Ic, entries: seq<Entry>) {
    forall k :: 0 <= k < |entries| ==> Stems(ic, entries[k])
  }

  lemma {:induction false} ManyRefines(ic: Ic, entries: seq<Entry>, max: nat, positions: seq<nat>, inputs: seq<Input>)
    requires Contract(ic) && TakesAll(ic, inputs) && AllStem(ic, entries) && |positions| == |inputs|
    ensures RunMany(ic, entries, max, positions, inputs) == TrivialRun(ic, inputs)
    decreases |inputs|
  {
    hide Contract, Answer, Stems, Trivial, Lookup;
    if inputs != [] {
      var i := inputs[0];
      var pos := if positions[0] <= |entries| then positions[0] else 0;
      LookupFinds(entries, i.key);
      if Lookup(entries, i.key).Some? {
        AnswerIsTrivial(ic, Lookup(entries, i.key).value, i);
      } else if Cacheable(ic.body(i)) {
        EntryStems(ic, i);
      }
      ManyRefines(ic, StepMany(ic, entries, max, pos, i).1, max, positions[1..], inputs[1..]);
    }
  }

  /** The one-entry cache is right in every run, from an empty cache, exactly when every hit is: two
      executions with one key already show a wrong one. */
  lemma OneRefinesIffContract(ic: Ic)
    ensures Contract(ic) <==> forall inputs :: TakesAll(ic, inputs) ==> RunOne(ic, None, inputs) == TrivialRun(ic, inputs)
  {
    hide Contract, Answer, Trivial;
    if Contract(ic) {
      forall inputs | TakesAll(ic, inputs) ensures RunOne(ic, None, inputs) == TrivialRun(ic, inputs) {
        OneRefines(ic, None, inputs);
      }
    }
    if forall inputs :: TakesAll(ic, inputs) ==> RunOne(ic, None, inputs) == TrivialRun(ic, inputs) {
      forall i, j | Takes(ic, i) && Takes(ic, j) && i.key == j.key && Cacheable(ic.body(i))
        ensures Trivial(ic, j) == Answer(ic, EntryOf(i, ic.body(i)), j)
      {
        assert TakesAll(ic, [i, j]);
        SecondOne(ic, i, j);
      }
      ContractHolds(ic);
    }
  }

  // ---- runs without caching ----

  /** No execution of the run calls an effect without having declared itself uncacheable. */
  predicate NeverCaches(ic: Ic, inputs: seq<Input>) {
    forall k :: 0 <= k < |inputs| ==> ic.body(inputs[k]).CallEffect? ==> !ic.body(inputs[k]).cacheable
  }

  /** Such a run is right without any promise, and leaves the cache empty: every execution runs its
      body. */
  lemma {:induction false} NeverCachesOne(ic: Ic, inputs: seq<Input>)
    requires NeverCaches(ic, inputs)
    ensures RunOne(ic, None, inputs) == TrivialRun(ic, inputs)
    ensures inputs != [] ==> StepOne(ic, None, inputs[0]) == (Trivial(ic, inputs[0]), None)
    decreases |inputs|
  {
    hide Answer, Trivial;
    if inputs != [] {
      NeverCachesOne(ic, inputs[1..]);
    }
  }

  lemma {:induction false} NeverCachesMany(ic: Ic, max: nat, positions: seq<nat>, inputs: seq<Input>)
    requires NeverCaches(ic, inputs) && |positions| == |inputs|
    ensures RunMany(ic, [], max, positions, inputs) == TrivialRun(ic, inputs)
    ensures inputs != [] ==> StepMany(ic, [], max, 0, inputs[0]) == (Trivial(ic, inputs[0]), [])
    decreases |inputs|
  {
    hide Answer, Trivial;
    if inputs != [] {
      NeverCachesMany(ic, max, positions[1..], inputs[1..]);
    }
  }

  lemma ContractHolds(ic: Ic)
    requires forall i, j :: Takes(ic, i) && Takes(ic, j) && i.key == j.key && Cacheable(ic.body(i)) ==>
               Trivial(ic, j) == Answer(ic, EntryOf(i, ic.body(i)), j)
    ensures Contract(ic)
  {
  }

  lemma SecondOne(ic: Ic, i: Input, j: Input)
    requires i.key == j.key && Cacheable(ic.body(i))
    ensures RunOne(ic, None, [i, j])[1..] == [Answer(ic, EntryOf(i, ic.body(i)), j)]
    ensures TrivialRun(ic, [i, j])[1..] == [Trivial(ic, j)]
  {
    hide Answer, Trivial;
    var en := Some(EntryOf(i, ic.body(i)));
    assert [i, j][1..] == [j] && [j][1..] == [];
    assert RunOne(ic, en, [j]) == [Answer(ic, en.value, j)];
    assert TrivialRun(ic, [j]) == [Trivial(ic, j)];
  }

  lemma SecondMany(ic: Ic, max: nat, i: Input, j: Input)
    requires i.key == j.key && Cacheable(ic.body(i)) && max > 0
    ensures RunMany(ic, [], max, [0, 0], [i, j])[1..] == [Answer(ic, EntryOf(i, ic.body(i)), j)]
  {
    hide Answer, Trivial;
    var en := EntryOf(i, ic.body(i));
    assert [i, j][1..] == [j] && [j][1..] == [] && [0, 0][1..] == [0];
    assert [en] == [][..0] + [en] + [][0..];
    assert RunMany(ic, [en], max, [0], [j]) == [Answer(ic, en, j)];
  }

  /** The same for the list of entries, wherever new entries are put and whatever its capacity. */
  lemma ManyRefinesIffContract(ic: Ic, max: nat)
    requires max > 0
    ensures Contract(ic) <==> forall positions, inputs :: |positions| == |inputs| && TakesAll(ic, inputs) ==>
              RunMany(ic, [], max, positions, inputs) == TrivialRun(ic, inputs)
  {
    hide Contract, Answer, Trivial;
    if Contract(ic) {
      forall positions, inputs | |positions| == |inputs| && TakesAll(ic, inputs)
        ensures RunMany(ic, [], max, positions, inputs) == TrivialRun(ic, inputs)
      {
        ManyRefines(ic, [], max, positions, inputs);
      }
    }
    if forall positions, inputs :: |positions| == |inputs| && TakesAll(ic, inputs) ==>
         RunMany(ic, [], max, positions, inputs) == TrivialRun(ic, inputs)
    {
      forall i, j | Takes(ic, i) && Takes(ic, j) && i.key == j.key && Cacheable(ic.body(i))
        ensures Trivial(ic, j) == Answer(ic, EntryOf(i, ic.body(i)), j)
      {
        assert TakesAll(ic, [i, j]) && |[0, 0]| == |[i, j]|;
        SecondMany(ic, max, i, j);
        SecondOne(ic, i, j);
      }
      ContractHolds(ic);
    }
  }
}
