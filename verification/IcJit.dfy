/** The JIT's inline cache: a self-modifying region in the fast path, an optional inline slab that
    may overwrite it, and outlined stubs, each jumping to the next when its key does not match.

    Every execution behaves like one step of the many-entry policy of `IcModel`: the chain of
    jumps is the slab, the stubs from newest to oldest, and the miss path. */
module IcJit {
  import opened XxhWords
  import opened IcEffects
  import opened IcModel

  const MAX_ENTRIES: nat := 5

  // ---- patchable jumps ----

  function SignExtend32(v: Word32): int {
    if v < 0x8000_0000 then v else v - 0x1_0000_0000
  }

  /** Destination of a jump whose last byte is before `end` and whose operand is `rel`. */
  function GetDest(end: Word64, rel: Word32): Word64 {
    Trunc64(end + SignExtend32(rel))
  }

  function Displacement(end: Word64, dest: Word64): Word32 {
    Trunc32(Sub64(dest, end))
  }

  /** The signed distance fits 32 bits. */
  predicate InRange(end: Word64, dest: Word64) {
    Trunc64(dest - end + 0x8000_0000) < 0x1_0000_0000
  }

  /** A patched jump reaches its destination exactly when the distance fits. */
  lemma PatchedJump(end: Word64, dest: Word64)
    ensures GetDest(end, Displacement(end, dest)) == dest <==> InRange(end, dest)
  {
    var d := Trunc64(dest - end);
    Distance(end, dest, d);
    LowHalf(end, d);
  }

  lemma Distance(end: Word64, dest: Word64, d: Word64)
    requires d == Trunc64(dest - end)
    ensures dest == Trunc64(end + d) && (InRange(end, dest) <==> Trunc64(d + 0x8000_0000) < 0x1_0000_0000)
  {
  }

  lemma LowHalf(end: Word64, d: Word64)
    ensures Trunc64(end + SignExtend32(Trunc32(d))) == Trunc64(end + d) <==> Trunc64(d + 0x8000_0000) < 0x1_0000_0000
  {
    var v := Trunc32(d);
    SameWord(end, SignExtend32(v), d);
    NearZero(d, v);
  }

  lemma SameWord(end: Word64, a: int, b: int)
    ensures Trunc64(end + a) == Trunc64(end + b) <==> Trunc64(b - a) == 0
  {
  }

  lemma NearZero(d: Word64, v: Word32)
    requires v == Trunc32(d)
    ensures Trunc64(d - SignExtend32(v)) == 0 <==> Trunc64(d + 0x8000_0000) < 0x1_0000_0000
  {
    var q := d / 0x1_0000_0000;
    assert d == q * 0x1_0000_0000 + v;
  }

  // ---- generated code ----

  /** One cached effect as code: the key compared, the effect and specialisation run, and the
      constants it runs with. */
  datatype Case = Case(key: nat, effect: nat, ordinal: nat, values: seq<nat>)

  datatype Stub = Stub(case_: Case, missDest: Word64)

  /** The self-modifying region: a jump, or the inline slab with its own jump. */
  datatype SmcRegion = Jump(rel: Word32) | Slab(case_: Case, rel: Word32)

  /** One node of the site's list of stubs. */
  datatype Node = Node(traitKind: nat, jitAddr: Word64)

  ghost predicate KnownEntry(ic: Ic, en: Entry) {
    exists live :: IsEntry(ic, en, live)
  }

  ghost predicate Holds(ic: Ic, c: Case, en: Entry) {
    && KnownEntry(ic, en) && en.effect < |ic.effects| && |en.capture| == |ic.effects[en.effect].slots|
    && (forall sp :: sp in ic.effects[en.effect].specs ==> sp.slot < |en.capture|)
    && c.key == en.key && c.effect == en.effect
    && c.ordinal == Code(ic.effects[en.effect].specs, Options(ic.effects[en.effect].specs, en.capture))
    && c.values == StoredValues(ic.effects[en.effect], en.capture)
  }

  /** From `dest` on, the stubs at `addrs` hold `entries`, and the last one leads to `miss`. */
  ghost predicate Chain(ic: Ic, code: map<Word64, Stub>, miss: Word64, dest: Word64, addrs: seq<Word64>, entries: seq<Entry>)
    decreases |addrs|
  {
    && |addrs| == |entries|
    && if addrs == [] then dest == miss
       else
         && dest == addrs[0] && dest in code && dest != miss
         && Holds(ic, code[dest].case_, entries[0])
         && Chain(ic, code, miss, code[dest].missDest, addrs[1..], entries[1..])
  }

  lemma {:induction false} ChainKept(ic: Ic, code: map<Word64, Stub>, miss: Word64, dest: Word64, addrs: seq<Word64>,
                                     entries: seq<Entry>, a: Word64, stub: Stub)
    requires Chain(ic, code, miss, dest, addrs, entries) && a !in code
    ensures Chain(ic, code[a := stub], miss, dest, addrs, entries)
    decreases |addrs|
  {
    hide Holds;
    if addrs != [] {
      ChainKept(ic, code, miss, code[dest].missDest, addrs[1..], entries[1..], a, stub);
    }
  }

  predicate DistinctKeys(entries: seq<Entry>) {
    forall i, j :: 0 <= i < j < |entries| ==> entries[i].key != entries[j].key
  }

  predicate Distinct(addrs: seq<Word64>) {
    forall i, j :: 0 <= i < j < |addrs| ==> addrs[i] != addrs[j]
  }

  function Addresses(list: seq<Node>): (addrs: seq<Word64>)
    ensures |addrs| == |list|
  {
    seq(|list|, i requires 0 <= i < |list| => list[i].jitAddr)
  }

  /** The stubs exist in memory, in list order, and nothing else does. */
  ghost predicate StubsIn(ic: Ic, code: map<Word64, Stub>, miss: Word64, dest: Word64, list: seq<Node>, entries: seq<Entry>) {
    && Chain(ic, code, miss, dest, Addresses(list), entries)
    && Distinct(Addresses(list)) && miss !in code
    && (forall a: Word64 :: a in code <==> a in Addresses(list))
  }

  lemma StubAdded(ic: Ic, code: map<Word64, Stub>, miss: Word64, dest: Word64, list: seq<Node>, entries: seq<Entry>,
                  node: Node, stub: Stub, en: Entry)
    requires StubsIn(ic, code, miss, dest, list, entries)
    requires node.jitAddr !in code && node.jitAddr != miss && stub.missDest == dest && Holds(ic, stub.case_, en)
    ensures StubsIn(ic, code[node.jitAddr := stub], miss, node.jitAddr, [node] + list, [en] + entries)
  {
    hide Holds;
    var addrs := Addresses(list);
    ChainKept(ic, code, miss, dest, addrs, entries, node.jitAddr, stub);
    assert Addresses([node] + list) == [node.jitAddr] + addrs;
    assert ([node.jitAddr] + addrs)[1..] == addrs && ([en] + entries)[1..] == entries;
  }

  /** The first stub, or the miss path, is where the chain starts. */
  lemma ChainStart(ic: Ic, code: map<Word64, Stub>, miss: Word64, dest: Word64, list: seq<Node>, entries: seq<Entry>)
    requires StubsIn(ic, code, miss, dest, list, entries)
    ensures |list| == |entries| && (dest == miss || dest in code)
  {
    hide Holds;
  }

  class Site {
    const ic: Ic
    const smcJumpEnd: Word64
    const slabJumpEnd: Word64
    const missPath: Word64
    const hasInlineSlab: bool
    /** The effect kinds whose code fits the inline slab. */
    const slabKinds: set<nat>

    var smc: SmcRegion
    var code: map<Word64, Stub>
    var linkedList: seq<Node>
    var numEntries: nat
    var isInlineSlabUsed: nat

    /** The entries of the stubs, newest first, and of the slab. */
    ghost var outlined: seq<Entry>
    ghost var inSlab: seq<Entry>

    ghost function Entries(): seq<Entry>
      reads this
    {
      inSlab + outlined
    }

    /** Where execution goes when the slab, if any, does not match. */
    function FirstStub(): Word64
      reads this
    {
      if smc.Jump? then GetDest(smcJumpEnd, smc.rel) else GetDest(slabJumpEnd, smc.rel)
    }

    ghost predicate SlabHolds()
      reads this
    {
      if smc.Jump? then inSlab == [] && isInlineSlabUsed == 0
      else |inSlab| == 1 && Holds(ic, smc.case_, inSlab[0]) && isInlineSlabUsed == 1 && hasInlineSlab
    }

    ghost predicate StubsHold()
      reads this
    {
      && StubsIn(ic, code, missPath, FirstStub(), linkedList, outlined)
      && (forall a: Word64 :: a in code ==> Reachable(a))
    }

    /** Jumps from the fast path reach the address. */
    predicate Reachable(a: Word64) {
      InRange(smcJumpEnd, a) && InRange(slabJumpEnd, a)
    }

    ghost predicate Valid()
      reads this
    {
      && ValidIc(ic) && Reachable(missPath)
      && SlabHolds() && StubsHold()
      && numEntries == |Entries()| <= MAX_ENTRIES
      && DistinctKeys(Entries())
    }

    constructor (ic: Ic, smcJumpEnd: Word64, slabJumpEnd: Word64, missPath: Word64, hasInlineSlab: bool, slabKinds: set<nat>)
      requires ValidIc(ic) && InRange(smcJumpEnd, missPath) && InRange(slabJumpEnd, missPath)
      ensures Valid() && Entries() == [] && this.ic == ic
    {
      hide GetDest, Displacement, InRange, ValidIc;
      this.ic, this.smcJumpEnd, this.slabJumpEnd, this.missPath := ic, smcJumpEnd, slabJumpEnd, missPath;
      this.hasInlineSlab, this.slabKinds := hasInlineSlab, slabKinds;
      smc := Jump(Displacement(smcJumpEnd, missPath));
      code, linkedList, numEntries, isInlineSlabUsed := map[], [], 0, 0;
      outlined, inSlab := [], [];
      new;
      PatchedJump(smcJumpEnd, missPath);
    }

    /** Runs a matching case. */
    method RunCase(c: Case, ghost en: Entry, i: Input) returns (r: nat)
      requires ValidIc(ic) && Holds(ic, c, en) && Takes(ic, i)
      ensures r == Answer(ic, en, i)
    {
      hide Code, Options, StoredValues, WithFresh;
      ghost var live :| IsEntry(ic, en, live);
      var e := ic.effects[c.effect];
      var ai := new nat[|e.slots|];
      RebuildFromConstants(e, c.ordinal, c.values, i.live, ai, en.capture, live);
      r := e.run(ai[..]);
    }

    /** Follows the jumps until a key matches or the miss path is reached. */
    method Dispatch(i: Input) returns (hit: bool, r: nat)
      requires Valid() && Takes(ic, i)
      ensures hit == Lookup(Entries(), i.key).Some?
      ensures hit ==> r == Answer(ic, Lookup(Entries(), i.key).value, i)
    {
      hide Holds, GetDest, InRange, ValidIc, Answer;
      r := 0;
      LookupSplit(inSlab, outlined, i.key);
      if smc.Slab? {
        assert inSlab[1..] == [];
        CaseKey(ic, smc.case_, inSlab[0]);
        if smc.case_.key == i.key {
          r := RunCase(smc.case_, inSlab[0], i);
          return true, r;
        }
      }
      var pc := FirstStub();
      ghost var k := 0;
      ghost var addrs := Addresses(linkedList);
      while pc != missPath
        invariant k <= |addrs| && Chain(ic, code, missPath, pc, addrs[k..], outlined[k..])
        invariant Lookup(Entries(), i.key) == Lookup(outlined[k..], i.key)
        decreases |addrs| - k
      {
        var stub := code[pc];
        assert outlined[k..][1..] == outlined[k + 1..] && addrs[k..][1..] == addrs[k + 1..];
        CaseKey(ic, stub.case_, outlined[k..][0]);
        if stub.case_.key == i.key {
          r := RunCase(stub.case_, outlined[k..][0], i);
          return true, r;
        }
        pc := stub.missDest;
        k := k + 1;
      }
      hit := false;
    }

    /** `CreateJitIcCodegenImplementation` for the inline slab: its jump takes over the destination
        of the jump it overwrites. */
    method PopulateSlab(c: Case, ghost en: Entry)
      requires Valid() && smc.Jump? && hasInlineSlab && Holds(ic, c, en) && numEntries < MAX_ENTRIES
      requires Lookup(Entries(), en.key).None?
      modifies this`smc, this`isInlineSlabUsed, this`numEntries, this`inSlab
      ensures Valid() && old(inSlab) == [] && inSlab == [en] && outlined == old(outlined)
    {
      hide Holds, GetDest, Displacement, InRange, ValidIc, StubsIn, Lookup;
      ghost var was := Entries();
      LookupFinds(was, en.key);
      ChainStart(ic, code, missPath, FirstStub(), linkedList, outlined);
      isInlineSlabUsed := 1;
      numEntries := numEntries + 1;
      var missDest := GetDest(smcJumpEnd, smc.rel);
      PatchedJump(slabJumpEnd, missDest);
      smc := Slab(c, Displacement(slabJumpEnd, missDest));
      inSlab := [en];
      assert Entries() == [en] + was;
    }

    /** `InsertForBaselineJIT` and the code generation for an outlined stub: it takes over the
        destination of the patchable jump, which then leads to the stub. */
    method AddStub(c: Case, ghost en: Entry, traitKind: nat, jitAddr: Word64)
      requires Valid() && Holds(ic, c, en) && numEntries < MAX_ENTRIES
      requires Lookup(Entries(), en.key).None?
      requires jitAddr !in code && jitAddr != missPath && Reachable(jitAddr)
      modifies this`smc, this`code, this`linkedList, this`numEntries, this`outlined
      ensures Valid() && inSlab == old(inSlab) && outlined == [en] + old(outlined)
      ensures code.Keys == old(code.Keys) + {jitAddr}
    {
      hide Holds, GetDest, Displacement, InRange, ValidIc, StubsIn, Lookup, DistinctKeys, IsOutcome;
      ghost var was := Entries();
      LookupFinds(was, en.key);
      var node := Node(traitKind, jitAddr);
      var patchableJmpEnd := if hasInlineSlab && isInlineSlabUsed != 0 then slabJumpEnd else smcJumpEnd;
      var stub := Stub(c, GetDest(patchableJmpEnd, smc.rel));
      StubAdded(ic, code, missPath, FirstStub(), linkedList, outlined, node, stub, en);
      PatchedJump(patchableJmpEnd, jitAddr);
      linkedList := [node] + linkedList;
      numEntries := numEntries + 1;
      code := code[jitAddr := stub];
      smc := smc.(rel := Displacement(patchableJmpEnd, jitAddr));
      outlined := [en] + outlined;
      assert Entries() == was[..|inSlab|] + [en] + was[|inSlab|..];
      DistinctInsert(was, |inSlab|, en);
    }

    /** Whether the entry a cacheable execution makes goes to the inline slab. */
    ghost predicate GoesToSlab(en: Entry, live: seq<nat>)
      requires ValidIc(ic) && IsEntry(ic, en, live)
      reads this
    {
      KindNames(ic, en, live);
      hasInlineSlab && inSlab == [] && KindOf(ic, en) in slabKinds
    }

    /** The slow path: the body, with the cache update in front of each effect call. */
    method RunBody(i: Input, jitAddr: Word64) returns (r: nat)
      requires Valid() && Takes(ic, i) && Lookup(Entries(), i.key).None?
      requires jitAddr !in code && jitAddr != missPath && Reachable(jitAddr)
      modifies this
      ensures Valid() && r == Trivial(ic, i)
      ensures var outcome := ic.body(i);
              if Cacheable(outcome) && |old(Entries())| < MAX_ENTRIES
              then if old(GoesToSlab(EntryOf(i, outcome), i.live))
                   then inSlab == [EntryOf(i, outcome)] && outlined == old(outlined)
                   else inSlab == old(inSlab) && outlined == [EntryOf(i, outcome)] + old(outlined)
              else inSlab == old(inSlab) && outlined == old(outlined)
      ensures var out := ic.body(i);
              if out.CallEffect? && out.cacheable && old(numEntries) < MAX_ENTRIES
              then Entry(i.key, out.effect, out.capture) in Entries() && numEntries == old(numEntries) + 1
              else Entries() == old(Entries()) && numEntries == old(numEntries)
      ensures code.Keys <= old(code.Keys) + {jitAddr}
    {
      hide StubsHold, SlabHolds, GetDest, Displacement, InRange, DistinctKeys, Lookup, IsCapture, ValidEffect, KindOf;
      SlabUse();
      assert IsOutcome(ic, i, ic.body(i));
      match ic.body(i) {
        case Return(v) =>
          r := v;
        case CallEffect(effect, capture, isCacheable) =>
          if isCacheable && numEntries < MAX_ENTRIES {
            ghost var en := Entry(i.key, effect, capture);
            var c, kind := MakeCase(i.key, effect, capture, i.live);
            if hasInlineSlab && kind in slabKinds && isInlineSlabUsed == 0 {
              PopulateSlab(c, en);
            } else {
              AddStub(c, en, kind, jitAddr);
            }
          }
          r := ic.effects[effect].run(capture);
      }
    }

    lemma SlabUse()
      requires SlabHolds()
      ensures isInlineSlabUsed == 0 <==> inSlab == []
      ensures isInlineSlabUsed == 0 ==> smc.Jump?
    {
    }

    /** Chooses the specialisation and gathers the constants. */
    method MakeCase(key: nat, effect: nat, capture: seq<nat>, ghost live: seq<nat>) returns (c: Case, kind: nat)
      requires ValidIc(ic) && IsEntry(ic, Entry(key, effect, capture), live)
      ensures Holds(ic, c, Entry(key, effect, capture))
      ensures forall sp :: sp in ic.effects[effect].specs ==> sp.slot < |capture|
      ensures kind == KindOf(ic, Entry(key, effect, capture)) < TotalEffectKinds(ic.effects)
    {
      ghost var en := Entry(key, effect, capture);
      KindNames(ic, en, live);
      CodeKnown(ic.effects[effect], capture, live);
      ghost var n := NumSpecializations(ic.effects[effect].specs);
      OrdinalsDisjoint(ic.effects, effect, n - 1, effect, n - 1);
      var ord := EffectOrdinal(ic.effects[effect].specs, capture, 0);
      c := Case(key, effect, ord, StoredValues(ic.effects[effect], capture));
      kind := StartOrdinal(ic.effects, effect) + ord;
    }

    /** One execution of the site; `jitAddr` is where a new stub would be allocated. */
    method Execute(i: Input, jitAddr: Word64) returns (r: nat)
      requires Valid() && Takes(ic, i)
      requires jitAddr !in code && jitAddr != missPath && Reachable(jitAddr)
      modifies this
      ensures Valid()
      ensures (r, Entries()) == StepMany(ic, old(Entries()), MAX_ENTRIES, |old(inSlab)|, i)
      ensures ic.body(i).CallEffect? && !ic.body(i).cacheable ==> Entries() == old(Entries())
      ensures ic.body(i).Return? ==> Entries() == old(Entries())
      ensures code.Keys <= old(code.Keys) + {jitAddr}
    {
      hide Valid, Answer, Lookup, KindOf;
      var hit;
      hit, r := Dispatch(i);
      if !hit {
        ghost var slab, stubs := inSlab, outlined;
        r := RunBody(i, jitAddr);
        assert (slab + stubs)[..|slab|] == slab && (slab + stubs)[|slab|..] == stubs;
        if Cacheable(ic.body(i)) && |slab + stubs| < MAX_ENTRIES {
          ghost var en := EntryOf(i, ic.body(i));
          assert Entries() == slab + [en] + stubs;
        }
      }
    }
  }

  /** Where `n` failed key comparisons in a row lead. */
  function Follow(code: map<Word64, Stub>, dest: Word64, n: nat): Word64
    decreases n
  {
    if n == 0 || dest !in code then dest else Follow(code, code[dest].missDest, n - 1)
  }

  /** The chain visits each stub once, newest first, and ends on the miss path: it has no cycle. */
  lemma {:induction false} ChainOrder(ic: Ic, code: map<Word64, Stub>, miss: Word64, dest: Word64, list: seq<Node>,
                                      entries: seq<Entry>, n: nat)
    requires StubsIn(ic, code, miss, dest, list, entries) && n <= |list|
    ensures Follow(code, dest, n) == if n < |list| then list[n].jitAddr else miss
    ensures forall k :: 0 <= k < n ==> Follow(code, dest, k) != Follow(code, dest, n)
  {
    FollowAddresses(ic, code, miss, dest, Addresses(list), entries, n);
    forall k | 0 <= k < n ensures Follow(code, dest, k) != Follow(code, dest, n) {
      FollowAddresses(ic, code, miss, dest, Addresses(list), entries, k);
      assert Addresses(list)[k] in Addresses(list);
    }
  }

  lemma {:induction false} FollowAddresses(ic: Ic, code: map<Word64, Stub>, miss: Word64, dest: Word64, addrs: seq<Word64>,
                                           entries: seq<Entry>, n: nat)
    requires Chain(ic, code, miss, dest, addrs, entries) && n <= |addrs| && miss !in code
    ensures Follow(code, dest, n) == if n < |addrs| then addrs[n] else miss
    decreases n
  {
    hide Holds;
    if n > 0 {
      FollowAddresses(ic, code, miss, code[dest].missDest, addrs[1..], entries[1..], n - 1);
    }
  }

  /** A run of executions; if the user's promise is kept, or no execution is cacheable, its results are
      those of running the body every time.  `jitAddrs` are the addresses the allocator would return. */
  method ExecuteAll(site: Site, inputs: seq<Input>, jitAddrs: seq<Word64>) returns (results: seq<nat>, ghost positions: seq<nat>)
    requires site.Valid() && TakesAll(site.ic, inputs) && |jitAddrs| == |inputs| && Distinct(jitAddrs)
    requires forall a :: a in jitAddrs ==> a !in site.code && a != site.missPath && site.Reachable(a)
    modifies site
    ensures site.Valid() && |positions| == |inputs|
    ensures results == RunMany(site.ic, old(site.Entries()), MAX_ENTRIES, positions, inputs)
    ensures old(site.Entries()) == [] && Contract(site.ic) ==> results == TrivialRun(site.ic, inputs)
    ensures old(site.Entries()) == [] && Promise(site.ic) ==> results == TrivialRun(site.ic, inputs)
    ensures old(site.Entries()) == [] && NeverCaches(site.ic, inputs) ==>
      results == TrivialRun(site.ic, inputs) && site.Entries() == []
    decreases |inputs|
  {
    hide Contract, Promise, StepMany, Site.Reachable, Site.SlabHolds, Site.StubsHold, ValidIc;
    if Promise(site.ic) {
      PromiseKeepsContract(site.ic);
    }
    hide Site.Valid;
    ghost var was := site.Entries();
    if inputs == [] {
      results, positions := [], [];
    } else {
      assert jitAddrs[0] in jitAddrs;
      ghost var pos := |site.inSlab|;
      var r := site.Execute(inputs[0], jitAddrs[0]);
      assert forall a :: a in jitAddrs[1..] ==> a in jitAddrs && a != jitAddrs[0];
      var rest, morePositions := ExecuteAll(site, inputs[1..], jitAddrs[1..]);
      results, positions := [r] + rest, [pos] + morePositions;
      assert positions[1..] == morePositions;
    }
    if was == [] && Contract(site.ic) {
      ManyRefines(site.ic, was, MAX_ENTRIES, positions, inputs);
    }
    if was == [] && NeverCaches(site.ic, inputs) {
      NeverCachesMany(site.ic, MAX_ENTRIES, positions, inputs);
    }
  }

  // ---- lists of entries ----

  lemma CaseKey(ic: Ic, c: Case, en: Entry)
    requires Holds(ic, c, en)
    ensures c.key == en.key
  {
  }

  lemma {:induction false} LookupSplit(a: seq<Entry>, b: seq<Entry>, key: nat)
    ensures Lookup(a + b, key) == if Lookup(a, key).Some? then Lookup(a, key) else Lookup(b, key)
  {
    if a == [] {
      assert a + b == b;
    } else {
      assert (a + b)[1..] == a[1..] + b;
      LookupSplit(a[1..], b, key);
    }
  }

  lemma DistinctInsert(entries: seq<Entry>, pos: nat, en: Entry)
    requires DistinctKeys(entries) && pos <= |entries|
    requires forall k :: 0 <= k < |entries| ==> entries[k].key != en.key
    ensures DistinctKeys(entries[..pos] + [en] + entries[pos..])
  {
  }
}
