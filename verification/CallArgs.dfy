/** The description of a call between two passes: a chain of report calls is gathered into one flat
    argument list, which the lowering pass parses by the types of its values. */
module CallArgs {
  import opened Wrappers

  /** Values by type: words (some of them constants), pointers, functions, the null pointer, flags. */
  datatype Value = Word(id: nat) | WordConstant(n: nat) | Pointer(id: nat) | FnPointer(id: nat) | NullPointer | Flag(b: bool)

  predicate IsWord(v: Value) { v.Word? || v.WordConstant? }

  predicate IsPointer(v: Value) { v.Pointer? || v.FnPointer? || v.NullPointer? }

  datatype Arg = Single(value: Value) | Range(start: Value, num: Value)

  datatype CallDesc = CallDesc(inPlace: bool, passVariadicRes: bool, isMustTail: bool, target: Value,
                               continuation: Value, callOption: nat, args: seq<Arg>)

  const NO_OPTION: nat := 0
  const ARG_START: nat := 6

  // ---- the flat list ----

  predicate GoodArg(a: Arg) {
    match a
    case Single(v) => IsWord(v)
    case Range(start, num) => IsPointer(start) && IsWord(num)
  }

  predicate GoodArgs(args: seq<Arg>) {
    forall k :: 0 <= k < |args| ==> GoodArg(args[k])
  }

  function FlattenArg(a: Arg): seq<Value> {
    match a
    case Single(v) => [v]
    case Range(start, num) => [start, num]
  }

  function FlattenArgs(args: seq<Arg>): seq<Value> {
    if args == [] then [] else FlattenArg(args[0]) + FlattenArgs(args[1..])
  }

  function Flatten(c: CallDesc): seq<Value> {
    [Flag(c.inPlace), Flag(c.passVariadicRes), Flag(c.isMustTail), c.target, c.continuation, WordConstant(c.callOption)]
    + FlattenArgs(c.args)
  }

  /** What every described call satisfies; a tail call has no continuation. */
  predicate WellFormed(c: CallDesc) {
    && IsWord(c.target) && GoodArgs(c.args)
    && (if c.isMustTail then c.continuation.NullPointer? else c.continuation.FnPointer?)
  }

  // ---- parsing by type ----

  function ParseArgs(l: seq<Value>): Option<seq<Arg>> {
    if l == [] then Some([])
    else if IsWord(l[0]) then Cons(Single(l[0]), ParseArgs(l[1..]))
    else if IsPointer(l[0]) && |l| > 1 && IsWord(l[1]) then Cons(Range(l[0], l[1]), ParseArgs(l[2..]))
    else None
  }

  function Cons(a: Arg, r: Option<seq<Arg>>): Option<seq<Arg>> {
    if r.Some? then Some([a] + r.value) else None
  }

  lemma {:induction false} ParsedIsFlat(l: seq<Value>)
    ensures ParseArgs(l).Some? ==> GoodArgs(ParseArgs(l).value) && l == FlattenArgs(ParseArgs(l).value)
    decreases |l|
  {
    if l != [] && ParseArgs(l).Some? {
      var n := if IsWord(l[0]) then 1 else 2;
      ParsedIsFlat(l[n..]);
      var args := ParseArgs(l).value;
      assert args[1..] == ParseArgs(l[n..]).value && FlattenArg(args[0]) == l[..n];
      assert l == l[..n] + l[n..];
    }
  }

  lemma {:induction false} FlatIsParsed(args: seq<Arg>)
    requires GoodArgs(args)
    ensures ParseArgs(FlattenArgs(args)) == Some(args)
  {
    if args != [] {
      FlatIsParsed(args[1..]);
      assert GoodArg(args[0]) && args == [args[0]] + args[1..];
      var l, rest := FlattenArgs(args), FlattenArgs(args[1..]);
      match args[0] {
        case Single(v) =>
          assert l[0] == v && l[1..] == rest;
        case Range(start, num) =>
          assert l[0] == start && l[1] == num && l[2..] == rest;
      }
    }
  }

  /** The types alone tell single arguments and ranges apart. */
  lemma ParseArgsIff(l: seq<Value>, args: seq<Arg>)
    ensures ParseArgs(l) == Some(args) <==> GoodArgs(args) && l == FlattenArgs(args)
  {
    hide ParseArgs, FlattenArgs, GoodArgs;
    ParsedIsFlat(l);
    if GoodArgs(args) {
      FlatIsParsed(args);
    }
  }

  /** `ParseFromApiUse`: accepts exactly the lists that describe a call. */
  method ParseFromApiUse(l: seq<Value>) returns (r: Option<CallDesc>)
    ensures forall c :: r == Some(c) <==> WellFormed(c) && l == Flatten(c)
  {
    hide ParseArgs;
    r := None;
    if |l| < ARG_START || !l[0].Flag? || !l[1].Flag? || !l[2].Flag? || !IsWord(l[3]) || !l[5].WordConstant? {
      NotACall(l);
      return;
    }
    if if l[2].b then !l[4].NullPointer? else !l[4].FnPointer? {
      NotACall(l);
      return;
    }
    var args := ParseArgList(l);
    if args.Some? {
      r := Some(CallDesc(l[0].b, l[1].b, l[2].b, l[3], l[4], l[5].n, args.value));
    }
    forall c ensures r == Some(c) <==> WellFormed(c) && l == Flatten(c) {
      ParseArgsIff(l[6..], c.args);
      FlattenParts(l, c);
    }
  }

  lemma FlattenParts(l: seq<Value>, c: CallDesc)
    requires |l| >= 6
    ensures l == Flatten(c) <==>
      && l[0] == Flag(c.inPlace) && l[1] == Flag(c.passVariadicRes) && l[2] == Flag(c.isMustTail)
      && l[3] == c.target && l[4] == c.continuation && l[5] == WordConstant(c.callOption) && l[6..] == FlattenArgs(c.args)
  {
    assert l == [l[0], l[1], l[2], l[3], l[4], l[5]] + l[6..];
    var f := Flatten(c);
    assert f[6..] == FlattenArgs(c.args);
  }

  lemma NotACall(l: seq<Value>)
    requires |l| < 6 || !l[0].Flag? || !l[1].Flag? || !l[2].Flag? || !IsWord(l[3]) || !l[5].WordConstant?
             || (if l[2].b then !l[4].NullPointer? else !l[4].FnPointer?)
    ensures forall c :: WellFormed(c) ==> l != Flatten(c)
  {
    forall c | WellFormed(c) ensures l != Flatten(c) {
      if |l| >= 6 {
        FlattenParts(l, c);
      }
    }
  }

  /** The loop over the arguments. */
  method ParseArgList(l: seq<Value>) returns (r: Option<seq<Arg>>)
    requires |l| >= 6
    ensures r == ParseArgs(l[6..])
  {
    var args: seq<Arg> := [];
    var curOrd := 6;
    Appended([], ParseArgs(l[6..]));
    while curOrd < |l|
      invariant 6 <= curOrd <= |l|
      invariant ParseArgs(l[6..]) == Append(args, ParseArgs(l[curOrd..]))
    {
      var arg := l[curOrd];
      assert l[curOrd..][1..] == l[curOrd + 1..];
      if IsWord(arg) {
        AppendMore(args, Single(arg), ParseArgs(l[curOrd + 1..]));
        args := args + [Single(arg)];
        curOrd := curOrd + 1;
      } else {
        if !IsPointer(arg) || !(curOrd + 1 < |l|) || !IsWord(l[curOrd + 1]) {
          return None;
        }
        assert l[curOrd..][2..] == l[curOrd + 2..];
        AppendMore(args, Range(arg, l[curOrd + 1]), ParseArgs(l[curOrd + 2..]));
        args := args + [Range(arg, l[curOrd + 1])];
        curOrd := curOrd + 2;
      }
    }
    assert l[curOrd..] == [] && args + [] == args;
    r := Some(args);
  }

  function Append(args: seq<Arg>, r: Option<seq<Arg>>): Option<seq<Arg>> {
    if r.Some? then Some(args + r.value) else None
  }

  lemma AppendMore(args: seq<Arg>, a: Arg, r: Option<seq<Arg>>)
    ensures Append(args, Cons(a, r)) == Append(args + [a], r)
  {
    if r.Some? {
      assert args + ([a] + r.value) == args + [a] + r.value;
    }
  }

  lemma Appended(args: seq<Arg>, r: Option<seq<Arg>>)
    ensures Append([], r) == r
  {
    if r.Some? {
      assert [] + r.value == r.value;
    }
  }

  // ---- gathering the reports ----

  /** The calls that report the parts of one call, in program order. */
  datatype Report =
    | ReportParam(value: Value)
    | ReportParamList(start: Value, num: Value)
    | ReportTarget(target: Value)
    | ReportOption(callOption: Value)
    | ReportContinuation(continuation: Value)

  function ArgsOf(reports: seq<Report>): seq<Arg> {
    if reports == [] then []
    else
      ArgsOf(reports[..|reports| - 1]) +
      match reports[|reports| - 1]
      case ReportParam(v) => [Single(v)]
      case ReportParamList(start, num) => [Range(start, num)]
      case _ => []
  }

  function TargetsOf(reports: seq<Report>): seq<Value> {
    if reports == [] then []
    else
      TargetsOf(reports[..|reports| - 1])
      + if reports[|reports| - 1].ReportTarget? then [reports[|reports| - 1].target] else []
  }

  function OptionsOf(reports: seq<Report>): seq<Value> {
    if reports == [] then []
    else
      OptionsOf(reports[..|reports| - 1])
      + if reports[|reports| - 1].ReportOption? then [reports[|reports| - 1].callOption] else []
  }

  /** A complete chain: it ends with its only continuation, and reports one target and at most one
      option, of the right types; an in-place call has one range. */
  predicate Complete(inPlace: bool, isMustTail: bool, reports: seq<Report>) {
    && reports != [] && reports[|reports| - 1].ReportContinuation?
    && (forall k :: 0 <= k < |reports| - 1 ==> !reports[k].ReportContinuation?)
    && |TargetsOf(reports)| == 1 && IsWord(TargetsOf(reports)[0])
    && |OptionsOf(reports)| <= 1 && (OptionsOf(reports) != [] ==> OptionsOf(reports)[0].WordConstant?)
    && (var c := reports[|reports| - 1].continuation; if isMustTail then c.NullPointer? else c.FnPointer?)
    && (inPlace ==> |ArgsOf(reports)| == 1 && ArgsOf(reports)[0].Range?)
    && GoodArgs(ArgsOf(reports))
  }

  /** The call a complete chain describes. */
  function DescribedBy(inPlace: bool, passVariadicRes: bool, isMustTail: bool, reports: seq<Report>): CallDesc
    requires Complete(inPlace, isMustTail, reports)
  {
    CallDesc(inPlace, passVariadicRes, isMustTail, TargetsOf(reports)[0], reports[|reports| - 1].continuation,
             if OptionsOf(reports) == [] then NO_OPTION else OptionsOf(reports)[0].n, ArgsOf(reports))
  }

  /** The chain walk of `PreprocessModule`, up to the flat list. */
  method Gather(inPlace: bool, passVariadicRes: bool, isMustTail: bool, reports: seq<Report>) returns (md: Option<seq<Value>>)
    ensures md.Some? <==> Complete(inPlace, isMustTail, reports)
    ensures md.Some? ==> md.value == Flatten(DescribedBy(inPlace, passVariadicRes, isMustTail, reports))
  {
    hide GoodArgs, FlattenArgs, ArgsOf, TargetsOf, OptionsOf;
    md := None;
    NothingReported();
    assert reports[..0] == [];
    var target, callOption: Option<Value>, continuation := None, None, None;
    var args: seq<Arg> := [];
    var k := 0;
    while k < |reports| && continuation.None?
      invariant 0 <= k <= |reports| && args == ArgsOf(reports[..k])
      invariant TargetsOf(reports[..k]) == if target.Some? then [target.value] else []
      invariant OptionsOf(reports[..k]) == if callOption.Some? then [callOption.value] else []
      invariant forall j :: 0 <= j < k ==> (reports[j].ReportContinuation? <==> j == k - 1 && continuation.Some?)
      invariant continuation.Some? ==> k > 0 && reports[k - 1] == ReportContinuation(continuation.value)
      decreases |reports| - k
    {
      OneMoreReport(reports, k);
      match reports[k] {
        case ReportParam(v) =>
          args := args + [Single(v)];
        case ReportParamList(start, num) =>
          args := args + [Range(start, num)];
        case ReportTarget(t) =>
          if target.Some? {
            CountsGrow(reports, k + 1);
            return;
          }
          target := Some(t);
        case ReportOption(o) =>
          if callOption.Some? {
            CountsGrow(reports, k + 1);
            return;
          }
          callOption := Some(o);
        case ReportContinuation(c) =>
          continuation := Some(c);
      }
      k := k + 1;
    }
    if k < |reports| || continuation.None? {
      return;
    }
    assert reports[..k] == reports;
    if target.None? || !IsWord(target.value) || (callOption.Some? && !callOption.value.WordConstant?) {
      return;
    }
    if if isMustTail then !continuation.value.NullPointer? else !continuation.value.FnPointer? {
      return;
    }
    if (inPlace && (|args| != 1 || !args[0].Range?)) || !GoodArgs(args) {
      return;
    }
    md := Some([Flag(inPlace), Flag(passVariadicRes), Flag(isMustTail), target.value, continuation.value,
                WordConstant(if callOption.Some? then callOption.value.n else NO_OPTION)] + FlattenArgs(args));
  }

  lemma {:induction false} CountsGrow(reports: seq<Report>, k: nat)
    requires k <= |reports|
    ensures |TargetsOf(reports[..k])| <= |TargetsOf(reports)| && |OptionsOf(reports[..k])| <= |OptionsOf(reports)|
    decreases |reports|
  {
    if k < |reports| {
      CountsGrow(reports[..|reports| - 1], k);
      assert reports[..|reports| - 1][..k] == reports[..k];
    } else {
      assert reports[..k] == reports;
    }
  }

  lemma NothingReported()
    ensures ArgsOf([]) == [] && TargetsOf([]) == [] && OptionsOf([]) == []
  {
  }

  lemma OneMoreReport(reports: seq<Report>, k: nat)
    requires k < |reports|
    ensures ArgsOf(reports[..k + 1]) == ArgsOf(reports[..k]) +
            match reports[k]
            case ReportParam(v) => [Single(v)]
            case ReportParamList(start, num) => [Range(start, num)]
            case _ => []
    ensures TargetsOf(reports[..k + 1]) == TargetsOf(reports[..k]) + if reports[k].ReportTarget? then [reports[k].target] else []
    ensures OptionsOf(reports[..k + 1]) == OptionsOf(reports[..k]) + if reports[k].ReportOption? then [reports[k].callOption] else []
  {
    assert reports[..k + 1][..k] == reports[..k];
  }

  /** What a complete chain reports is what the lowering pass reads. */
  method GatherAndParse(inPlace: bool, passVariadicRes: bool, isMustTail: bool, reports: seq<Report>) returns (r: Option<CallDesc>)
    requires Complete(inPlace, isMustTail, reports)
    ensures r == Some(DescribedBy(inPlace, passVariadicRes, isMustTail, reports))
  {
    var md := Gather(inPlace, passVariadicRes, isMustTail, reports);
    r := ParseFromApiUse(md.value);
    assert WellFormed(DescribedBy(inPlace, passVariadicRes, isMustTail, reports));
  }
}
