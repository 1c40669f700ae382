// The command line between loom_execution_descriptor.py, which prints it, and run-loom-simple,
// which parses it. Error messages are abstracted to the fact that there is one.
module Flags {
  import opened Wrappers
  import opened Text
  import opened FlagText

  datatype Binding = Binding(position: int, kind: BindingKind, dtype: DType, elements: nat, path: string)

  datatype ScalarArg = ScalarArg(position: int, dtype: DType, value: string)

  datatype Expectation = Expectation(position: int, path: string, atol: real, rtol: real)

  datatype Invocation = Invocation(
    kernelPath: string,
    rootSymbol: string,
    target: string,
    outputPath: string,
    loomLinkPath: string,
    linkedKernelOutput: string,
    runLoomPath: string,
    workgroupCount: string,
    emitCommand: bool,
    executeCommand: bool,
    configs: seq<(string, string)>,
    scalars: seq<ScalarArg>,
    bindings: seq<Binding>,
    expectations: seq<Expectation>)

  datatype State = State(invocation: Invocation, failed: bool)

  const DEFAULT_INVOCATION := Invocation(
    "", "", "", "", "loom-link", "", "ggml-hrx-run-loom", "", false, false, [], [], [], [])

  // strtod on a whole text: the finite value it denotes, if any. The parser and all lemmas are
  // parametric in it.
  type Number = string -> Option<real>

  //////////////////////////////////////////////////////////////////////////////
  // Single flags
  //////////////////////////////////////////////////////////////////////////////

  function ParseBinding(raw: string): Option<Binding> {
    var parts := SplitFrom(raw, ':', 0);
    if |parts| != 5 then None
    else
      match (ParseInt(parts[0]), ParseBindingKind(parts[1]), ParseDType(parts[2]), ParseSize(parts[3]))
      case (Some(position), Some(kind), Some(dtype), Some(elements)) =>
        if position < 0 || elements == 0 || parts[4] == "" then None
        else Some(Binding(position, kind, dtype, elements, parts[4]))
      case _ => None
  }

  function ParseScalar(raw: string, number: Number): Option<ScalarArg> {
    var parts := SplitFrom(raw, ':', 0);
    if |parts| != 3 then None
    else
      match (ParseInt(parts[0]), ParseDType(parts[1]), number(parts[2]))
      case (Some(position), Some(dtype), Some(_)) =>
        if position < 0 || parts[2] == "" then None else Some(ScalarArg(position, dtype, parts[2]))
      case _ => None
  }

  function ParseExpectation(raw: string, number: Number): Option<Expectation> {
    var parts := SplitFrom(raw, ':', 0);
    if |parts| != 5 then None
    else
      match (ParseInt(parts[0]), number(parts[3]), number(parts[4]))
      case (Some(position), Some(atol), Some(rtol)) =>
        if position < 0 || parts[1] != "close" || parts[2] == "" || parts[3] == "" || parts[4] == ""
           || atol < 0.0 || rtol < 0.0 then None
        else Some(Expectation(position, parts[2], atol, rtol))
      case _ => None
  }

  function ParseConfig(raw: string): Option<(string, string)> {
    var split := FindFrom(raw, '=', 0);
    if split == |raw| || split == 0 || split + 1 >= |raw| then None
    else Some((raw[..split], raw[split + 1..]))
  }

  predicate ValidWorkgroupCount(raw: string) {
    var parts := SplitFrom(raw, ',', 0);
    |parts| == 3 && forall i :: 0 <= i < 3 ==> ParseSize(parts[i]).Some? && ParseSize(parts[i]).value > 0
  }

  predicate TakesValue(flag: Flag) {
    flag != EmitCommand && flag != ExecuteCommand
  }

  type ValuedFlag = flag: Flag | TakesValue(flag) witness Kernel

  // The effect of one flag with its value.
  function Apply(state: State, flag: ValuedFlag, value: string, number: Number): State {
    var inv := state.invocation;
    match flag
    case Kernel => state.(invocation := inv.(kernelPath := value))
    case Root => state.(invocation := inv.(rootSymbol := value))
    case Target => state.(invocation := inv.(target := value))
    case OutputFile => state.(invocation := inv.(outputPath := value))
    case LoomLink => state.(invocation := inv.(loomLinkPath := value))
    case LinkedKernelOutput => state.(invocation := inv.(linkedKernelOutput := value))
    case RunLoom => state.(invocation := inv.(runLoomPath := value))
    case WorkgroupCount =>
      if ValidWorkgroupCount(value) then state.(invocation := inv.(workgroupCount := value)) else state.(failed := true)
    case Config => (match ParseConfig(value)
      case Some(config) => state.(invocation := inv.(configs := inv.configs + [config]))
      case None => state.(failed := true))
    case BindingFlag => (match ParseBinding(value)
      case Some(binding) => state.(invocation := inv.(bindings := inv.bindings + [binding]))
      case None => state.(failed := true))
    case ScalarFlag => (match ParseScalar(value, number)
      case Some(scalar) => state.(invocation := inv.(scalars := inv.scalars + [scalar]))
      case None => state.(failed := true))
    case ExpectFlag => (match ParseExpectation(value, number)
      case Some(expectation) => state.(invocation := inv.(expectations := inv.expectations + [expectation]))
      case None => state.(failed := true))
  }

  function Switch(state: State, flag: Flag): State
    requires !TakesValue(flag)
  {
    if flag == EmitCommand then state.(invocation := state.invocation.(emitCommand := true))
    else state.(invocation := state.invocation.(emitCommand := true, executeCommand := true))
  }

  function ParseFrom(args: seq<string>, state: State, number: Number): State {
    if args == [] then state
    else match FlagOf(args[0])
      case None => ParseFrom(args[1..], state.(failed := true), number)
      case Some(flag) =>
        if !TakesValue(flag) then ParseFrom(args[1..], Switch(state, flag), number)
        else if |args| == 1 then state.(failed := true)
        else ParseFrom(args[2..], Apply(state, flag, args[1], number), number)
  }

  //////////////////////////////////////////////////////////////////////////////
  // Validation
  //////////////////////////////////////////////////////////////////////////////

  predicate HasRequired(inv: Invocation) {
    inv.kernelPath != "" && inv.rootSymbol != "" && inv.target != "" && inv.outputPath != "" && inv.bindings != []
  }

  predicate DistinctPositions(inv: Invocation) {
    && (forall i, j :: 0 <= i < j < |inv.scalars| ==> inv.scalars[i].position != inv.scalars[j].position)
    && (forall i, j :: 0 <= i < j < |inv.bindings| ==> inv.bindings[i].position != inv.bindings[j].position)
    && (forall i, j :: 0 <= i < |inv.scalars| && 0 <= j < |inv.bindings| ==>
      inv.scalars[i].position != inv.bindings[j].position)
  }

  predicate IsOutput(bindings: seq<Binding>, position: int) {
    exists j :: 0 <= j < |bindings| && bindings[j].position == position && bindings[j].kind == Output
  }

  predicate ExpectationsMatch(inv: Invocation) {
    && (forall i, j :: 0 <= i < j < |inv.expectations| ==> inv.expectations[i].position != inv.expectations[j].position)
    && (forall i :: 0 <= i < |inv.expectations| ==> IsOutput(inv.bindings, inv.expectations[i].position))
  }

  // Nothing ValidateBindingsAndExpectation reports: unique ABI positions, and every
  // expectation on a distinct output binding.
  predicate Consistent(inv: Invocation) {
    DistinctPositions(inv) && ExpectationsMatch(inv)
  }

  method RegisterScalars(scalars: seq<ScalarArg>) returns (ok: bool, kinds: map<int, BindingKind>)
    ensures ok <==> forall i, j :: 0 <= i < j < |scalars| ==> scalars[i].position != scalars[j].position
    ensures forall p :: p in kinds <==> IsScalar(scalars, p)
    ensures forall p :: p in kinds ==> kinds[p] == Input
  {
    ok, kinds := true, map[];
    for k := 0 to |scalars|
      invariant ok <==> forall i, j :: 0 <= i < j < k ==> scalars[i].position != scalars[j].position
      invariant forall p :: p in kinds <==> exists i :: 0 <= i < k && scalars[i].position == p
      invariant forall p :: p in kinds ==> kinds[p] == Input
    {
      var position := scalars[k].position;
      if position in kinds {
        ok := false;
      } else {
        kinds := kinds[position := Input];
      }
    }
  }

  predicate IsScalar(scalars: seq<ScalarArg>, position: int) {
    exists i :: 0 <= i < |scalars| && scalars[i].position == position
  }

  // The binding half: no position twice, and none that a scalar has.
  predicate FreshBindings(scalars: seq<ScalarArg>, bindings: seq<Binding>) {
    && (forall i, j :: 0 <= i < j < |bindings| ==> bindings[i].position != bindings[j].position)
    && (forall j :: 0 <= j < |bindings| ==> !IsScalar(scalars, bindings[j].position))
  }

  predicate IsBinding(bindings: seq<Binding>, position: int) {
    exists j :: 0 <= j < |bindings| && bindings[j].position == position
  }

  method RegisterPositions(inv: Invocation) returns (ok: bool, kinds: map<int, BindingKind>)
    ensures ok <==> DistinctPositions(inv)
    ensures ok ==> forall p :: p in kinds && kinds[p] == Output <==> IsOutput(inv.bindings, p)
  {
    var bindings := inv.bindings;
    ok, kinds := RegisterScalars(inv.scalars);
    ghost var scalarsOk := ok;
    for k := 0 to |bindings|
      invariant ok <==> scalarsOk && FreshBindings(inv.scalars, bindings[..k])
      invariant forall p :: p in kinds <==> IsScalar(inv.scalars, p) || IsBinding(bindings[..k], p)
      invariant ok ==> forall p :: p in kinds && kinds[p] == Output <==> IsOutput(bindings[..k], p)
    {
      var binding := bindings[k];
      assert bindings[..k + 1] == bindings[..k] + [binding];
      OneMoreBinding(inv.scalars, bindings[..k], binding);
      if binding.position in kinds {
        ok := false;
      } else {
        kinds := kinds[binding.position := binding.kind];
      }
    }
    assert bindings[..|bindings|] == bindings;
  }

  lemma OneMoreBinding(scalars: seq<ScalarArg>, bindings: seq<Binding>, binding: Binding)
    ensures forall p ::
      (IsOutput(bindings + [binding], p)
       <==> IsOutput(bindings, p) || (p == binding.position && binding.kind == Output))
    ensures forall p :: IsBinding(bindings + [binding], p) <==> IsBinding(bindings, p) || p == binding.position
    ensures FreshBindings(scalars, bindings + [binding]) <==>
      FreshBindings(scalars, bindings) && !IsScalar(scalars, binding.position) && !IsBinding(bindings, binding.position)
    ensures IsOutput(bindings, binding.position) ==> IsBinding(bindings, binding.position)
  {
    var more := bindings + [binding];
    assert more[|bindings|] == binding;
    assert forall j :: 0 <= j < |bindings| ==> more[j] == bindings[j];
    forall p | IsOutput(bindings, p) ensures IsOutput(more, p) {
      var j :| 0 <= j < |bindings| && bindings[j].position == p && bindings[j].kind == Output;
      assert more[j] == bindings[j];
    }
    forall p | IsBinding(bindings, p) ensures IsBinding(more, p) {
      var j :| 0 <= j < |bindings| && bindings[j].position == p;
      assert more[j] == bindings[j];
    }
  }

  method ValidateInvocation(inv: Invocation) returns (ok: bool)
    ensures ok <==> Consistent(inv)
  {
    var distinct, kinds := RegisterPositions(inv);
    if !distinct {
      return false;
    }
    var expected: set<int> := {};
    ok := true;
    for k := 0 to |inv.expectations|
      invariant expected == set i | 0 <= i < k :: inv.expectations[i].position
      invariant ok <==>
        && (forall i, j :: 0 <= i < j < k ==> inv.expectations[i].position != inv.expectations[j].position)
        && (forall i :: 0 <= i < k ==> IsOutput(inv.bindings, inv.expectations[i].position))
    {
      var position := inv.expectations[k].position;
      if position in expected {
        ok := false;
      }
      expected := expected + {position};
      if position !in kinds || kinds[position] != Output {
        ok := false;
      }
    }
  }

  // Stable insertion by ABI position.
  function InsertByPosition<T>(x: T, s: seq<T>, position: T -> int): (r: seq<T>)
    ensures multiset(r) == multiset(s) + multiset{x}
  {
    if s == [] then [x]
    else if position(x) <= position(s[0]) then [x] + s
    else
      assert s == [s[0]] + s[1..];
      [s[0]] + InsertByPosition(x, s[1..], position)
  }

  function SortByPosition<T>(s: seq<T>, position: T -> int): (r: seq<T>)
    ensures multiset(r) == multiset(s)
  {
    if s == [] then []
    else
      assert s == [s[0]] + s[1..];
      InsertByPosition(s[0], SortByPosition(s[1..], position), position)
  }

  predicate Ascending<T>(s: seq<T>, position: T -> int) {
    forall i, j :: 0 <= i < j < |s| ==> position(s[i]) <= position(s[j])
  }

  lemma {:induction false} InsertKeepsAscending<T>(x: T, s: seq<T>, position: T -> int)
    requires Ascending(s, position)
    ensures Ascending(InsertByPosition(x, s, position), position)
  {
    if s != [] && position(x) > position(s[0]) {
      var rest := InsertByPosition(x, s[1..], position);
      InsertKeepsAscending(x, s[1..], position);
      forall i | 0 <= i < |rest| ensures position(s[0]) <= position(rest[i]) {
        assert rest[i] in multiset(rest);
        assert rest[i] == x || rest[i] in s[1..];
      }
    }
  }

  lemma {:induction false} SortAscends<T>(s: seq<T>, position: T -> int)
    ensures Ascending(SortByPosition(s, position), position)
  {
    if s != [] {
      SortAscends(s[1..], position);
      InsertKeepsAscending(s[0], SortByPosition(s[1..], position), position);
    }
  }

  function ScalarPosition(scalar: ScalarArg): int { scalar.position }

  function BindingPosition(binding: Binding): int { binding.position }

  function SortedInvocation(inv: Invocation): Invocation {
    inv.(scalars := SortByPosition(inv.scalars, ScalarPosition),
         bindings := SortByPosition(inv.bindings, BindingPosition))
  }

  function Finish(state: State): Option<Invocation> {
    var inv := SortedInvocation(state.invocation);
    if state.failed || !HasRequired(state.invocation) || !Consistent(inv) then None else Some(inv)
  }

  function Parse(args: seq<string>, number: Number): Option<Invocation> {
    Finish(ParseFrom(args, State(DEFAULT_INVOCATION, false), number))
  }

  lemma ParseValued(args: seq<string>, i: nat, state: State, flag: Flag, number: Number)
    requires i + 1 < |args| && FlagOf(args[i]) == Some(flag) && TakesValue(flag)
    ensures ParseFrom(args[i..], state, number)
         == ParseFrom(args[i + 2..], Apply(state, flag, args[i + 1], number), number)
  {
    assert args[i..][2..] == args[i + 2..];
  }

  method ReadArguments(args: seq<string>, number: Number) returns (state: State)
    ensures state == ParseFrom(args, State(DEFAULT_INVOCATION, false), number)
  {
    state := State(DEFAULT_INVOCATION, false);
    var i := 0;
    while i < |args|
      invariant 0 <= i <= |args|
      invariant ParseFrom(args[i..], state, number) == ParseFrom(args, State(DEFAULT_INVOCATION, false), number)
    {
      var flag := FlagOf(args[i]);
      assert args[i..][1..] == args[i + 1..];
      if flag.None? {
        state := state.(failed := true);
      } else if !TakesValue(flag.value) {
        state := Switch(state, flag.value);
      } else if i + 1 >= |args| {
        state := state.(failed := true);
      } else {
        ParseValued(args, i, state, flag.value, number);
        i := i + 1;
        state := Apply(state, flag.value, args[i], number);
      }
      i := i + 1;
    }
    assert args[i..] == [];
  }

  method ParseArgs(args: seq<string>, number: Number) returns (result: Option<Invocation>)
    ensures result == Parse(args, number)
  {
    var state := ReadArguments(args, number);
    var missing := !HasRequired(state.invocation);
    var inv := SortedInvocation(state.invocation);
    var consistent := ValidateInvocation(inv);
    result := if state.failed || missing || !consistent then None else Some(inv);
  }

  //////////////////////////////////////////////////////////////////////////////
  // Printing
  //////////////////////////////////////////////////////////////////////////////

  datatype ExpectText = ExpectText(path: string, atol: string, rtol: string)

  // Output bindings carry the expectation they are checked against.
  datatype DescriptorBinding = DescriptorBinding(binding: Binding, check: Option<ExpectText>)

  // A validated descriptor with its paths resolved and its values rendered as text.
  datatype Descriptor = Descriptor(
    kernel: string,
    root: string,
    target: string,
    output: string,
    workgroupCount: Option<seq<nat>>,
    configs: seq<(string, string)>,
    loomLink: Option<string>,
    linkedOutput: string,
    runLoom: Option<string>,
    scalars: seq<ScalarArg>,
    bindings: seq<DescriptorBinding>,
    execute: bool)

  type Pairs = seq<(ValuedFlag, string)>

  function Decimals(values: seq<nat>): (r: seq<string>)
    ensures |r| == |values| && forall i :: 0 <= i < |r| ==> r[i] == Decimal(values[i])
  {
    seq(|values|, i requires 0 <= i < |values| => Decimal(values[i]))
  }

  function BindingText(b: Binding): string
    requires b.position >= 0
  {
    Join([Decimal(b.position), KindName(b.kind), DTypeName(b.dtype), Decimal(b.elements), b.path], ':')
  }

  function ScalarText(s: ScalarArg): string
    requires s.position >= 0
  {
    Join([Decimal(s.position), DTypeName(s.dtype), s.value], ':')
  }

  function ExpectationText(position: nat, e: ExpectText): string {
    Join([Decimal(position), "close", e.path, e.atol, e.rtol], ':')
  }

  function ConfigPairs(configs: seq<(string, string)>): Pairs {
    if configs == [] then []
    else [(Config, configs[0].0 + "=" + configs[0].1)] + ConfigPairs(configs[1..])
  }

  function ScalarPairs(scalars: seq<ScalarArg>): Pairs
    requires forall s :: s in scalars ==> s.position >= 0
  {
    if scalars == [] then [] else [(ScalarFlag, ScalarText(scalars[0]))] + ScalarPairs(scalars[1..])
  }

  predicate HasCheck(b: DescriptorBinding) {
    b.binding.kind == Output && b.check.Some?
  }

  function OneBinding(b: DescriptorBinding): Pairs
    requires b.binding.position >= 0
  {
    [(BindingFlag, BindingText(b.binding))]
    + if HasCheck(b) then [(ExpectFlag, ExpectationText(b.binding.position, b.check.value))] else []
  }

  function BindingPairs(bindings: seq<DescriptorBinding>): Pairs
    requires forall b :: b in bindings ==> b.binding.position >= 0
  {
    if bindings == [] then [] else OneBinding(bindings[0]) + BindingPairs(bindings[1..])
  }

  predicate NonNegativePositions(d: Descriptor) {
    && (forall s :: s in d.scalars ==> s.position >= 0)
    && (forall b :: b in d.bindings ==> b.binding.position >= 0)
  }

  function OptionPair(flag: ValuedFlag, value: Option<string>): Pairs {
    if value.Some? then [(flag, value.value)] else []
  }

  function HeadPairs(d: Descriptor): Pairs {
    [(Kernel, d.kernel), (Root, d.root), (Target, d.target), (OutputFile, d.output)]
    + if d.workgroupCount.Some? then [(WorkgroupCount, Join(Decimals(d.workgroupCount.value), ','))] else []
  }

  function ToolPairs(d: Descriptor): Pairs {
    OptionPair(LoomLink, d.loomLink)
    + OptionPair(LinkedKernelOutput, if d.configs != [] then Some(d.linkedOutput) else None)
    + OptionPair(RunLoom, d.runLoom)
  }

  function AllPairs(d: Descriptor): Pairs
    requires NonNegativePositions(d)
  {
    HeadPairs(d) + ConfigPairs(d.configs) + ToolPairs(d) + ScalarPairs(d.scalars) + BindingPairs(d.bindings)
  }

  function Arguments(pairs: Pairs): seq<string> {
    if pairs == [] then [] else [FlagName(pairs[0].0), pairs[0].1] + Arguments(pairs[1..])
  }

  // The command prepare_execution assembles, after the runner itself.
  function Print(d: Descriptor): seq<string>
    requires NonNegativePositions(d)
  {
    Arguments(AllPairs(d)) + if d.execute then [FlagName(ExecuteCommand)] else []
  }

  method PrintConfigs(configs: seq<(string, string)>) returns (pairs: Pairs)
    ensures pairs == ConfigPairs(configs)
  {
    pairs := [];
    for k := 0 to |configs|
      invariant ConfigPairs(configs) == pairs + ConfigPairs(configs[k..])
    {
      assert configs[k..][1..] == configs[k + 1..];
      assert ConfigPairs(configs[k..]) == [(Config, configs[k].0 + "=" + configs[k].1)] + ConfigPairs(configs[k + 1..]);
      pairs := pairs + [(Config, configs[k].0 + "=" + configs[k].1)];
    }
  }

  method PrintScalars(scalars: seq<ScalarArg>) returns (pairs: Pairs)
    requires forall s :: s in scalars ==> s.position >= 0
    ensures pairs == ScalarPairs(scalars)
  {
    pairs := [];
    for k := 0 to |scalars|
      invariant ScalarPairs(scalars) == pairs + ScalarPairs(scalars[k..])
    {
      assert scalars[k..][1..] == scalars[k + 1..];
      pairs := pairs + [(ScalarFlag, ScalarText(scalars[k]))];
    }
  }

  method PrintBindings(bindings: seq<DescriptorBinding>) returns (pairs: Pairs)
    requires forall b :: b in bindings ==> b.binding.position >= 0
    ensures pairs == BindingPairs(bindings)
  {
    pairs := [];
    for k := 0 to |bindings|
      invariant BindingPairs(bindings) == pairs + BindingPairs(bindings[k..])
    {
      assert bindings[k..][1..] == bindings[k + 1..];
      pairs := pairs + OneBinding(bindings[k]);
    }
  }

  method PrepareExecution(d: Descriptor) returns (command: seq<string>)
    requires NonNegativePositions(d)
    ensures command == Print(d)
  {
    var configs := PrintConfigs(d.configs);
    var scalars := PrintScalars(d.scalars);
    var bindings := PrintBindings(d.bindings);
    command := Arguments(HeadPairs(d) + configs + ToolPairs(d) + scalars + bindings);
    if d.execute {
      command := command + [FlagName(ExecuteCommand)];
    }
  }
}
