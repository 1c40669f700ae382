// What run-loom-simple makes of the command line printed for a validated descriptor.
module FlagRoundTrip {
  import opened Wrappers
  import opened Text
  import opened FlagText
  import opened Flags
  import Permutations

  //////////////////////////////////////////////////////////////////////////////
  // What the descriptor promises, and what the parser needs on top
  //////////////////////////////////////////////////////////////////////////////

  function Plain(bindings: seq<DescriptorBinding>): (r: seq<Binding>)
    ensures |r| == |bindings|
    ensures forall i :: 0 <= i < |r| ==> r[i] == bindings[i].binding
  {
    seq(|bindings|, i requires 0 <= i < |bindings| => bindings[i].binding)
  }

  predicate DistinctBy<T>(s: seq<T>, position: T -> int) {
    forall i, j :: 0 <= i < j < |s| ==> position(s[i]) != position(s[j])
  }

  predicate DisjointPositions(scalars: seq<ScalarArg>, bindings: seq<Binding>) {
    forall s, b :: s in scalars && b in bindings ==> s.position != b.position
  }

  // What validate_descriptor and prepare_execution themselves demand.
  predicate Validated(d: Descriptor) {
    && d.kernel != "" && d.root != "" && d.target != "" && d.output != "" && d.bindings != []
    && NonNegativePositions(d)
    && DistinctBy(d.scalars, ScalarPosition)
    && DistinctBy(Plain(d.bindings), BindingPosition)
    && DisjointPositions(d.scalars, Plain(d.bindings))
    && (forall b :: b in d.bindings && b.binding.kind == Output ==> b.check.Some?)
    && (forall b :: b in d.bindings ==> b.binding.path != "")
    && (forall b :: b in d.bindings && HasCheck(b) ==> b.check.value.path != "")
    && (forall c :: c in d.configs ==> c.0 != "")
    && (d.workgroupCount.Some? ==> |d.workgroupCount.value| == 3 && forall n :: n in d.workgroupCount.value ==> n > 0)
    && (d.execute ==> d.runLoom.Some?)
  }

  predicate PrintableConfig(c: (string, string)) {
    '=' !in c.0 && c.1 != ""
  }

  predicate PrintableScalar(s: ScalarArg, number: Number) {
    s.position <= INT_MAX && ':' !in s.value && s.value != "" && number(s.value).Some?
  }

  predicate PrintableBinding(b: Binding) {
    b.position <= INT_MAX && 1 <= b.elements <= SIZE_MAX && ':' !in b.path
  }

  predicate Tolerance(text: string, number: Number) {
    ':' !in text && text != "" && number(text).Some? && number(text).value >= 0.0
  }

  predicate PrintableExpectation(e: ExpectText, number: Number) {
    ':' !in e.path && Tolerance(e.atol, number) && Tolerance(e.rtol, number)
  }

  predicate PrintableEntry(b: DescriptorBinding, number: Number) {
    PrintableBinding(b.binding) && (HasCheck(b) ==> PrintableExpectation(b.check.value, number))
  }

  predicate PrintableWorkgroups(d: Descriptor) {
    d.workgroupCount.Some? ==> forall n :: n in d.workgroupCount.value ==> n <= SIZE_MAX
  }

  predicate OptionsPrintable(d: Descriptor) {
    PrintableWorkgroups(d) && forall c :: c in d.configs ==> PrintableConfig(c)
  }

  predicate EntriesPrintable(d: Descriptor, number: Number) {
    && (forall s :: s in d.scalars ==> PrintableScalar(s, number))
    && (forall b :: b in d.bindings ==> PrintableEntry(b, number))
  }

  // What the flag text can carry.
  predicate Printable(d: Descriptor, number: Number) {
    OptionsPrintable(d) && EntriesPrintable(d, number)
  }

  function Expected(position: int, e: ExpectText, number: Number): Expectation
    requires PrintableExpectation(e, number)
  {
    Expectation(position, e.path, number(e.atol).value, number(e.rtol).value)
  }

  function Expectations(bindings: seq<DescriptorBinding>, number: Number): seq<Expectation>
    requires forall b :: b in bindings ==> PrintableEntry(b, number)
  {
    if bindings == [] then []
    else
      var b := bindings[0];
      assert b in bindings && PrintableEntry(b, number);
      (if HasCheck(b) then [Expected(b.binding.position, b.check.value, number)] else [])
      + Expectations(bindings[1..], number)
  }

  // The invocation the descriptor stands for, its scalars and bindings in ABI order.
  function Meant(d: Descriptor, number: Number): Invocation
    requires Printable(d, number)
  {
    Invocation(
      d.kernel, d.root, d.target, d.output,
      if d.loomLink.Some? then d.loomLink.value else "loom-link",
      if d.configs != [] then d.linkedOutput else "",
      if d.runLoom.Some? then d.runLoom.value else "ggml-hrx-run-loom",
      if d.workgroupCount.Some? then Join(Decimals(d.workgroupCount.value), ',') else "",
      d.execute, d.execute,
      d.configs,
      SortByPosition(d.scalars, ScalarPosition),
      SortByPosition(Plain(d.bindings), BindingPosition),
      Expectations(d.bindings, number))
  }

  //////////////////////////////////////////////////////////////////////////////
  // One flag
  //////////////////////////////////////////////////////////////////////////////

  lemma FiveFields(a: string, b: string, c: string, d: string, e: string)
    ensures var parts := SplitFrom(Join([a, b, c, d, e], ':'), ':', 0);
            && (|parts| == 5 <==> ':' !in a && ':' !in b && ':' !in c && ':' !in d && ':' !in e)
            && (|parts| == 5 ==> parts == [a, b, c, d, e])
  {
    var fields := [a, b, c, d, e];
    FieldsSurviveIff(fields, ':');
    assert fields[0] == a && fields[1] == b && fields[2] == c && fields[3] == d && fields[4] == e;
  }

  lemma PrintedIntParsesIff(n: nat)
    ensures ParseInt(Decimal(n)) == if n <= INT_MAX then Some(n) else None
    ensures ParseSize(Decimal(n)) == if n <= SIZE_MAX then Some(n) else None
    ensures ':' !in Decimal(n) && ',' !in Decimal(n)
  {
    DecimalRoundTrip(n);
  }

  /** A printed binding parses exactly when it is printable, and then unchanged. */
  lemma BindingSurvivesIff(b: Binding)
    requires b.position >= 0 && b.path != ""
    ensures ParseBinding(BindingText(b)) == if PrintableBinding(b) then Some(b) else None
  {
    PrintedIntParsesIff(b.position);
    PrintedIntParsesIff(b.elements);
    NamesParse(b.kind, b.dtype);
    FiveFields(Decimal(b.position), KindName(b.kind), DTypeName(b.dtype), Decimal(b.elements), b.path);
  }

  lemma ScalarSurvivesIff(s: ScalarArg, number: Number)
    requires s.position >= 0
    ensures ParseScalar(ScalarText(s), number) == if PrintableScalar(s, number) then Some(s) else None
  {
    var fields := [Decimal(s.position), DTypeName(s.dtype), s.value];
    PrintedIntParsesIff(s.position);
    NamesParse(Input, s.dtype);
    FieldsSurviveIff(fields, ':');
    assert fields[0] == Decimal(s.position) && fields[1] == DTypeName(s.dtype) && fields[2] == s.value;
  }

  lemma ExpectationSurvivesIff(position: nat, e: ExpectText, number: Number)
    requires e.path != ""
    ensures ParseExpectation(ExpectationText(position, e), number)
      == if position <= INT_MAX && PrintableExpectation(e, number) then Some(Expected(position, e, number)) else None
  {
    PrintedIntParsesIff(position);
    FiveFields(Decimal(position), "close", e.path, e.atol, e.rtol);
  }

  /** A printed configuration entry parses back to itself exactly when its key holds no equals sign
      and its value is not empty. */
  lemma ConfigSurvivesIff(key: string, value: string)
    requires key != ""
    ensures ParseConfig(key + "=" + value) == Some((key, value)) <==> PrintableConfig((key, value))
  {
    var raw := key + "=" + value;
    var split := FindFrom(raw, '=', 0);
    if '=' !in key {
      assert raw[0..|key|] == key && raw[|key|] == '=';
      FindIs(raw, '=', 0, |key|);
      assert raw[..split] == key && raw[split + 1..] == value;
    } else if split < |raw| {
      assert raw[..split] == raw[0..split];
    }
  }

  lemma WorkgroupsSurviveIff(counts: seq<nat>)
    requires |counts| == 3 && forall n :: n in counts ==> n > 0
    ensures ValidWorkgroupCount(Join(Decimals(counts), ',')) <==> forall n :: n in counts ==> n <= SIZE_MAX
  {
    var fields := Decimals(counts);
    forall i | 0 <= i < 3 ensures ',' !in fields[i]
      && ParseSize(fields[i]) == if counts[i] <= SIZE_MAX then Some(counts[i]) else None
    {
      PrintedIntParsesIff(counts[i]);
    }
    FieldsSurviveIff(fields, ',');
    var parts := SplitFrom(Join(fields, ','), ',', 0);
    assert parts == fields && |parts| == 3;
    if ValidWorkgroupCount(Join(fields, ',')) {
      forall i | 0 <= i < 3 ensures counts[i] <= SIZE_MAX {
        assert ParseSize(parts[i]).Some?;
      }
    }
    if forall n :: n in counts ==> n <= SIZE_MAX {
      forall i | 0 <= i < 3 ensures ParseSize(parts[i]).Some? && ParseSize(parts[i]).value > 0 {
        assert counts[i] in counts;
      }
    }
  }

  //////////////////////////////////////////////////////////////////////////////
  // Many flags
  //////////////////////////////////////////////////////////////////////////////

  function ApplyAll(state: State, pairs: Pairs, number: Number): State
    decreases |pairs|
  {
    if pairs == [] then state
    else
      assert pairs[0] in pairs;
      ApplyAll(Apply(state, pairs[0].0, pairs[0].1, number), pairs[1..], number)
  }

  /** The argument loop reads printed flags back one by one. */
  lemma {:induction false} ParsePairs(pairs: Pairs, rest: seq<string>, state: State, number: Number)
    ensures ParseFrom(Arguments(pairs) + rest, state, number) == ParseFrom(rest, ApplyAll(state, pairs, number), number)
  {
    if pairs == [] {
      assert Arguments(pairs) + rest == rest;
    } else {
      var (flag, value) := pairs[0];
      assert Arguments(pairs) + rest == [FlagName(flag), value] + (Arguments(pairs[1..]) + rest);
      ParseOnePair(flag, value, Arguments(pairs[1..]) + rest, state, number);
      ParsePairs(pairs[1..], rest, Apply(state, flag, value, number), number);
    }
  }

  lemma ParseOnePair(flag: ValuedFlag, value: string, rest: seq<string>, state: State, number: Number)
    ensures ParseFrom([FlagName(flag), value] + rest, state, number)
         == ParseFrom(rest, Apply(state, flag, value, number), number)
  {
    var args := [FlagName(flag), value] + rest;
    FlagNameParses(flag);
    assert args[2..] == rest;
  }

  lemma {:induction false} ApplyInParts(state: State, p: Pairs, q: Pairs, number: Number)
    ensures ApplyAll(state, p + q, number) == ApplyAll(ApplyAll(state, p, number), q, number)
    decreases |p|
  {
    if p == [] {
      assert p + q == q;
    } else {
      assert p[0] in p;
      assert (p + q)[1..] == p[1..] + q;
      ApplyInParts(Apply(state, p[0].0, p[0].1, number), p[1..], q, number);
    }
  }

  lemma ApplyFirst(state: State, flag: ValuedFlag, value: string, rest: Pairs, number: Number)
    ensures ApplyAll(state, [(flag, value)] + rest, number) == ApplyAll(Apply(state, flag, value, number), rest, number)
  {
    assert ([(flag, value)] + rest)[1..] == rest;
  }

  lemma {:induction false} FailureSticks(state: State, pairs: Pairs, number: Number)
    requires state.failed
    ensures ApplyAll(state, pairs, number).failed
    decreases |pairs|
  {
    if pairs != [] {
      assert pairs[0] in pairs;
      FailureSticks(Apply(state, pairs[0].0, pairs[0].1, number), pairs[1..], number);
    }
  }

  // Configuration flags only append, one entry each, and append the entries themselves exactly
  // when all are printable.
  lemma {:induction false} ApplyConfigs(state: State, configs: seq<(string, string)>, number: Number)
    requires !state.failed && forall c :: c in configs ==> c.0 != ""
    ensures var r, before := ApplyAll(state, ConfigPairs(configs), number), state.invocation.configs;
      && (!r.failed ==> (
        && before <= r.invocation.configs && |r.invocation.configs| == |before| + |configs|
        && r.invocation == state.invocation.(configs := r.invocation.configs)))
      && (!r.failed && r.invocation.configs == before + configs <==> forall c :: c in configs ==> PrintableConfig(c))
    decreases |configs|
  {
    if configs == [] {
      assert state.invocation.configs + configs == state.invocation.configs;
    } else {
      var (key, value) := configs[0];
      assert configs[0] in configs;
      assert configs == [configs[0]] + configs[1..];
      ConfigSurvivesIff(key, value);
      var next := Apply(state, Config, key + "=" + value, number);
      if next.failed {
        FailureSticks(next, ConfigPairs(configs[1..]), number);
      } else {
        ApplyConfigs(next, configs[1..], number);
        var r, before := ApplyAll(next, ConfigPairs(configs[1..]), number), state.invocation.configs;
        assert next.invocation.configs == before + [ParseConfig(key + "=" + value).value];
        if !r.failed {
          assert r.invocation.configs[|before|] == next.invocation.configs[|before|];
          assert before + configs == before + [configs[0]] + configs[1..];
        }
      }
    }
  }

  lemma {:induction false} ApplyScalars(state: State, scalars: seq<ScalarArg>, number: Number)
    requires !state.failed && forall s :: s in scalars ==> s.position >= 0
    ensures var r := ApplyAll(state, ScalarPairs(scalars), number);
      && (!r.failed <==> forall s :: s in scalars ==> PrintableScalar(s, number))
      && (!r.failed ==> r.invocation == state.invocation.(scalars := state.invocation.scalars + scalars))
    decreases |scalars|
  {
    if scalars == [] {
      assert state.invocation.scalars + scalars == state.invocation.scalars;
    } else {
      var s := scalars[0];
      assert s in scalars && scalars == [s] + scalars[1..];
      ApplyOneScalar(state, s, number);
      var next, rest := Apply(state, ScalarFlag, ScalarText(s), number), ScalarPairs(scalars[1..]);
      assert ScalarPairs(scalars) == [(ScalarFlag, ScalarText(s))] + rest;
      ApplyFirst(state, ScalarFlag, ScalarText(s), rest, number);
      if next.failed {
        FailureSticks(next, rest, number);
      } else {
        ApplyScalars(next, scalars[1..], number);
        AppendTwice(state.invocation.scalars, [s], scalars[1..]);
      }
    }
  }

  lemma ApplyOneScalar(state: State, s: ScalarArg, number: Number)
    requires !state.failed && s.position >= 0
    ensures var next := Apply(state, ScalarFlag, ScalarText(s), number);
      && (next.failed <==> !PrintableScalar(s, number))
      && (!next.failed ==> next.invocation == state.invocation.(scalars := state.invocation.scalars + [s]))
  {
    ScalarSurvivesIff(s, number);
  }

  predicate Describable(b: DescriptorBinding) {
    b.binding.position >= 0 && b.binding.path != "" && (HasCheck(b) ==> b.check.value.path != "")
  }

  function Extended(inv: Invocation, bindings: seq<DescriptorBinding>, number: Number): Invocation
    requires forall b :: b in bindings ==> PrintableEntry(b, number)
  {
    inv.(bindings := inv.bindings + Plain(bindings),
         expectations := inv.expectations + Expectations(bindings, number))
  }

  // One binding with the expectation of an output.
  lemma ApplyOne(state: State, b: DescriptorBinding, number: Number)
    requires !state.failed && Describable(b)
    ensures var r := ApplyAll(state, OneBinding(b), number);
      && (r.failed <==> !PrintableEntry(b, number))
      && (!r.failed ==> r.invocation == Extended(state.invocation, [b], number))
  {
    var next := Apply(state, BindingFlag, BindingText(b.binding), number);
    ApplyBindingFlag(state, b.binding, number);
    OneBindingApplies(state, b, number);
    ExpectationsOfOne(b, number);
    if HasCheck(b) && !next.failed {
      ApplyExpectFlag(next, b.binding.position, b.check.value, number);
    }
  }

  // The flags of one binding, applied in turn.
  lemma OneBindingApplies(state: State, b: DescriptorBinding, number: Number)
    requires b.binding.position >= 0
    ensures var next := Apply(state, BindingFlag, BindingText(b.binding), number);
      && ApplyAll(state, OneBinding(b), number)
         == (if HasCheck(b) then Apply(next, ExpectFlag, ExpectationText(b.binding.position, b.check.value), number)
             else next)
      && (next.failed ==> ApplyAll(state, OneBinding(b), number).failed)
  {
    var text := BindingText(b.binding);
    if HasCheck(b) {
      var check := ExpectationText(b.binding.position, b.check.value);
      assert OneBinding(b) == [(BindingFlag, text)] + ([(ExpectFlag, check)] + []);
      ApplyFirst(state, BindingFlag, text, [(ExpectFlag, check)] + [], number);
      ApplyFirst(Apply(state, BindingFlag, text, number), ExpectFlag, check, [], number);
    } else {
      assert OneBinding(b) == [(BindingFlag, text)] + [];
      ApplyFirst(state, BindingFlag, text, [], number);
    }
  }

  lemma ApplyBindingFlag(state: State, b: Binding, number: Number)
    requires !state.failed && b.position >= 0 && b.path != ""
    ensures Apply(state, BindingFlag, BindingText(b), number)
      == if PrintableBinding(b) then state.(invocation := state.invocation.(bindings := state.invocation.bindings + [b]))
         else state.(failed := true)
  {
    BindingSurvivesIff(b);
  }

  lemma ApplyExpectFlag(state: State, position: nat, e: ExpectText, number: Number)
    requires !state.failed && e.path != ""
    ensures Apply(state, ExpectFlag, ExpectationText(position, e), number)
      == if position <= INT_MAX && PrintableExpectation(e, number)
         then state.(invocation :=
           state.invocation.(expectations := state.invocation.expectations + [Expected(position, e, number)]))
         else state.(failed := true)
  {
    ExpectationSurvivesIff(position, e, number);
  }

  lemma ExpectationsOfOne(b: DescriptorBinding, number: Number)
    ensures PrintableEntry(b, number) ==>
      Expectations([b], number)
      == if HasCheck(b) then [Expected(b.binding.position, b.check.value, number)] else []
  {
    assert [b][1..] == [];
  }

  lemma ExpectationsInParts(b: DescriptorBinding, rest: seq<DescriptorBinding>, number: Number)
    requires PrintableEntry(b, number) && forall e :: e in rest ==> PrintableEntry(e, number)
    ensures Expectations([b] + rest, number) == Expectations([b], number) + Expectations(rest, number)
  {
    assert ([b] + rest)[1..] == rest && [b][1..] == [];
  }

  lemma ExtendedInParts(inv: Invocation, b: DescriptorBinding, rest: seq<DescriptorBinding>, number: Number)
    requires PrintableEntry(b, number) && forall e :: e in rest ==> PrintableEntry(e, number)
    ensures Extended(inv, [b] + rest, number) == Extended(Extended(inv, [b], number), rest, number)
  {
    PlainInParts(b, rest);
    ExpectationsInParts(b, rest, number);
    AppendTwice(inv.bindings, Plain([b]), Plain(rest));
    AppendTwice(inv.expectations, Expectations([b], number), Expectations(rest, number));
  }

  lemma PlainInParts(b: DescriptorBinding, rest: seq<DescriptorBinding>)
    ensures Plain([b] + rest) == Plain([b]) + Plain(rest)
  {
  }

  lemma AppendTwice<T>(a: seq<T>, b: seq<T>, c: seq<T>)
    ensures a + (b + c) == a + b + c
  {
  }

  lemma {:induction false} ApplyBindings(state: State, bindings: seq<DescriptorBinding>, number: Number)
    requires !state.failed && forall b :: b in bindings ==> b.binding.position >= 0 && Describable(b)
    ensures var r := ApplyAll(state, BindingPairs(bindings), number);
      && (r.failed <==> exists b :: b in bindings && !PrintableEntry(b, number))
      && (!r.failed ==> r.invocation == Extended(state.invocation, bindings, number))
    decreases |bindings|
  {
    if bindings == [] {
      assert Extended(state.invocation, bindings, number) == state.invocation;
    } else {
      var b, rest := bindings[0], bindings[1..];
      assert b in bindings && bindings == [b] + rest;
      ApplyOne(state, b, number);
      ApplyInParts(state, OneBinding(b), BindingPairs(rest), number);
      var next := ApplyAll(state, OneBinding(b), number);
      if next.failed {
        FailureSticks(next, BindingPairs(rest), number);
      } else {
        ApplyBindings(next, rest, number);
        if forall e :: e in rest ==> PrintableEntry(e, number) {
          ExtendedInParts(state.invocation, b, rest, number);
        }
      }
    }
  }

  //////////////////////////////////////////////////////////////////////////////
  // The whole command line
  //////////////////////////////////////////////////////////////////////////////

  const START := State(DEFAULT_INVOCATION, false)

  function Optional(state: State, flag: ValuedFlag, value: Option<string>, number: Number): State
  {
    if value.Some? then Apply(state, flag, value.value, number) else state
  }

  lemma ApplyOption(state: State, flag: ValuedFlag, value: Option<string>, number: Number)
    ensures ApplyAll(state, OptionPair(flag, value), number)
      == Optional(state, flag, value, number)
  {
    if value.Some? {
      ApplyFirst(state, flag, value.value, [], number);
      assert [(flag, value.value)] + [] == OptionPair(flag, value);
    }
  }

  function AfterHead(d: Descriptor): Invocation {
    DEFAULT_INVOCATION.(
      kernelPath := d.kernel, rootSymbol := d.root, target := d.target, outputPath := d.output,
      workgroupCount := if d.workgroupCount.Some? then Join(Decimals(d.workgroupCount.value), ',') else "")
  }

  function Names(d: Descriptor): (r: Pairs)
  {
    [(Kernel, d.kernel), (Root, d.root), (Target, d.target), (OutputFile, d.output)]
  }

  lemma ApplyNames(d: Descriptor, number: Number)
    ensures ApplyAll(START, Names(d), number) == State(DEFAULT_INVOCATION.(
      kernelPath := d.kernel, rootSymbol := d.root, target := d.target, outputPath := d.output), false)
  {
    var four := Names(d);
    var s1 := Apply(START, Kernel, d.kernel, number);
    var s2 := Apply(s1, Root, d.root, number);
    var s3 := Apply(s2, Target, d.target, number);
    assert four == [(Kernel, d.kernel)] + four[1..];
    ApplyFirst(START, Kernel, d.kernel, four[1..], number);
    assert four[1..] == [(Root, d.root)] + four[2..];
    ApplyFirst(s1, Root, d.root, four[2..], number);
    assert four[2..] == [(Target, d.target)] + four[3..];
    ApplyFirst(s2, Target, d.target, four[3..], number);
    assert four[3..] == [(OutputFile, d.output)] + [];
    ApplyFirst(s3, OutputFile, d.output, [], number);
  }

  lemma ApplyHead(d: Descriptor, number: Number)
    requires Validated(d)
    ensures ApplyAll(START, HeadPairs(d), number).failed <==> !PrintableWorkgroups(d)
    ensures PrintableWorkgroups(d) ==> ApplyAll(START, HeadPairs(d), number).invocation == AfterHead(d)
  {
    ApplyNames(d, number);
    var s, count := ApplyAll(START, Names(d), number), WorkgroupText(d);
    ApplyOption(s, WorkgroupCount, count, number);
    ApplyInParts(START, Names(d), OptionPair(WorkgroupCount, count), number);
    assert HeadPairs(d) == Names(d) + OptionPair(WorkgroupCount, count);
    if count.Some? {
      WorkgroupsSurviveIff(d.workgroupCount.value);
    }
  }

  function WorkgroupText(d: Descriptor): Option<string> {
    if d.workgroupCount.Some? then Some(Join(Decimals(d.workgroupCount.value), ',')) else None
  }

  function AfterTools(inv: Invocation, d: Descriptor): Invocation {
    inv.(loomLinkPath := if d.loomLink.Some? then d.loomLink.value else inv.loomLinkPath,
         linkedKernelOutput := if d.configs != [] then d.linkedOutput else inv.linkedKernelOutput,
         runLoomPath := if d.runLoom.Some? then d.runLoom.value else inv.runLoomPath)
  }

  lemma ApplyTools(state: State, d: Descriptor, number: Number)
    ensures ApplyAll(state, ToolPairs(d), number) == state.(invocation := AfterTools(state.invocation, d))
  {
    var linked := if d.configs != [] then Some(d.linkedOutput) else None;
    var p, q := OptionPair(LoomLink, d.loomLink), OptionPair(LinkedKernelOutput, linked);
    var r := OptionPair(RunLoom, d.runLoom);
    ApplyOption(state, LoomLink, d.loomLink, number);
    var s1 := Optional(state, LoomLink, d.loomLink, number);
    ApplyOption(s1, LinkedKernelOutput, linked, number);
    var s2 := Optional(s1, LinkedKernelOutput, linked, number);
    ApplyOption(s2, RunLoom, d.runLoom, number);
    ApplyInParts(state, p, q, number);
    ApplyInParts(state, p + q, r, number);
    ToolsSet(state, d, number);
  }

  lemma ToolsSet(state: State, d: Descriptor, number: Number)
    ensures var linked := if d.configs != [] then Some(d.linkedOutput) else None;
      Optional(Optional(Optional(state, LoomLink, d.loomLink, number), LinkedKernelOutput, linked, number),
        RunLoom, d.runLoom, number) == state.(invocation := AfterTools(state.invocation, d))
  {
  }

  function Unsorted(d: Descriptor, number: Number): Invocation
    requires Printable(d, number)
  {
    var inv := AfterTools(AfterHead(d).(configs := d.configs), d);
    Extended(inv.(scalars := d.scalars), d.bindings, number).(emitCommand := d.execute, executeCommand := d.execute)
  }

  // The argument loop over a printed command line, section by section.
  lemma ApplyFive(state: State, p: Pairs, q: Pairs, r: Pairs, s: Pairs, t: Pairs, number: Number)
    ensures ApplyAll(state, p + q + r + s + t, number)
      == ApplyAll(ApplyAll(ApplyAll(ApplyAll(ApplyAll(state, p, number), q, number), r, number), s, number), t, number)
  {
    ApplyInParts(state, p, q, number);
    ApplyInParts(state, p + q, r, number);
    ApplyInParts(state, p + q + r, s, number);
    ApplyInParts(state, p + q + r + s, t, number);
  }

  lemma HeadAndConfigs(d: Descriptor, number: Number)
    requires Validated(d)
    ensures var r := ApplyAll(ApplyAll(START, HeadPairs(d), number), ConfigPairs(d.configs), number);
      && (!r.failed && r.invocation.configs == d.configs
        <==> OptionsPrintable(d))
      && (!r.failed ==> r.invocation == AfterHead(d).(configs := r.invocation.configs))
  {
    ApplyHead(d, number);
    var head := ApplyAll(START, HeadPairs(d), number);
    if head.failed {
      FailureSticks(head, ConfigPairs(d.configs), number);
    } else {
      ApplyConfigs(head, d.configs, number);
      assert [] + d.configs == d.configs;
    }
  }

  // The last two sections, from a state whose scalars, bindings and expectations are still empty.
  lemma ScalarsAndBindings(state: State, d: Descriptor, number: Number)
    requires Validated(d) && !state.failed
    ensures var r := ApplyAll(ApplyAll(state, ScalarPairs(d.scalars), number), BindingPairs(d.bindings), number);
      && (!r.failed <==> EntriesPrintable(d, number))
      && (!r.failed ==>
        r.invocation
        == Extended(state.invocation.(scalars := state.invocation.scalars + d.scalars), d.bindings, number))
  {
    ApplyScalars(state, d.scalars, number);
    var next := ApplyAll(state, ScalarPairs(d.scalars), number);
    if next.failed {
      FailureSticks(next, BindingPairs(d.bindings), number);
    } else {
      assert forall b :: b in d.bindings ==> Describable(b);
      ApplyBindings(next, d.bindings, number);
    }
  }

  predicate Configured(state: State, d: Descriptor) {
    && (!state.failed && state.invocation.configs == d.configs <==> OptionsPrintable(d))
    && (!state.failed ==> state.invocation == AfterTools(AfterHead(d).(configs := state.invocation.configs), d))
  }

  lemma FirstSections(d: Descriptor, number: Number)
    requires Validated(d)
    ensures var configured := ApplyAll(ApplyAll(START, HeadPairs(d), number), ConfigPairs(d.configs), number);
            Configured(ApplyAll(configured, ToolPairs(d), number), d)
  {
    HeadAndConfigs(d, number);
    ApplyTools(ApplyAll(ApplyAll(START, HeadPairs(d), number), ConfigPairs(d.configs), number), d, number);
  }

  predicate Applied(state: State, d: Descriptor, number: Number) {
    && (Printable(d, number) <==> !state.failed && state.invocation.configs == d.configs)
    && (Printable(d, number) ==>
      state.invocation.(emitCommand := d.execute, executeCommand := d.execute) == Unsorted(d, number))
    && (!state.failed ==> !state.invocation.emitCommand && !state.invocation.executeCommand)
  }

  lemma LastSections(state: State, d: Descriptor, number: Number)
    requires Validated(d) && Configured(state, d)
    ensures var scalars := ApplyAll(state, ScalarPairs(d.scalars), number);
            Applied(ApplyAll(scalars, BindingPairs(d.bindings), number), d, number)
  {
    if state.failed {
      FailureSticks(state, ScalarPairs(d.scalars), number);
      FailureSticks(ApplyAll(state, ScalarPairs(d.scalars), number), BindingPairs(d.bindings), number);
    } else {
      ScalarsAndBindings(state, d, number);
      assert state.invocation.scalars + d.scalars == d.scalars;
    }
  }

  lemma AllSections(d: Descriptor, number: Number)
    requires Validated(d)
    ensures Applied(ApplyAll(START, AllPairs(d), number), d, number)
  {
    ApplyFive(START, HeadPairs(d), ConfigPairs(d.configs), ToolPairs(d), ScalarPairs(d.scalars),
      BindingPairs(d.bindings), number);
    FirstSections(d, number);
    LastSections(
      ApplyAll(ApplyAll(ApplyAll(START, HeadPairs(d), number), ConfigPairs(d.configs), number), ToolPairs(d), number),
      d, number);
  }

  lemma PrintedArgumentsParse(d: Descriptor, number: Number)
    requires Validated(d)
    ensures var r := ParseFrom(Print(d), START, number);
      && (Printable(d, number) <==> !r.failed && r.invocation.configs == d.configs)
      && (Printable(d, number) ==> r.invocation == Unsorted(d, number))
  {
    AllSections(d, number);
    ParsePairs(AllPairs(d), ExecuteFlag(d), START, number);
    ParseExecuteFlag(d, ApplyAll(START, AllPairs(d), number), number);
  }

  function ExecuteFlag(d: Descriptor): seq<string> {
    if d.execute then [FlagName(ExecuteCommand)] else []
  }

  lemma ParseExecuteFlag(d: Descriptor, state: State, number: Number)
    ensures ParseFrom(ExecuteFlag(d), state, number) == if d.execute then Switch(state, ExecuteCommand) else state
  {
    FlagNameParses(ExecuteCommand);
    if d.execute {
      assert ExecuteFlag(d)[1..] == [];
    }
  }

  //////////////////////////////////////////////////////////////////////////////
  // Positions
  //////////////////////////////////////////////////////////////////////////////

  ghost predicate Avoids<T>(s: seq<T>, position: T -> int, p: int) {
    forall x :: x in s ==> position(x) != p
  }

  lemma SortMembers<T>(s: seq<T>, position: T -> int)
    ensures |SortByPosition(s, position)| == |s|
    ensures forall x :: x in SortByPosition(s, position) <==> x in s
  {
    var sorted := SortByPosition(s, position);
    assert |multiset(sorted)| == |sorted| && |multiset(s)| == |s|;
    assert forall x :: x in multiset(sorted) <==> x in sorted;
    assert forall x :: x in multiset(s) <==> x in s;
  }

  lemma {:induction false} InsertKeepsDistinct<T>(x: T, s: seq<T>, position: T -> int)
    requires DistinctBy(s, position) && Avoids(s, position, position(x))
    ensures DistinctBy(InsertByPosition(x, s, position), position)
  {
    if s != [] && position(x) > position(s[0]) {
      var rest := InsertByPosition(x, s[1..], position);
      InsertKeepsDistinct(x, s[1..], position);
      forall i | 0 <= i < |rest| ensures position(rest[i]) != position(s[0]) {
        assert rest[i] in multiset(rest);
        assert rest[i] == x || rest[i] in s[1..];
      }
    }
  }

  lemma {:induction false} SortKeepsDistinct<T>(s: seq<T>, position: T -> int)
    requires DistinctBy(s, position)
    ensures DistinctBy(SortByPosition(s, position), position)
  {
    if s != [] {
      SortKeepsDistinct(s[1..], position);
      SortMembers(s[1..], position);
      var sorted, rest := SortByPosition(s[1..], position), s[1..];
      forall x | x in sorted ensures position(x) != position(s[0]) {
        assert x in multiset(sorted) && x in multiset(rest);
        var k :| 1 <= k < |s| && s[k] == x;
      }
      InsertKeepsDistinct(s[0], sorted, position);
    }
  }

  lemma SameStart<T>(a: seq<T>, b: seq<T>, position: T -> int)
    requires Ascending(a, position) && Ascending(b, position) && DistinctBy(b, position)
    requires multiset(a) == multiset(b) && a != []
    ensures b != [] && a[0] == b[0] && multiset(a[1..]) == multiset(b[1..])
  {
    assert a[0] in multiset(a);
    var j :| 0 <= j < |b| && b[j] == a[0];
    assert b[0] in multiset(b);
    var i :| 0 <= i < |a| && a[i] == b[0];
    assert position(a[0]) <= position(a[i]) && position(b[0]) <= position(b[j]);
    assert j == 0;
    Permutations.TailOf(a);
    Permutations.TailOf(b);
  }

  /** With distinct positions there is only one ascending order, so the result does not depend on how
      std::sort, which is not stable, arrives at it. */
  lemma {:induction false} OrderIsUnique<T>(a: seq<T>, b: seq<T>, position: T -> int)
    requires Ascending(a, position) && Ascending(b, position) && DistinctBy(b, position)
    requires multiset(a) == multiset(b)
    ensures a == b
    decreases |a|
  {
    assert |multiset(a)| == |a| && |multiset(b)| == |b|;
    if a != [] {
      SameStart(a, b, position);
      OrderIsUnique(a[1..], b[1..], position);
      assert a == [a[0]] + a[1..] && b == [b[0]] + b[1..];
    }
  }

  function ExpectationPosition(e: Expectation): int { e.position }

  lemma {:induction false} ExpectationsAreOnOutputs(bindings: seq<DescriptorBinding>, number: Number)
    requires forall b :: b in bindings ==> PrintableEntry(b, number)
    requires DistinctBy(Plain(bindings), BindingPosition)
    ensures DistinctBy(Expectations(bindings, number), ExpectationPosition)
    ensures forall e :: e in Expectations(bindings, number) ==> IsOutput(Plain(bindings), e.position)
  {
    if bindings != [] {
      var b, rest := bindings[0], bindings[1..];
      assert b in bindings;
      var plain := Plain(bindings);
      assert plain[1..] == Plain(rest);
      ExpectationsAreOnOutputs(rest, number);
      forall e | e in Expectations(rest, number)
        ensures IsOutput(plain, e.position) && e.position != b.binding.position
      {
        var j :| 0 <= j < |rest| && Plain(rest)[j].position == e.position && Plain(rest)[j].kind == Output;
        assert plain[j + 1] == Plain(rest)[j];
      }
      if HasCheck(b) {
        assert plain[0].kind == Output;
      }
    }
  }

  lemma OutputsSurviveSorting(bindings: seq<Binding>, p: int)
    requires IsOutput(bindings, p)
    ensures IsOutput(SortByPosition(bindings, BindingPosition), p)
  {
    var sorted := SortByPosition(bindings, BindingPosition);
    var j :| 0 <= j < |bindings| && bindings[j].position == p && bindings[j].kind == Output;
    SortMembers(bindings, BindingPosition);
    assert bindings[j] in sorted;
    var k :| 0 <= k < |sorted| && sorted[k] == bindings[j];
  }

  lemma SortingKeepsPositionsDistinct(inv: Invocation)
    requires DistinctBy(inv.scalars, ScalarPosition) && DistinctBy(inv.bindings, BindingPosition)
    requires DisjointPositions(inv.scalars, inv.bindings)
    ensures DistinctPositions(SortedInvocation(inv))
  {
    SortKeepsDistinct(inv.scalars, ScalarPosition);
    SortKeepsDistinct(inv.bindings, BindingPosition);
    SortingKeepsDisjoint(inv.scalars, inv.bindings);
    var r := SortedInvocation(inv);
    assert forall i, j :: 0 <= i < j < |r.scalars| ==> ScalarPosition(r.scalars[i]) != ScalarPosition(r.scalars[j]);
    assert forall i, j :: 0 <= i < j < |r.bindings| ==>
      BindingPosition(r.bindings[i]) != BindingPosition(r.bindings[j]);
  }

  lemma SortingKeepsDisjoint(scalars: seq<ScalarArg>, bindings: seq<Binding>)
    requires DisjointPositions(scalars, bindings)
    ensures DisjointPositions(SortByPosition(scalars, ScalarPosition), SortByPosition(bindings, BindingPosition))
  {
    SortMembers(scalars, ScalarPosition);
    SortMembers(bindings, BindingPosition);
  }

  lemma SortingKeepsExpectationsMatched(inv: Invocation)
    requires DistinctBy(inv.expectations, ExpectationPosition)
    requires forall e :: e in inv.expectations ==> IsOutput(inv.bindings, e.position)
    ensures ExpectationsMatch(SortedInvocation(inv))
  {
    var es := inv.expectations;
    assert forall i, j :: 0 <= i < j < |es| ==> ExpectationPosition(es[i]) != ExpectationPosition(es[j]);
    forall i | 0 <= i < |es| ensures IsOutput(SortByPosition(inv.bindings, BindingPosition), es[i].position) {
      assert es[i] in es;
      OutputsSurviveSorting(inv.bindings, es[i].position);
    }
  }

  lemma UnsortedFields(d: Descriptor, number: Number)
    requires Printable(d, number)
    ensures var raw := Unsorted(d, number);
      && raw.scalars == d.scalars
      && raw.bindings == Plain(d.bindings)
      && raw.expectations == Expectations(d.bindings, number)
  {
  }

  lemma MeantIsSorted(d: Descriptor, number: Number)
    requires Printable(d, number)
    ensures SortedInvocation(Unsorted(d, number)) == Meant(d, number)
  {
    UnsortedFields(d, number);
  }

  lemma NothingIsMissing(d: Descriptor, number: Number)
    requires Validated(d) && Printable(d, number)
    ensures HasRequired(Unsorted(d, number))
  {
    UnsortedFields(d, number);
  }

  lemma SortedIsConsistent(d: Descriptor, number: Number)
    requires Validated(d) && Printable(d, number)
    ensures Consistent(SortedInvocation(Unsorted(d, number)))
  {
    UnsortedFields(d, number);
    SortingKeepsPositionsDistinct(Unsorted(d, number));
    ExpectationsAreOnOutputs(d.bindings, number);
    SortingKeepsExpectationsMatched(Unsorted(d, number));
  }

  lemma MeantIsConsistent(d: Descriptor, number: Number)
    requires Validated(d) && Printable(d, number)
    ensures HasRequired(Unsorted(d, number)) && Consistent(Meant(d, number))
    ensures SortedInvocation(Unsorted(d, number)) == Meant(d, number)
  {
    NothingIsMissing(d, number);
    SortedIsConsistent(d, number);
    MeantIsSorted(d, number);
  }

  //////////////////////////////////////////////////////////////////////////////
  // Main results
  //////////////////////////////////////////////////////////////////////////////

  /** For a validated descriptor the parser returns the invocation it stands for exactly when the
      flag text can carry it; otherwise it reports an error or mistakes a configuration entry. */
  lemma PrintedDescriptorsParseBackIff(d: Descriptor, number: Number)
    requires Validated(d)
    ensures Printable(d, number) ==> Parse(Print(d), number) == Some(Meant(d, number))
    ensures Printable(d, number)
      <==> Parse(Print(d), number).Some? && Parse(Print(d), number).value.configs == d.configs
  {
    PrintedArgumentsParse(d, number);
    if Printable(d, number) {
      MeantIsConsistent(d, number);
    }
  }

  /** Whatever is accepted has every required field, its scalars and bindings in strictly ascending
      ABI order without a shared position, and every expectation on a distinct output. */
  lemma AcceptedInvocationsAreOrdered(args: seq<string>, number: Number)
    ensures Parse(args, number).Some? ==>
      var inv := Parse(args, number).value;
      && inv.kernelPath != "" && inv.rootSymbol != "" && inv.target != "" && inv.outputPath != "" && inv.bindings != []
      && (forall i, j :: 0 <= i < j < |inv.scalars| ==> inv.scalars[i].position < inv.scalars[j].position)
      && (forall i, j :: 0 <= i < j < |inv.bindings| ==> inv.bindings[i].position < inv.bindings[j].position)
      && (forall s, b :: s in inv.scalars && b in inv.bindings ==> s.position != b.position)
      && DistinctBy(inv.expectations, ExpectationPosition)
      && (forall e :: e in inv.expectations ==> IsOutput(inv.bindings, e.position))
  {
    var raw := ParseFrom(args, START, number).invocation;
    if Parse(args, number).Some? {
      SortedStrictly(raw);
      SortMembers(raw.bindings, BindingPosition);
      assert raw.bindings != [];
    }
  }

  lemma SortedStrictly(raw: Invocation)
    requires DistinctPositions(SortedInvocation(raw))
    ensures var inv := SortedInvocation(raw);
      && (forall i, j :: 0 <= i < j < |inv.scalars| ==> inv.scalars[i].position < inv.scalars[j].position)
      && (forall i, j :: 0 <= i < j < |inv.bindings| ==> inv.bindings[i].position < inv.bindings[j].position)
  {
    var inv := SortedInvocation(raw);
    SortAscends(raw.scalars, ScalarPosition);
    SortAscends(raw.bindings, BindingPosition);
    assert forall i, j :: 0 <= i < j < |inv.scalars| ==>
      ScalarPosition(inv.scalars[i]) <= ScalarPosition(inv.scalars[j]);
    assert forall i, j :: 0 <= i < j < |inv.bindings| ==>
      BindingPosition(inv.bindings[i]) <= BindingPosition(inv.bindings[j]);
  }

  const EMPTY_VALUE := Descriptor(
    "k.loom", "@main", "gfx", "out.json", None, [("threads", "")], None, "linked.loom", None, [],
    [DescriptorBinding(Binding(0, Input, F32, 1, "a.npy"), None)], false)

  /** A descriptor with an empty configuration value passes validation, but the parser never returns
      its configuration. */
  lemma EmptyConfigValueIsLost(number: Number)
    ensures Validated(EMPTY_VALUE)
    ensures var parsed := Parse(Print(EMPTY_VALUE), number);
            !(parsed.Some? && parsed.value.configs == EMPTY_VALUE.configs)
  {
    assert EMPTY_VALUE.configs[0] in EMPTY_VALUE.configs;
    PrintedDescriptorsParseBackIff(EMPTY_VALUE, number);
  }
}
