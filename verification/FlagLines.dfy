// The command line itself: how every flag is spelled, where every field of a descriptor ends up, and what
// the parser refuses.
module FlagLines {
  import opened Wrappers
  import opened Text
  import opened FlagText
  import opened Flags
  import opened FlagRoundTrip

  //////////////////////////////////////////////////////////////////////////////
  // Spelling
  //////////////////////////////////////////////////////////////////////////////

  lemma JoinThree(a: string, b: string, c: string, delimiter: char)
    ensures Join([a, b, c], delimiter) == a + [delimiter] + b + [delimiter] + c
  {
    JoinFirst(a, [b, c], delimiter);
    JoinFirst(b, [c], delimiter);
    assert [a, b, c] == [a] + [b, c] && [b, c] == [b] + [c];
  }

  lemma JoinFive(a: string, b: string, c: string, d: string, e: string, delimiter: char)
    ensures Join([a, b, c, d, e], delimiter)
      == a + [delimiter] + b + [delimiter] + c + [delimiter] + d + [delimiter] + e
  {
    JoinFirst(a, [b, c, d, e], delimiter);
    JoinFirst(b, [c, d, e], delimiter);
    JoinThree(c, d, e, delimiter);
    assert [a, b, c, d, e] == [a] + [b, c, d, e] && [b, c, d, e] == [b] + [c, d, e];
  }

  /** A binding is printed as position, kind, element type, element count and path. */
  lemma BindingIsSpelled(b: Binding)
    requires b.position >= 0
    ensures BindingText(b) == Decimal(b.position) + [':'] + KindName(b.kind) + [':'] + DTypeName(b.dtype) + [':']
      + Decimal(b.elements) + [':'] + b.path
  {
    JoinFive(Decimal(b.position), KindName(b.kind), DTypeName(b.dtype), Decimal(b.elements), b.path, ':');
  }

  /** A scalar is printed as position, element type and value. */
  lemma ScalarIsSpelled(s: ScalarArg)
    requires s.position >= 0
    ensures ScalarText(s) == Decimal(s.position) + [':'] + DTypeName(s.dtype) + [':'] + s.value
  {
    JoinThree(Decimal(s.position), DTypeName(s.dtype), s.value, ':');
  }

  /** An expectation is printed as position, mode, path and the two tolerances. */
  lemma ExpectationIsSpelled(position: nat, e: ExpectText)
    ensures ExpectationText(position, e)
      == Decimal(position) + [':'] + "close" + [':'] + e.path + [':'] + e.atol + [':'] + e.rtol
  {
    JoinFive(Decimal(position), "close", e.path, e.atol, e.rtol, ':');
  }

  /** Workgroup counts are printed with commas between them. */
  lemma WorkgroupsAreSpelled(x: nat, y: nat, z: nat)
    ensures Join(Decimals([x, y, z]), ',') == Decimal(x) + [','] + Decimal(y) + [','] + Decimal(z)
  {
    assert Decimals([x, y, z]) == [Decimal(x), Decimal(y), Decimal(z)];
    JoinThree(Decimal(x), Decimal(y), Decimal(z), ',');
  }

  /** The words of the format, which printing and parsing share. */
  lemma Words()
    ensures ParseBindingKind("input") == Some(Input) && ParseBindingKind("output") == Some(Output)
    ensures ParseDType("bf16") == Some(BF16) && ParseDType("f32") == Some(F32) && ParseDType("f16") == Some(F16)
    ensures ParseDType("i32") == Some(I32) && ParseDType("q4_k") == Some(Q4K) && ParseDType("q5_k") == Some(Q5K)
    ensures ParseDType("q6_k") == Some(Q6K) && ParseDType("q8_0") == Some(Q8Zero)
  {
    NamesParse(Input, BF16);
    NamesParse(Output, F32);
    NamesParse(Input, F16);
    NamesParse(Input, I32);
    NamesParse(Input, Q4K);
    NamesParse(Input, Q5K);
    NamesParse(Input, Q6K);
    NamesParse(Input, Q8Zero);
  }

  lemma FlagWords()
    ensures FlagOf("--kernel") == Some(Kernel) && FlagOf("--root") == Some(Root) && FlagOf("--target") == Some(Target)
    ensures FlagOf("--output") == Some(OutputFile) && FlagOf("--loom-link") == Some(LoomLink)
    ensures FlagOf("--linked-kernel-output") == Some(LinkedKernelOutput)
    ensures FlagOf("--ggml-hrx-run-loom") == Some(RunLoom) && FlagOf("--workgroup-count") == Some(WorkgroupCount)
  {
    FlagNameParses(Kernel);
    FlagNameParses(Root);
    FlagNameParses(Target);
    FlagNameParses(OutputFile);
    FlagNameParses(LoomLink);
    FlagNameParses(LinkedKernelOutput);
    FlagNameParses(RunLoom);
    FlagNameParses(WorkgroupCount);
  }

  lemma MoreFlagWords()
    ensures FlagOf("--emit-ggml-hrx-run-loom-command") == Some(EmitCommand)
    ensures FlagOf("--execute-ggml-hrx-run-loom-command") == Some(ExecuteCommand)
    ensures FlagOf("--config") == Some(Config) && FlagOf("--binding") == Some(BindingFlag)
    ensures FlagOf("--scalar") == Some(ScalarFlag) && FlagOf("--expect") == Some(ExpectFlag)
  {
    FlagNameParses(EmitCommand);
    FlagNameParses(ExecuteCommand);
    FlagNameParses(Config);
    FlagNameParses(BindingFlag);
    FlagNameParses(ScalarFlag);
    FlagNameParses(ExpectFlag);
  }

  //////////////////////////////////////////////////////////////////////////////
  // Order
  //////////////////////////////////////////////////////////////////////////////

  lemma {:induction false} ArgumentsAlternate(pairs: Pairs)
    ensures |Arguments(pairs)| == 2 * |pairs|
    ensures forall k :: 0 <= k < |pairs| ==>
      Arguments(pairs)[2 * k] == FlagName(pairs[k].0) && Arguments(pairs)[2 * k + 1] == pairs[k].1
  {
    if pairs != [] {
      ArgumentsAlternate(pairs[1..]);
      forall k | 0 < k < |pairs|
        ensures Arguments(pairs)[2 * k] == FlagName(pairs[k].0) && Arguments(pairs)[2 * k + 1] == pairs[k].1
      {
        assert pairs[k] == pairs[1..][k - 1];
        assert Arguments(pairs)[2 * k] == Arguments(pairs[1..])[2 * (k - 1)];
        assert Arguments(pairs)[2 * k + 1] == Arguments(pairs[1..])[2 * (k - 1) + 1];
      }
    }
  }

  /** Every command line starts with the kernel, the root, the target and the output, each behind its
      flag, and ends with the execution switch exactly when execution is asked for. */
  lemma CommandFrame(d: Descriptor)
    requires NonNegativePositions(d)
    ensures |Print(d)| >= 8
    ensures Print(d)[0] == "--kernel" && Print(d)[1] == d.kernel && Print(d)[2] == "--root" && Print(d)[3] == d.root
    ensures Print(d)[4] == "--target" && Print(d)[5] == d.target && Print(d)[6] == "--output" && Print(d)[7] == d.output
    ensures d.execute ==> Print(d)[|Print(d)| - 1] == "--execute-ggml-hrx-run-loom-command"
    ensures d.execute <==> |Print(d)| % 2 == 1
  {
    var pairs := AllPairs(d);
    ArgumentsAlternate(pairs);
    assert pairs[0] == HeadPairs(d)[0] && pairs[1] == HeadPairs(d)[1];
    assert pairs[2] == HeadPairs(d)[2] && pairs[3] == HeadPairs(d)[3];
    assert Arguments(pairs)[2 * 1] == FlagName(pairs[1].0) && Arguments(pairs)[2 * 2] == FlagName(pairs[2].0);
    assert Arguments(pairs)[2 * 3] == FlagName(pairs[3].0) && Arguments(pairs)[2 * 0] == FlagName(pairs[0].0);
  }

  //////////////////////////////////////////////////////////////////////////////
  // Where every field ends up
  //////////////////////////////////////////////////////////////////////////////

  // A binding's expectation, if it is an output.
  ghost predicate Expects(b: DescriptorBinding, e: Expectation, number: Number) {
    && b.binding.kind == Output && b.check.Some?
    && e.position == b.binding.position && e.path == b.check.value.path
    && number(b.check.value.atol) == Some(e.atol) && number(b.check.value.rtol) == Some(e.rtol)
  }

  lemma {:induction false} ExpectationsOfOutputs(bindings: seq<DescriptorBinding>, number: Number)
    requires forall b :: b in bindings ==> PrintableEntry(b, number)
    ensures forall e :: e in Expectations(bindings, number) ==> exists b :: b in bindings && Expects(b, e, number)
    ensures forall b :: b in bindings && b.binding.kind == Output && b.check.Some? ==>
      exists e :: e in Expectations(bindings, number) && Expects(b, e, number)
  {
    if bindings != [] {
      var first, rest := bindings[0], bindings[1..];
      assert first in bindings && bindings == [first] + rest;
      ExpectationsOfOutputs(rest, number);
      var all, later := Expectations(bindings, number), Expectations(rest, number);
      if HasCheck(first) {
        var own := Expected(first.binding.position, first.check.value, number);
        assert all == [own] + later && Expects(first, own, number) && own in all;
      } else {
        assert all == later;
      }
      assert forall e :: e in later ==> e in all;
    }
  }

  /** What the parser returns for a printable descriptor, field by field: paths and names where they
      belong, defaults for the tools left out, configurations in order, scalars and bindings as they
      were, and the expectation of every output with its tolerances read as numbers. */
  lemma EveryFieldArrives(d: Descriptor, number: Number)
    requires Validated(d) && Printable(d, number)
    ensures Parse(Print(d), number).Some?
    ensures var inv := Parse(Print(d), number).value;
      && inv.kernelPath == d.kernel && inv.rootSymbol == d.root && inv.target == d.target && inv.outputPath == d.output
      && inv.loomLinkPath == (if d.loomLink.Some? then d.loomLink.value else "loom-link")
      && inv.runLoomPath == (if d.runLoom.Some? then d.runLoom.value else "ggml-hrx-run-loom")
      && inv.linkedKernelOutput == (if d.configs == [] then "" else d.linkedOutput)
      && inv.emitCommand == d.execute && inv.executeCommand == d.execute
      && inv.configs == d.configs
    ensures var inv := Parse(Print(d), number).value;
      && multiset(inv.scalars) == multiset(d.scalars)
      && multiset(inv.bindings) == multiset(Plain(d.bindings))
      && (forall e :: e in inv.expectations ==> exists b :: b in d.bindings && Expects(b, e, number))
      && (forall b :: b in d.bindings && b.binding.kind == Output ==>
           exists e :: e in inv.expectations && Expects(b, e, number))
  {
    PrintedDescriptorsParseBackIff(d, number);
    ExpectationsOfOutputs(d.bindings, number);
  }

  //////////////////////////////////////////////////////////////////////////////
  // What the parser refuses
  //////////////////////////////////////////////////////////////////////////////

  lemma {:induction false} FailureIsKept(args: seq<string>, state: State, number: Number)
    requires state.failed
    ensures ParseFrom(args, state, number).failed
    decreases |args|
  {
    if args != [] {
      var flag := FlagOf(args[0]);
      if flag.None? {
        FailureIsKept(args[1..], state.(failed := true), number);
      } else if !TakesValue(flag.value) {
        FailureIsKept(args[1..], Switch(state, flag.value), number);
      } else if |args| > 1 {
        FlagsKeepFailure(state, flag.value, args[1], number);
        FailureIsKept(args[2..], Apply(state, flag.value, args[1], number), number);
      }
    }
  }

  lemma FlagsKeepFailure(state: State, flag: ValuedFlag, value: string, number: Number)
    requires state.failed
    ensures Apply(state, flag, value, number).failed
  {
  }

  /** After any printed flags, an unknown flag or a flag without its value makes the whole command line fail. */
  lemma UnknownAndUnfinishedFlagsFail(pairs: Pairs, text: string, flag: ValuedFlag, rest: seq<string>, number: Number)
    requires FlagOf(text).None?
    ensures Parse(Arguments(pairs) + ([text] + rest), number).None?
    ensures Parse(Arguments(pairs) + [FlagName(flag)], number).None?
  {
    var state := ApplyAll(START, pairs, number);
    ParsePairs(pairs, [text] + rest, START, number);
    assert ([text] + rest)[1..] == rest;
    FailureIsKept(rest, state.(failed := true), number);
    ParsePairs(pairs, [FlagName(flag)], START, number);
    FlagNameParses(flag);
  }

  /** Any accepted binding text has five fields, a 31-bit position, a positive 64-bit element count and a path. */
  lemma AcceptedBindingsAreSane(raw: string)
    ensures ParseBinding(raw).Some? ==>
      var b := ParseBinding(raw).value;
      && |SplitFrom(raw, ':', 0)| == 5
      && 0 <= b.position < 0x8000_0000
      && 0 < b.elements < 0x1_0000_0000_0000_0000
      && b.path != "" && ':' !in b.path
  {
    PartsHoldNoDelimiter(raw, ':', 0);
  }

  /** Any accepted scalar has a 31-bit position and a finite value, any accepted expectation one, a path and
      tolerances that are not negative. */
  lemma AcceptedScalarsAndExpectationsAreSane(raw: string, number: Number)
    ensures ParseScalar(raw, number).Some? ==>
      var s := ParseScalar(raw, number).value;
      0 <= s.position < 0x8000_0000 && s.value != "" && ':' !in s.value && number(s.value).Some?
    ensures ParseExpectation(raw, number).Some? ==>
      var e := ParseExpectation(raw, number).value;
      0 <= e.position < 0x8000_0000 && e.path != "" && ':' !in e.path && e.atol >= 0.0 && e.rtol >= 0.0
  {
    PartsHoldNoDelimiter(raw, ':', 0);
  }

  /** Any accepted configuration has a key without equals sign and a value, and is its text. */
  lemma AcceptedConfigsAreSane(raw: string)
    ensures ParseConfig(raw).Some? ==>
      var (key, value) := ParseConfig(raw).value;
      key != "" && value != "" && '=' !in key && raw == key + ['='] + value
  {
    var split := FindFrom(raw, '=', 0);
    assert raw[0..split] == raw[..split];
    if split < |raw| {
      CutAt(raw, 0, split);
      assert raw[0..] == raw;
    }
  }

  /** Any accepted workgroup count is three positive 64-bit numbers. */
  lemma AcceptedWorkgroupsArePositive(raw: string)
    ensures ValidWorkgroupCount(raw) ==>
      var parts := SplitFrom(raw, ',', 0);
      |parts| == 3 && forall i :: 0 <= i < 3 ==>
        IsDecimal(parts[i]) && 0 < ParseDecimal(parts[i]) < 0x1_0000_0000_0000_0000
  {
  }

  /** The switches: one asks for the command, the other for its execution as well. */
  lemma SwitchesMean(state: State, number: Number)
    ensures ParseFrom(["--emit-ggml-hrx-run-loom-command"], state, number)
      == state.(invocation := state.invocation.(emitCommand := true))
    ensures ParseFrom(["--execute-ggml-hrx-run-loom-command"], state, number)
      == state.(invocation := state.invocation.(emitCommand := true, executeCommand := true))
  {
    MoreFlagWords();
    assert ["--emit-ggml-hrx-run-loom-command"][1..] == [];
    assert ["--execute-ggml-hrx-run-loom-command"][1..] == [];
  }
}
