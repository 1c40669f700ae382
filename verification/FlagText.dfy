// The text format of run-loom-simple flags: fields joined by a delimiter, decimal integers, and the
// names of kinds, element types and flags.
module FlagText {
  import opened Wrappers
  import opened Text

  //////////////////////////////////////////////////////////////////////////////
  // Split
  //////////////////////////////////////////////////////////////////////////////

  // The position of the first delimiter, or the length.
  function FindFrom(s: string, delimiter: char, start: nat): (k: nat)
    requires start <= |s|
    ensures start <= k <= |s| && delimiter !in s[start..k]
    ensures k < |s| ==> s[k] == delimiter
    decreases |s| - start
  {
    if start == |s| || s[start] == delimiter then start
    else
      var k := FindFrom(s, delimiter, start + 1);
      assert s[start..k] == [s[start]] + s[start + 1..k];
      k
  }

  function SplitFrom(s: string, delimiter: char, start: nat): (parts: seq<string>)
    requires start <= |s|
    ensures parts != []
    decreases |s| - start
  {
    var end := FindFrom(s, delimiter, start);
    if end == |s| then [s[start..]] else [s[start..end]] + SplitFrom(s, delimiter, end + 1)
  }

  method Split(value: string, delimiter: char) returns (parts: seq<string>)
    ensures parts == SplitFrom(value, delimiter, 0)
  {
    parts := [];
    var start := 0;
    while start <= |value|
      invariant start <= |value|
      invariant SplitFrom(value, delimiter, 0) == parts + SplitFrom(value, delimiter, start)
      decreases |value| - start
    {
      var end := FindFrom(value, delimiter, start);
      if end == |value| {
        return parts + [value[start..]];
      }
      parts := parts + [value[start..end]];
      start := end + 1;
    }
  }

  function Join(parts: seq<string>, delimiter: char): string {
    if parts == [] then "" else if |parts| == 1 then parts[0] else parts[0] + [delimiter] + Join(parts[1..], delimiter)
  }

  lemma JoinFirst(field: string, rest: seq<string>, delimiter: char)
    requires rest != []
    ensures Join([field] + rest, delimiter) == field + [delimiter] + Join(rest, delimiter)
  {
    assert ([field] + rest)[1..] == rest;
  }

  lemma CutAt(s: string, start: nat, end: nat)
    requires start <= end < |s|
    ensures s[start..] == s[start..end] + [s[end]] + s[end + 1..]
  {
  }

  /** Joining the parts with the delimiter restores any string. */
  lemma {:induction false} JoinRestoresSplit(s: string, delimiter: char, start: nat)
    requires start <= |s|
    ensures Join(SplitFrom(s, delimiter, start), delimiter) == s[start..]
    decreases |s| - start
  {
    var end := FindFrom(s, delimiter, start);
    if end < |s| {
      var field, rest := s[start..end], SplitFrom(s, delimiter, end + 1);
      JoinRestoresSplit(s, delimiter, end + 1);
      JoinFirst(field, rest, delimiter);
      CutAt(s, start, end);
      calc {
        Join(SplitFrom(s, delimiter, start), delimiter);
        Join([field] + rest, delimiter);
        field + [delimiter] + s[end + 1..];
        s[start..];
      }
    } else {
      assert Join([s[start..]], delimiter) == s[start..];
    }
  }

  lemma {:induction false} PartsHoldNoDelimiter(s: string, delimiter: char, start: nat)
    requires start <= |s|
    ensures Free(SplitFrom(s, delimiter, start), delimiter)
    decreases |s| - start
  {
    var end := FindFrom(s, delimiter, start);
    if end < |s| {
      PartsHoldNoDelimiter(s, delimiter, end + 1);
    } else {
      assert s[start..] == s[start..end];
    }
  }

  lemma FindIs(s: string, delimiter: char, start: nat, k: nat)
    requires start <= k <= |s| && delimiter !in s[start..k] && (k < |s| ==> s[k] == delimiter)
    ensures FindFrom(s, delimiter, start) == k
    decreases |s| - start
  {
    if start < k {
      assert s[start] in s[start..k];
      assert forall i :: start + 1 <= i < k ==> s[i] in s[start..k];
      FindIs(s, delimiter, start + 1, k);
    }
  }

  lemma SplitAtFirst(f: string, r: string, g: string, t: string, delimiter: char)
    requires delimiter !in f && delimiter !in g && f + [delimiter] + r == g + [delimiter] + t
    ensures f == g && r == t
  {
    var s := f + [delimiter] + r;
    assert s[..|f|] == f && s[..|g|] == g;
    assert s[|f|] == delimiter && s[|g|] == delimiter;
    assert forall i :: 0 <= i < |f| ==> s[i] in f;
    assert forall i :: 0 <= i < |g| ==> s[i] in g;
    assert r == s[|f| + 1..] && t == s[|g| + 1..];
  }

  predicate Free(parts: seq<string>, delimiter: char) {
    forall part :: part in parts ==> delimiter !in part
  }

  lemma JoinHoldsDelimiter(parts: seq<string>, delimiter: char)
    requires |parts| > 1
    ensures delimiter in Join(parts, delimiter)
  {
    assert Join(parts, delimiter)[|parts[0]|] == delimiter;
  }

  /** Lists of delimiter-free parts with the same join are the same. */
  lemma {:induction false} JoinIsInjective(p: seq<string>, q: seq<string>, delimiter: char)
    requires p != [] && q != [] && Free(p, delimiter) && Free(q, delimiter)
    requires Join(p, delimiter) == Join(q, delimiter)
    ensures p == q
  {
    assert p[0] in p && q[0] in q;
    if |p| > 1 {
      JoinHoldsDelimiter(p, delimiter);
    }
    if |q| > 1 {
      JoinHoldsDelimiter(q, delimiter);
    }
    if |p| > 1 && |q| > 1 {
      SplitAtFirst(p[0], Join(p[1..], delimiter), q[0], Join(q[1..], delimiter), delimiter);
      JoinIsInjective(p[1..], q[1..], delimiter);
      assert p == [p[0]] + p[1..] && q == [q[0]] + q[1..];
    }
  }

  /** Splitting recovers delimiter-free parts from their join. */
  lemma SplitRestoresJoin(parts: seq<string>, delimiter: char)
    requires parts != [] && Free(parts, delimiter)
    ensures SplitFrom(Join(parts, delimiter), delimiter, 0) == parts
  {
    var s := Join(parts, delimiter);
    JoinRestoresSplit(s, delimiter, 0);
    PartsHoldNoDelimiter(s, delimiter, 0);
    JoinIsInjective(SplitFrom(s, delimiter, 0), parts, delimiter);
  }

  function Delimiters(s: string, delimiter: char): nat {
    if s == [] then 0 else (if s[0] == delimiter then 1 else 0) + Delimiters(s[1..], delimiter)
  }

  lemma {:induction false} DelimitersAdd(s: string, t: string, delimiter: char)
    ensures Delimiters(s + t, delimiter) == Delimiters(s, delimiter) + Delimiters(t, delimiter)
  {
    if s == [] {
      assert s + t == t;
    } else {
      assert (s + t)[1..] == s[1..] + t;
      DelimitersAdd(s[1..], t, delimiter);
    }
  }

  lemma {:induction false} NoDelimitersIff(s: string, delimiter: char)
    ensures Delimiters(s, delimiter) == 0 <==> delimiter !in s
  {
    if s != [] {
      NoDelimitersIff(s[1..], delimiter);
    }
  }

  lemma {:induction false} JoinDelimiters(parts: seq<string>, delimiter: char)
    requires parts != []
    ensures Delimiters(Join(parts, delimiter), delimiter) >= |parts| - 1
    ensures Delimiters(Join(parts, delimiter), delimiter) == |parts| - 1 <==> Free(parts, delimiter)
  {
    NoDelimitersIff(parts[0], delimiter);
    if |parts| > 1 {
      JoinDelimiters(parts[1..], delimiter);
      DelimitersAdd(parts[0] + [delimiter], Join(parts[1..], delimiter), delimiter);
      DelimitersAdd(parts[0], [delimiter], delimiter);
      assert Delimiters([delimiter], delimiter) == 1;
      assert parts == [parts[0]] + parts[1..];
    }
  }

  /** Splitting a join yields as many parts as were joined exactly when no part holds the delimiter,
      and then yields those parts. */
  lemma FieldsSurviveIff(parts: seq<string>, delimiter: char)
    requires parts != []
    ensures |SplitFrom(Join(parts, delimiter), delimiter, 0)| == |parts|
      <==> Free(parts, delimiter)
    ensures |SplitFrom(Join(parts, delimiter), delimiter, 0)| == |parts|
      ==> SplitFrom(Join(parts, delimiter), delimiter, 0) == parts
  {
    var s := Join(parts, delimiter);
    var split := SplitFrom(s, delimiter, 0);
    JoinDelimiters(parts, delimiter);
    JoinRestoresSplit(s, delimiter, 0);
    PartsHoldNoDelimiter(s, delimiter, 0);
    JoinDelimiters(split, delimiter);
    assert s[0..] == s;
    if Free(parts, delimiter) {
      SplitRestoresJoin(parts, delimiter);
    }
  }

  //////////////////////////////////////////////////////////////////////////////
  // Numbers
  //////////////////////////////////////////////////////////////////////////////

  const INT_MAX := 0x7FFF_FFFF
  const SIZE_MAX := 0xFFFF_FFFF_FFFF_FFFF

  // std::from_chars into int, consuming the whole text.
  function ParseInt(text: string): Option<int> {
    if IsDecimal(text) then
      if ParseDecimal(text) <= INT_MAX then Some(ParseDecimal(text)) else None
    else if text != "" && text[0] == '-' && IsDecimal(text[1..]) && ParseDecimal(text[1..]) <= INT_MAX + 1
    then Some(0 - ParseDecimal(text[1..]))
    else None
  }

  // std::from_chars into size_t, consuming the whole text.
  function ParseSize(text: string): Option<nat> {
    if IsDecimal(text) && ParseDecimal(text) <= SIZE_MAX then Some(ParseDecimal(text)) else None
  }

  //////////////////////////////////////////////////////////////////////////////
  // Names
  //////////////////////////////////////////////////////////////////////////////

  datatype BindingKind = Input | Output

  datatype DType = BF16 | F32 | F16 | I32 | Q4K | Q5K | Q6K | Q8Zero

  function KindName(kind: BindingKind): string {
    match kind case Input => "input" case Output => "output"
  }

  function DTypeName(dtype: DType): string {
    match dtype
    case BF16 => "bf16"
    case F32 => "f32"
    case F16 => "f16"
    case I32 => "i32"
    case Q4K => "q4_k"
    case Q5K => "q5_k"
    case Q6K => "q6_k"
    case Q8Zero => "q8_0"
  }

  function ParseBindingKind(text: string): Option<BindingKind> {
    if text == "input" then Some(Input) else if text == "output" then Some(Output) else None
  }

  function ParseDType(text: string): Option<DType> {
    if text == "bf16" then Some(BF16)
    else if text == "f32" then Some(F32)
    else if text == "f16" then Some(F16)
    else if text == "i32" then Some(I32)
    else if text == "q4_k" then Some(Q4K)
    else if text == "q5_k" then Some(Q5K)
    else if text == "q6_k" then Some(Q6K)
    else if text == "q8_0" then Some(Q8Zero)
    else None
  }

  lemma NamesParse(kind: BindingKind, dtype: DType)
    ensures ParseBindingKind(KindName(kind)) == Some(kind)
    ensures ParseDType(DTypeName(dtype)) == Some(dtype)
    ensures ':' !in KindName(kind) && ':' !in DTypeName(dtype)
  {
    var name := DTypeName(dtype);
    assert name[0] == 'b' || name[0] == 'f' || name[0] == 'i' || name[0] == 'q';
    assert name[1] in {'f', '3', '1', '4', '5', '6', '8'};
  }

  datatype Flag =
    | Kernel | Root | Target | OutputFile | LoomLink | LinkedKernelOutput | RunLoom
    | WorkgroupCount | EmitCommand | ExecuteCommand | Config | BindingFlag | ScalarFlag | ExpectFlag

  function FlagName(flag: Flag): string {
    match flag
    case Kernel => "--kernel"
    case Root => "--root"
    case Target => "--target"
    case OutputFile => "--output"
    case LoomLink => "--loom-link"
    case LinkedKernelOutput => "--linked-kernel-output"
    case RunLoom => "--ggml-hrx-run-loom"
    case WorkgroupCount => "--workgroup-count"
    case EmitCommand => "--emit-ggml-hrx-run-loom-command"
    case ExecuteCommand => "--execute-ggml-hrx-run-loom-command"
    case Config => "--config"
    case BindingFlag => "--binding"
    case ScalarFlag => "--scalar"
    case ExpectFlag => "--expect"
  }

  function FlagOf(text: string): Option<Flag> {
    if text == "--kernel" then Some(Kernel)
    else if text == "--root" then Some(Root)
    else if text == "--target" then Some(Target)
    else if text == "--output" then Some(OutputFile)
    else if text == "--loom-link" then Some(LoomLink)
    else if text == "--linked-kernel-output" then Some(LinkedKernelOutput)
    else if text == "--ggml-hrx-run-loom" then Some(RunLoom)
    else if text == "--workgroup-count" then Some(WorkgroupCount)
    else if text == "--emit-ggml-hrx-run-loom-command" then Some(EmitCommand)
    else if text == "--execute-ggml-hrx-run-loom-command" then Some(ExecuteCommand)
    else if text == "--config" then Some(Config)
    else if text == "--binding" then Some(BindingFlag)
    else if text == "--scalar" then Some(ScalarFlag)
    else if text == "--expect" then Some(ExpectFlag)
    else None
  }

  lemma FlagNameParses(flag: Flag)
    ensures FlagOf(FlagName(flag)) == Some(flag)
  {
    var name := FlagName(flag);
    assert name[2] in {'k', 'r', 't', 'o', 'l', 'g', 'w', 'e', 'c', 'b', 's'};
    assert flag in {LoomLink, LinkedKernelOutput} ==> name[3] in {'o', 'i'};
    assert flag in {EmitCommand, ExecuteCommand, ExpectFlag} ==> |name| in {32, 35, 8};
  }
}
