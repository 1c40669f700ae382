// scripts/generate_v2_route_selector.py: from Python route records to native descriptors.
// None stands for UnsupportedRouteDescriptor.
module Lowering {
  import opened Wrappers
  import opened Int64
  import opened RouteModel
  import opened Matching
  import opened NativeSelector
  import opened Catalog
  import Doubles

  predicate IsSize(n: int, minimum: nat) {
    minimum <= n <= INT64_MAX
  }

  function NativeBound(bound: Option<Bound>): Option<int64>
    requires LowerableBound(bound)
  {
    if bound.Some? then Some(bound.value.n) else None
  }

  predicate LowerableBound(bound: Option<Bound>) {
    bound.Some? ==> bound.value.IntBound? && InInt64(bound.value.n)
  }

  function NativeSize(n: Option<int>): Option<nat>
    requires n.Some? ==> n.value >= 0
  {
    if n.Some? then Some(n.value) else None
  }

  predicate LowerableRank(rank: Option<int>) {
    rank.Some? ==> IsSize(rank.value, 1)
  }

  function RenderNumeric(check: ConstraintCheck, name: string): Option<NativeConstraint> {
    if check.min.None? && check.max.None? && check.multipleOf.None? then None
    else if !LowerableBound(check.min) || !LowerableBound(check.max) ||
            (check.multipleOf.Some? && !InInt64(check.multipleOf.value)) then None
    else
      var minimum, maximum := NativeBound(check.min), NativeBound(check.max);
      var multipleOf: Option<int64> := if check.multipleOf.Some? then Some(check.multipleOf.value) else None;
      if check.index.Some? then
        if HasOnly(check, {NameField, IndexField, MinField, MaxField, MultipleOfField}) && IsSize(check.index.value, 0)
        then Some(IndexedBounds(name, check.index.value, minimum, maximum, multipleOf)) else None
      else if HasOnly(check, {NameField, MinField, MaxField, MultipleOfField})
      then Some(ScalarBounds(name, minimum, maximum, multipleOf)) else None
  }

  // _render_constraint
  function RenderConstraint(check: ConstraintCheck): Option<NativeConstraint> {
    if check.equals != [] then
      if |check.equals| >= 2 && HasOnly(check, {EqualsField}) then Some(Equals(check.equals)) else None
    else if check.divides != [] then
      if |check.divides| >= 2 && HasOnly(check, {DividesField}) then Some(Divides(check.divides)) else None
    else if check.name.None? then None
    else
      var name := check.name.value;
      if check.iota then
        if HasOnly(check, {NameField, IotaField}) then Some(IotaForm(name)) else None
      else if check.length.Some? then
        if HasOnly(check, {NameField, LengthField}) && IsSize(check.length.value, 0)
        then Some(ExactLength(name, check.length.value)) else None
      else if check.rankMin.Some? || check.rankMax.Some? then
        if HasOnly(check, {NameField, RankMinField, RankMaxField})
           && LowerableRank(check.rankMin) && LowerableRank(check.rankMax)
        then Some(RankRange(name, NativeSize(check.rankMin), NativeSize(check.rankMax))) else None
      else RenderNumeric(check, name)
  }

  // _render_value
  function RenderValue(definition: ValueDefinition): Option<NativeValue> {
    var name := definition.name;
    match definition.operation
    case ContiguousStrides(s) => Some(NativeValue(name, ContiguousStridesKind, [s], 0))
    case ProductOf(s) => Some(NativeValue(name, ProductKind, [s], 0))
    case InversePermutation(s) => Some(NativeValue(name, InversePermutationKind, [s], 0))
    case Element(s, n) => if IsSize(n, 0) then Some(NativeValue(name, ElementKind, [s], n)) else None
    case Head(s, n) => if IsSize(n, 0) then Some(NativeValue(name, HeadKind, [s], n)) else None
    case Tail(s, n) => if IsSize(n, 0) then Some(NativeValue(name, TailKind, [s], n)) else None
    case ChainPermutations(a, b) => Some(NativeValue(name, ChainPermutationsKind, [a, b], 0))
    case PermutedContiguousStrides(a, b) => Some(NativeValue(name, PermutedContiguousStridesKind, [a, b], 0))
  }

  // _constraint_references_attribute
  predicate ReferencesAttribute(check: ConstraintCheck) {
    || (check.name.Some? && NamesAttribute(check.name.value))
    || (exists i :: 0 <= i < |check.equals| && NamesAttribute(check.equals[i]))
    || (exists i :: 0 <= i < |check.divides| && NamesAttribute(check.divides[i]))
  }

  function WithoutAttributeChecks(checks: seq<ConstraintCheck>): seq<ConstraintCheck> {
    if checks == [] then []
    else if ReferencesAttribute(checks[0]) then WithoutAttributeChecks(checks[1..])
    else [checks[0]] + WithoutAttributeChecks(checks[1..])
  }

  function RenderConstraints(checks: seq<ConstraintCheck>): Option<seq<NativeConstraint>> {
    if checks == [] then Some([])
    else match (RenderConstraint(checks[0]), RenderConstraints(checks[1..]))
      case (Some(first), Some(rest)) => Some([first] + rest)
      case _ => None
  }

  function RenderValues(definitions: seq<ValueDefinition>): Option<seq<NativeValue>> {
    if definitions == [] then Some([])
    else match (RenderValue(definitions[0]), RenderValues(definitions[1..]))
      case (Some(first), Some(rest)) => Some([first] + rest)
      case _ => None
  }

  // _render_route: attribute constraints are dropped, everything else must have a native form.
  function RenderRoute(route: Route): Option<RouteDescriptor> {
    match (RenderValues(route.values), RenderConstraints(WithoutAttributeChecks(route.checks)))
    case (Some(values), Some(constraints)) => Some(RouteDescriptor(route.id, route.tensors, values, constraints))
    case _ => None
  }

  //////////////////////////////////////////////////////////////////////////////
  // Which checks have a native form
  //////////////////////////////////////////////////////////////////////////////

  /** The generator does not look at literal values, yet it refuses every literal check the parser
      produces, because such a check populates no other predicate. */
  lemma LiteralChecksAreRefused(check: ConstraintCheck)
    requires ParserProduces(check) && check.literal.Some?
    ensures RenderConstraint(check).None?
  {
    assert !Populated(check, EqualsField) && !Populated(check, DividesField);
    assert !Populated(check, IotaField) && !Populated(check, LengthField);
    assert !Populated(check, RankMinField) && !Populated(check, RankMaxField);
    assert !Populated(check, MinField) && !Populated(check, MaxField) && !Populated(check, MultipleOfField);
  }

  predicate IntegerBound(bound: Option<Bound>) {
    bound == None || exists n :: bound == Some(IntBound(n)) && -0x8000_0000_0000_0000 <= n < 0x8000_0000_0000_0000
  }

  /** Of the checks the parser produces the generator lowers exactly those without a literal whose bounds are 64-bit
      integers, whose indices and lengths are natural, and whose rank bounds are positive, all of them at
      most 2^63 - 1. */
  lemma LoweredIff(check: ConstraintCheck)
    requires ParserProduces(check)
    ensures RenderConstraint(check).Some? <==>
      && check.literal.None?
      && IntegerBound(check.min) && IntegerBound(check.max)
      && (check.multipleOf.Some? ==> -0x8000_0000_0000_0000 <= check.multipleOf.value < 0x8000_0000_0000_0000)
      && (check.index.Some? ==> 0 <= check.index.value < 0x8000_0000_0000_0000)
      && (check.length.Some? ==> 0 <= check.length.value < 0x8000_0000_0000_0000)
      && (check.rankMin.Some? ==> 1 <= check.rankMin.value < 0x8000_0000_0000_0000)
      && (check.rankMax.Some? ==> 1 <= check.rankMax.value < 0x8000_0000_0000_0000)
  {
    if check.literal.Some? {
      LiteralChecksAreRefused(check);
    } else {
      PopulatedFields(check);
      BoundIff(check.min);
      BoundIff(check.max);
    }
  }

  lemma BoundIff(bound: Option<Bound>)
    ensures IntegerBound(bound) <==> LowerableBound(bound)
  {
    if LowerableBound(bound) && bound.Some? {
      assert bound == Some(IntBound(bound.value.n));
    }
  }

  //////////////////////////////////////////////////////////////////////////////
  // Meaning
  //////////////////////////////////////////////////////////////////////////////

  predicate IsNumeric(check: ConstraintCheck) {
    && check.equals == [] && check.divides == [] && check.name.Some? && !check.iota
    && check.length.None? && check.rankMin.None? && check.rankMax.None?
  }

  // The number a numeric check converts to float.
  function NumberRead(check: ConstraintCheck, env: Environment): Option<int> {
    if !IsNumeric(check) || check.name.value !in env then None
    else match (check.index, env[check.name.value])
      case (None, Scalar(n)) => Some(n)
      case (Some(i), Vector(v)) => if 0 <= i < |v| then Some(v[i]) else None
      case _ => None
  }

  predicate ReadsExactly(check: ConstraintCheck, env: Environment) {
    NumberRead(check, env).Some? ==> Doubles.Representable(NumberRead(check, env).value)
  }

  /** Lowering a check preserves its meaning: the native form accepts exactly the captures the
      Python priority chain accepts, provided the number it reads survives float(). */
  lemma LoweringPreservesMeaning(check: ConstraintCheck, env: Environment, ignoreMissing: bool)
    requires RenderConstraint(check).Some? && check.literal.None?
    requires !ReferencesAttribute(check) && ReadsExactly(check, env)
    ensures ConstraintHolds(RenderConstraint(check).value, env) <==> CheckAccepts(check, env, ignoreMissing) == Accepted
  {
    var native := RenderConstraint(check).value;
    if check.equals != [] {
      EqualsFormsAgree(check, env, ignoreMissing);
    } else if check.divides != [] {
    } else if IsNumeric(check) && NumberRead(check, env).Some? {
      Doubles.FloatIsExactWhenRepresentable(NumberRead(check, env).value);
    }
  }

  lemma EqualsFormsAgree(check: ConstraintCheck, env: Environment, ignoreMissing: bool)
    requires check.equals != [] && !ReferencesAttribute(check)
    ensures EqualsAccepts(check.equals, env, ignoreMissing) <==> ConstraintHolds(Equals(check.equals), env)
  {
    assert forall i :: 0 <= i < |check.equals| ==> !NamesAttribute(check.equals[i]);
  }

  function AsBound(n: Option<int64>): Option<Bound> {
    if n.Some? then Some(IntBound(n.value)) else None
  }

  ghost predicate NumericChecksAgreeOn(value: int) {
    forall minimum: Option<int64>, maximum: Option<int64>, divisor: Option<int64> ::
      ScalarHolds(minimum, maximum, divisor, value)
      <==> NumericAccepts(AsBound(minimum), AsBound(maximum), divisor, value) == Accepted
  }

  /** Both evaluators give every numeric check on a 64-bit value the same answer exactly when the
      value survives conversion to binary64. */
  lemma NumericChecksAgreeIffRepresentable(value: int)
    requires InInt64(value)
    ensures NumericChecksAgreeOn(value) <==> Doubles.Representable(value)
  {
    Doubles.FloatIsExactWhenRepresentable(value);
    var none: Option<int64>, at: Option<int64> := None, Some(value);
    if NumericChecksAgreeOn(value) {
      assert ScalarHolds(at, none, none, value) && ScalarHolds(none, at, none, value);
      assert NumericAccepts(AsBound(at), AsBound(none), none, value) == Accepted;
      assert NumericAccepts(AsBound(none), AsBound(at), none, value) == Accepted;
    }
  }

  /** The smallest value on which they differ: 2^53 + 1 counts as even in Python. */
  lemma FirstNumericDisagreement()
    ensures var value, two := Doubles.EXACT_LIMIT + 1, Some(2);
            NumericAccepts(None, None, two, value) == Accepted && !ScalarHolds(None, None, two, value)
    ensures forall value :: -Doubles.EXACT_LIMIT <= value <= Doubles.EXACT_LIMIT ==> NumericChecksAgreeOn(value)
  {
    Doubles.FirstInexactInteger();
    forall value | -Doubles.EXACT_LIMIT <= value <= Doubles.EXACT_LIMIT ensures NumericChecksAgreeOn(value) {
      Doubles.SmallIntegersAreExact(value);
      Doubles.FloatIsExactWhenRepresentable(value);
      NumericChecksAgreeIffRepresentable(value);
    }
  }

  //////////////////////////////////////////////////////////////////////////////
  // Zero divisors
  //////////////////////////////////////////////////////////////////////////////

  // The number a check reads is inside its bounds, so Python goes on to divide it by zero.
  predicate DividesByZero(check: ConstraintCheck, env: Environment) {
    && check.literal.None?
    && check.multipleOf == Some(0)
    && NumberRead(check, env).Some?
    && var number := Doubles.FloatOf(NumberRead(check, env).value);
       && (check.min.Some? ==> !Below(number, check.min.value))
       && (check.max.Some? ==> !Above(number, check.max.value))
  }

  /** A check raises in Python exactly when it reads a number, the number is inside the bounds and the
      divisor is zero. */
  lemma CheckRaisesIff(check: ConstraintCheck, env: Environment, ignoreMissing: bool)
    ensures CheckAccepts(check, env, ignoreMissing) == DivisionByZero <==> DividesByZero(check, env)
  {
  }

  // Check k is reached and raises.
  predicate RaisesAt(checks: seq<ConstraintCheck>, env: Environment, ignoreMissing: bool, k: nat)
    requires k < |checks|
  {
    && DividesByZero(checks[k], env)
    && forall j :: 0 <= j < k ==> CheckAccepts(checks[j], env, ignoreMissing) == Accepted
  }

  predicate Raises(checks: seq<ConstraintCheck>, env: Environment, ignoreMissing: bool) {
    exists k :: 0 <= k < |checks| && RaisesAt(checks, env, ignoreMissing, k)
  }

  lemma RaisesStep(checks: seq<ConstraintCheck>, env: Environment, ignoreMissing: bool)
    requires checks != []
    ensures Raises(checks, env, ignoreMissing) <==>
      || DividesByZero(checks[0], env)
      || (CheckAccepts(checks[0], env, ignoreMissing) == Accepted && Raises(checks[1..], env, ignoreMissing))
  {
    CheckRaisesIff(checks[0], env, ignoreMissing);
    forall k | 0 < k < |checks|
      ensures RaisesAt(checks, env, ignoreMissing, k) <==>
        CheckAccepts(checks[0], env, ignoreMissing) == Accepted && RaisesAt(checks[1..], env, ignoreMissing, k - 1)
    {
      assert forall j :: 0 < j < k ==> checks[j] == checks[1..][j - 1];
      assert forall j :: 0 <= j < k - 1 ==> checks[1..][j] == checks[j + 1];
    }
    if DividesByZero(checks[0], env) {
      assert RaisesAt(checks, env, ignoreMissing, 0);
    }
    if CheckAccepts(checks[0], env, ignoreMissing) == Accepted && Raises(checks[1..], env, ignoreMissing) {
      var k :| 0 <= k < |checks[1..]| && RaisesAt(checks[1..], env, ignoreMissing, k);
      assert RaisesAt(checks, env, ignoreMissing, k + 1);
    }
  }

  /** Python's constraint chain raises exactly when some check divides by zero with every earlier
      check accepting. */
  lemma {:induction false} ChecksRaiseIff(checks: seq<ConstraintCheck>, env: Environment, ignoreMissing: bool)
    ensures ChecksAccept(checks, env, ignoreMissing) == DivisionByZero <==> Raises(checks, env, ignoreMissing)
  {
    if checks != [] {
      CheckRaisesIff(checks[0], env, ignoreMissing);
      RaisesStep(checks, env, ignoreMissing);
      ChecksRaiseIff(checks[1..], env, ignoreMissing);
    }
  }

  const ZERO_DIVISOR := ConstraintCheck(Some("n"), None, None, None, None, None, None, Some(0), false, [], [], None)

  /** The parser produces checks with divisor zero; on one of them Python raises where native rejects. */
  lemma ZeroDivisorRaisesOnlyInPython()
    ensures var env := map["n" := Scalar(1)];
      && ParserProduces(ZERO_DIVISOR) && RenderConstraint(ZERO_DIVISOR).Some?
      && CheckAccepts(ZERO_DIVISOR, env, false) == DivisionByZero
      && !ConstraintHolds(RenderConstraint(ZERO_DIVISOR).value, env)
  {
    assert Populated(ZERO_DIVISOR, MultipleOfField);
  }
}
