// The two selectors agree: native evaluation refines Python's, and native selection is
// Python's first match.
module Parity {
  import opened Wrappers
  import opened Int64
  import opened RouteModel
  import opened Matching
  import opened NativeSelector
  import opened Lowering
  import opened Catalog

  //////////////////////////////////////////////////////////////////////////////
  // Derived values
  //////////////////////////////////////////////////////////////////////////////

  // Definition k is reached with its operands in order, and one of its running products
  // leaves the 64-bit range.
  ghost predicate OverflowsAt(definitions: seq<ValueDefinition>, env: Environment, k: nat)
    requires k < |definitions|
  {
    var reached := Resolve(definitions[..k], env);
    && reached.Some?
    && Compute(definitions[k].operation, reached.value).Some?
    && !ProductsFit(definitions[k].operation, reached.value)
  }

  ghost predicate Overflows(definitions: seq<ValueDefinition>, env: Environment) {
    exists k: nat :: k < |definitions| && OverflowsAt(definitions, env, k)
  }

  lemma OverflowStep(definitions: seq<ValueDefinition>, env: Environment)
    requires definitions != []
    ensures Overflows(definitions, env) <==>
      var value := Compute(definitions[0].operation, env);
      value.Some? && (!ProductsFit(definitions[0].operation, env)
                      || Overflows(definitions[1..], env[definitions[0].name := value.value]))
  {
    var value := Compute(definitions[0].operation, env);
    assert Resolve(definitions[..0], env) == Some(env);
    assert value.Some? ==> (OverflowsAt(definitions, env, 0) <==> !ProductsFit(definitions[0].operation, env));
    forall k: nat | 0 < k < |definitions|
      ensures OverflowsAt(definitions, env, k) <==>
        value.Some? && OverflowsAt(definitions[1..], env[definitions[0].name := value.value], k - 1)
    {
      assert definitions[..k][1..] == definitions[1..][..k - 1];
      assert definitions[..k][0] == definitions[0];
    }
    if value.Some? && Overflows(definitions[1..], env[definitions[0].name := value.value]) {
      var k: nat :| k < |definitions[1..]| && OverflowsAt(definitions[1..], env[definitions[0].name := value.value], k);
      assert OverflowsAt(definitions, env, k + 1);
    }
  }

  /** Native resolution, in one shadowing map over 64-bit integers, against Python's unbounded
      resolution: it gives up exactly when a reached product overflows, and otherwise both fail or
      both produce the same environment. */
  lemma {:induction false} ResolutionAgrees(definitions: seq<ValueDefinition>, env: Environment)
    requires RenderValues(definitions).Some?
    ensures var native, python := NativeResolve(RenderValues(definitions).value, env), Resolve(definitions, env);
      && (native.Status() == Unsupported <==> Overflows(definitions, env))
      && (native.Status() == Match ==> python == Some(native.value))
      && (native.Status() == NoMatch ==> python.None?)
  {
    if definitions != [] {
      var first := RenderValue(definitions[0]).value;
      assert AsOperation(first) == Some(definitions[0].operation) && first.name == definitions[0].name;
      var value := Compute(definitions[0].operation, env);
      OverflowStep(definitions, env);
      if value.Some? {
        ResolutionAgrees(definitions[1..], env[definitions[0].name := value.value]);
      }
    } else {
      assert !Overflows(definitions, env);
    }
  }

  //////////////////////////////////////////////////////////////////////////////
  // Tensor roles
  //////////////////////////////////////////////////////////////////////////////

  lemma {:induction false} RoleCount(descriptors: seq<TensorDescriptor>)
    requires DistinctRoles(descriptors)
    ensures |Roles(descriptors)| == |descriptors|
  {
    if descriptors != [] {
      var n := |descriptors| - 1;
      RoleCount(descriptors[..n]);
      assert Roles(descriptors) == Roles(descriptors[..n]) + {descriptors[n].role};
    }
  }

  lemma {:induction false} CaptureNeedsRoles(descriptors: seq<TensorDescriptor>, tensors: map<string, Tensor>,
      env: Environment)
    requires CaptureTensors(descriptors, tensors, env).Some?
    ensures Roles(descriptors) <= tensors.Keys
  {
    if descriptors != [] {
      var env1 := CaptureTensor(descriptors[0], tensors[descriptors[0].role], env).value;
      CaptureNeedsRoles(descriptors[1..], tensors, env1);
      assert Roles(descriptors) == {descriptors[0].role} + Roles(descriptors[1..]);
    }
  }

  lemma {:induction false} CaptureReadsOnlyRoles(descriptors: seq<TensorDescriptor>, a: map<string, Tensor>,
      b: map<string, Tensor>, env: Environment)
    requires forall role :: role in Roles(descriptors) ==>
      (role in a <==> role in b) && (role in a ==> a[role] == b[role])
    ensures CaptureTensors(descriptors, a, env) == CaptureTensors(descriptors, b, env)
  {
    if descriptors != [] {
      assert descriptors[0].role in Roles(descriptors);
      assert forall role :: role in Roles(descriptors[1..]) ==> role in Roles(descriptors);
      if descriptors[0].role in a {
        var next := CaptureTensor(descriptors[0], a[descriptors[0].role], env);
        if next.Some? { CaptureReadsOnlyRoles(descriptors[1..], a, b, next.value); }
      }
    }
  }

  lemma SameSizeSubset(a: set<string>, b: set<string>)
    requires a <= b
    ensures |a| == |b| <==> a == b
  {
    assert |b| == |a| + |b - a| by { assert b == a + (b - a); }
  }

  // Native captures succeed exactly when Python's do on a query with exactly the route's roles.
  lemma NativeCaptureAgrees(route: RouteDescriptor, query: Query)
    requires DistinctRoles(route.tensors)
    ensures NativeCapture(route, query) ==
      if query.tensors.Keys == Roles(route.tensors) then CaptureTensors(route.tensors, query.tensors, map[]) else None
  {
    RoleCount(route.tensors);
    assert |query.tensors.Keys| == |query.tensors|;
    if CaptureTensors(route.tensors, query.tensors, map[]).Some? {
      CaptureNeedsRoles(route.tensors, query.tensors, map[]);
      SameSizeSubset(Roles(route.tensors), query.tensors.Keys);
    }
  }

  /** Native evaluation rejects every query whose role set differs from the route's. */
  lemma RolesMustMatch(route: RouteDescriptor, query: Query)
    requires DistinctRoles(route.tensors) && query.tensors.Keys != Roles(route.tensors)
    ensures Evaluated(route, query) == NoMatch
  {
    NativeCaptureAgrees(route, query);
  }

  //////////////////////////////////////////////////////////////////////////////
  // Constraints
  //////////////////////////////////////////////////////////////////////////////

  // Python accepts every check the generator drops.
  predicate DroppedChecksAccept(checks: seq<ConstraintCheck>, env: Environment, ignoreMissing: bool) {
    forall check :: check in checks && ReferencesAttribute(check) ==>
      CheckAccepts(check, env, ignoreMissing) == Accepted
  }

  /** Python accepts all checks exactly when it accepts those the generator keeps and those it drops. */
  lemma {:induction false} KeptAndDropped(checks: seq<ConstraintCheck>, env: Environment, ignoreMissing: bool)
    ensures ChecksAccept(checks, env, ignoreMissing) == Accepted <==>
      && ChecksAccept(WithoutAttributeChecks(checks), env, ignoreMissing) == Accepted
      && DroppedChecksAccept(checks, env, ignoreMissing)
  {
    if checks != [] {
      assert checks == [checks[0]] + checks[1..];
      KeptAndDropped(checks[1..], env, ignoreMissing);
    }
  }

  predicate LoweredChecksReadExactly(checks: seq<ConstraintCheck>, env: Environment) {
    forall check :: check in checks ==> check.literal.None? && ReadsExactly(check, env)
  }

  ghost predicate AllHold(constraints: seq<NativeConstraint>, env: Environment) {
    forall i :: 0 <= i < |constraints| ==> ConstraintHolds(constraints[i], env)
  }

  /** The lowered constraints hold exactly when Python accepts every kept check. */
  lemma {:induction false} ConstraintsAgree(checks: seq<ConstraintCheck>, env: Environment, ignoreMissing: bool)
    requires RenderConstraints(WithoutAttributeChecks(checks)).Some?
    requires LoweredChecksReadExactly(WithoutAttributeChecks(checks), env)
    ensures AllHold(RenderConstraints(WithoutAttributeChecks(checks)).value, env)
        <==> ChecksAccept(WithoutAttributeChecks(checks), env, ignoreMissing) == Accepted
  {
    if checks != [] {
      var check, rest := checks[0], checks[1..];
      if ReferencesAttribute(check) {
        ConstraintsAgree(rest, env, ignoreMissing);
      } else {
        var kept := WithoutAttributeChecks(rest);
        assert WithoutAttributeChecks(checks) == [check] + kept && check in [check] + kept;
        assert forall other :: other in kept ==> other in [check] + kept;
        LoweringPreservesMeaning(check, env, ignoreMissing);
        ConstraintsAgree(rest, env, ignoreMissing);
        var constraints := RenderConstraints(WithoutAttributeChecks(checks)).value;
        assert constraints[0] == RenderConstraint(check).value;
        assert constraints[1..] == RenderConstraints(kept).value;
        assert AllHold(constraints, env) <==> ConstraintHolds(constraints[0], env) && AllHold(constraints[1..], env);
      }
    }
  }

  //////////////////////////////////////////////////////////////////////////////
  // Dropped checks
  //////////////////////////////////////////////////////////////////////////////

  predicate NoAttributeNames(env: Environment) {
    forall name :: name in env ==> !NamesAttribute(name)
  }

  predicate CapturesEqualFirst(names: seq<string>, env: Environment)
    requires names != []
  {
    && names[0] in env
    && forall i :: 1 <= i < |names| && !NamesAttribute(names[i]) ==> names[i] in env && env[names[i]] == env[names[0]]
  }

  // What a dropped check still asks of the captures.
  predicate DroppedCheckHolds(check: ConstraintCheck, env: Environment, ignoreMissing: bool) {
    && ignoreMissing
    && if check.equals != [] then NamesAttribute(check.equals[0]) || CapturesEqualFirst(check.equals, env)
       else check.divides == []
  }

  /** Without attributes Python accepts a dropped check exactly when missing attributes are ignored, it is
      no divides check, and an equals check led by a capture finds its captures equal. */
  lemma DroppedCheckAcceptsIff(check: ConstraintCheck, env: Environment, ignoreMissing: bool)
    requires ParserProduces(check) && ReferencesAttribute(check) && NoAttributeNames(env)
    ensures CheckAccepts(check, env, ignoreMissing) == Accepted <==> DroppedCheckHolds(check, env, ignoreMissing)
  {
    if check.equals != [] {
      DroppedEqualsAcceptsIff(check, env, ignoreMissing);
    } else if check.divides != [] {
      DroppedDividesRejects(check, env);
    }
  }

  lemma DroppedEqualsAcceptsIff(check: ConstraintCheck, env: Environment, ignoreMissing: bool)
    requires check.equals != [] && ParserProduces(check) && ReferencesAttribute(check) && NoAttributeNames(env)
    ensures EqualsAccepts(check.equals, env, ignoreMissing) <==> DroppedCheckHolds(check, env, ignoreMissing)
  {
    assert Populated(check, EqualsField);
    assert !Populated(check, DividesField) && !Populated(check, NameField);
    var k :| 0 <= k < |check.equals| && NamesAttribute(check.equals[k]);
    assert check.equals[k] !in env;
  }

  lemma DroppedDividesRejects(check: ConstraintCheck, env: Environment)
    requires check.equals == [] && check.divides != [] && ParserProduces(check)
    requires ReferencesAttribute(check) && NoAttributeNames(env)
    ensures !DividesAccepts(check.divides, env)
  {
    assert Populated(check, DividesField);
    assert !Populated(check, NameField);
    var k :| 0 <= k < |check.divides| && NamesAttribute(check.divides[k]);
    assert VectorOf(env, check.divides[k]).None?;
  }

  // A check the generator may drop: it is led by an attribute, or all its captures are one capture.
  predicate Droppable(check: ConstraintCheck, ignoreMissing: bool) {
    && ignoreMissing
    && if check.equals != [] then
         || NamesAttribute(check.equals[0])
         || forall i :: 0 <= i < |check.equals| && !NamesAttribute(check.equals[i]) ==>
              check.equals[i] == check.equals[0]
       else check.divides == []
  }

  // Every capture the check names is there.
  predicate BindsCaptures(check: ConstraintCheck, env: Environment) {
    forall name :: name in check.equals + check.divides && !NamesAttribute(name) ==> name in env
  }

  ghost predicate AlwaysAccepted(check: ConstraintCheck, ignoreMissing: bool) {
    forall env :: NoAttributeNames(env) && BindsCaptures(check, env) ==>
      CheckAccepts(check, env, ignoreMissing) == Accepted
  }

  // An environment that binds a check's captures, telling the first from all others.
  function FirstApart(check: ConstraintCheck): (env: Environment)
    ensures NoAttributeNames(env) && BindsCaptures(check, env)
  {
    map name | name in check.equals + check.divides && !NamesAttribute(name) ::
      Scalar(if check.equals != [] && name == check.equals[0] then 0 else 1)
  }

  /** Dropping an attribute constraint leaves every verdict alone, on all environments that bind its
      captures, exactly when it is droppable. */
  lemma DroppingIsHarmlessIffDroppable(check: ConstraintCheck, ignoreMissing: bool)
    requires ParserProduces(check) && ReferencesAttribute(check)
    ensures AlwaysAccepted(check, ignoreMissing) <==> Droppable(check, ignoreMissing)
  {
    if Droppable(check, ignoreMissing) {
      forall env | NoAttributeNames(env) && BindsCaptures(check, env)
        ensures CheckAccepts(check, env, ignoreMissing) == Accepted
      {
        assert forall i :: 0 <= i < |check.equals| ==> check.equals[i] in check.equals + check.divides;
        DroppedCheckAcceptsIff(check, env, ignoreMissing);
      }
    } else {
      var env := FirstApart(check);
      if ignoreMissing && check.equals != [] {
        var i :| 0 <= i < |check.equals| && !NamesAttribute(check.equals[i]) && check.equals[i] != check.equals[0];
        assert check.equals[i] in check.equals + check.divides && check.equals[0] in check.equals + check.divides;
        assert env[check.equals[i]] != env[check.equals[0]];
      }
      DroppedCheckAcceptsIff(check, env, ignoreMissing);
    }
  }

  /** Dropping is not harmless for an equals check that mixes attributes and captures: Python
      still compares the captures. */
  lemma DroppedEqualsCheckChangesTheVerdict()
    ensures var check := ConstraintCheck(None, None, None, None, None, None, None, None, false,
                                         ["x", "y", "attribute.axis"], [], None);
            var env := map["x" := Scalar(1), "y" := Scalar(2)];
            && RenderConstraints(WithoutAttributeChecks([check])) == Some([])
            && ChecksAccept([check], env, true) == Rejected
  {
    var names := ["x", "y", "attribute.axis"];
    assert NamesAttribute(names[2]);
    assert names[1] == "y";
    assert "x"[0] != "y"[0];
  }

  //////////////////////////////////////////////////////////////////////////////
  // One route
  //////////////////////////////////////////////////////////////////////////////

  // The generator lowers the route, and its checks are ones the catalog parser produces.
  predicate Lowerable(route: Route) {
    && RenderRoute(route).Some?
    && DistinctRoles(route.tensors)
    && forall check :: check in route.checks ==> ParserProduces(check)
  }

  // Every number a lowered numeric check reads from these tensors survives float().
  predicate ReadsExactNumbers(route: Route, tensors: map<string, ConcreteTensor>) {
    var env := RouteValues(route, tensors);
    env.Some? ==> forall check :: check in WithoutAttributeChecks(route.checks) ==> ReadsExactly(check, env.value)
  }

  ghost predicate RouteOverflows(route: Route, tensors: map<string, ConcreteTensor>) {
    var captures := CaptureTensors(route.tensors, Payloads(tensors), map[]);
    captures.Some? && Overflows(route.values, captures.value)
  }

  predicate RouteRaises(route: Route, tensors: map<string, ConcreteTensor>, ignoreMissing: bool) {
    var env := RouteValues(route, tensors);
    env.Some? && Raises(route.checks, env.value, ignoreMissing)
  }

  predicate DroppedRouteChecksAccept(route: Route, tensors: map<string, ConcreteTensor>, ignoreMissing: bool) {
    var env := RouteValues(route, tensors);
    env.Some? && DroppedChecksAccept(route.checks, env.value, ignoreMissing)
  }

  // native == unsupported, match and no_match against Python's verdict.
  ghost predicate Refines(native: Evaluation, route: Route, tensors: map<string, ConcreteTensor>, ignoreMissing: bool) {
    var python := RouteVerdict(route, tensors, ignoreMissing);
    && (native == Unsupported <==> RouteOverflows(route, tensors))
    && (native == Match ==> RouteValues(route, tensors).Some?)
    && (native == Match ==> (python == Accepted <==> DroppedRouteChecksAccept(route, tensors, ignoreMissing)))
    && (native == NoMatch ==> python != Accepted)
    && (python == DivisionByZero <==> RouteRaises(route, tensors, ignoreMissing))
  }

  lemma {:induction false} KeptChecksAreLowerable(checks: seq<ConstraintCheck>)
    requires RenderConstraints(WithoutAttributeChecks(checks)).Some?
    requires forall check :: check in checks ==> ParserProduces(check)
    ensures forall check :: check in WithoutAttributeChecks(checks) ==> check in checks && check.literal.None?
  {
    if checks != [] {
      assert checks[0] in checks;
      KeptChecksAreLowerable(checks[1..]);
      if !ReferencesAttribute(checks[0]) && checks[0].literal.Some? {
        LiteralChecksAreRefused(checks[0]);
      }
    }
  }

  lemma RouteRaisesIff(route: Route, tensors: map<string, ConcreteTensor>, ignoreMissing: bool)
    ensures RouteVerdict(route, tensors, ignoreMissing) == DivisionByZero
         <==> RouteRaises(route, tensors, ignoreMissing)
  {
    var env := RouteValues(route, tensors);
    if env.Some? {
      ChecksRaiseIff(route.checks, env.value, ignoreMissing);
    }
  }

  // The route as the generator sees it.
  function Stripped(route: Route): Route {
    route.(checks := WithoutAttributeChecks(route.checks), attributes := {})
  }

  /** On a query with the route's roles, native evaluation of the lowered route is Python's verdict on
      the route without its attribute checks, unless a reached product overflows. */
  lemma NativeEvaluatesStripped(route: Route, tensors: map<string, ConcreteTensor>, query: Query, ignoreMissing: bool)
    requires Lowerable(route) && ReadsExactNumbers(route, tensors)
    requires query.tensors == Payloads(tensors) && tensors.Keys == Roles(route.tensors)
    ensures Evaluated(RenderRoute(route).value, query)
      == if RouteOverflows(route, tensors) then Unsupported
         else if RouteVerdict(Stripped(route), tensors, ignoreMissing) == Accepted then Match else NoMatch
  {
    var native := RenderRoute(route).value;
    assert query.tensors.Keys == tensors.Keys;
    NativeCaptureAgrees(native, query);
    var captures := CaptureTensors(route.tensors, query.tensors, map[]);
    if captures.Some? {
      ResolutionAgrees(route.values, captures.value);
      var env := Resolve(route.values, captures.value);
      if env.Some? {
        KeptChecksAreLowerable(route.checks);
        ConstraintsAgree(route.checks, env.value, ignoreMissing);
      }
    }
  }

  lemma StrippedVerdict(route: Route, tensors: map<string, ConcreteTensor>, ignoreMissing: bool)
    ensures RouteVerdict(route, tensors, ignoreMissing) == Accepted <==>
      && RouteVerdict(Stripped(route), tensors, ignoreMissing) == Accepted
      && DroppedRouteChecksAccept(route, tensors, ignoreMissing)
  {
    var env := RouteValues(route, tensors);
    assert RouteValues(Stripped(route), tensors) == env;
    if env.Some? {
      KeptAndDropped(route.checks, env.value, ignoreMissing);
    }
  }

  /** Native evaluation of the lowered route refines unbounded Python evaluation. It answers unsupported
      exactly when a product overflows; a match is Python's acceptance exactly when Python also accepts the
      dropped checks; no match is never an acceptance; and Python raises exactly when a check it
      reaches divides by zero. */
  lemma NativeRefinesPython(route: Route, tensors: map<string, ConcreteTensor>, query: Query, ignoreMissing: bool)
    requires Lowerable(route) && ReadsExactNumbers(route, tensors)
    requires query.tensors == Payloads(tensors) && tensors.Keys == Roles(route.tensors)
    ensures Refines(Evaluated(RenderRoute(route).value, query), route, tensors, ignoreMissing)
  {
    NativeEvaluatesStripped(route, tensors, query, ignoreMissing);
    StrippedVerdict(route, tensors, ignoreMissing);
    RouteRaisesIff(route, tensors, ignoreMissing);
  }

  // No capture or derived value carries an attribute's name.
  predicate PlainNames(route: Route) {
    && (forall d :: d in route.tensors ==>
      && !NamesAttribute(d.dimensionsCapture)
      && !NamesAttribute(d.stridesCapture)
      && (d.permutationCapture.Some? ==> !NamesAttribute(d.permutationCapture.value)))
    && (forall v :: v in route.values ==> !NamesAttribute(v.name))
  }

  lemma {:induction false} CapturesHavePlainNames(descriptors: seq<TensorDescriptor>, tensors: map<string, Tensor>,
      env: Environment)
    requires NoAttributeNames(env) && CaptureTensors(descriptors, tensors, env).Some?
    requires forall d :: d in descriptors ==>
      && !NamesAttribute(d.dimensionsCapture)
      && !NamesAttribute(d.stridesCapture)
      && (d.permutationCapture.Some? ==> !NamesAttribute(d.permutationCapture.value))
    ensures NoAttributeNames(CaptureTensors(descriptors, tensors, env).value)
  {
    if descriptors != [] {
      assert descriptors[0] in descriptors;
      var next := CaptureTensor(descriptors[0], tensors[descriptors[0].role], env).value;
      CapturesHavePlainNames(descriptors[1..], tensors, next);
    }
  }

  lemma {:induction false} ValuesHavePlainNames(definitions: seq<ValueDefinition>, env: Environment)
    requires NoAttributeNames(env) && Resolve(definitions, env).Some?
    requires forall v :: v in definitions ==> !NamesAttribute(v.name)
    ensures NoAttributeNames(Resolve(definitions, env).value)
  {
    if definitions != [] {
      assert definitions[0] in definitions;
      ValuesHavePlainNames(definitions[1..], env[definitions[0].name := Compute(definitions[0].operation, env).value]);
    }
  }

  /** For a route with plain names the dropped checks accept exactly when each asks nothing more of the
      captures, or finds it; when missing attributes count, only a route without any of them passes. */
  lemma DroppedRouteChecksAcceptIff(route: Route, tensors: map<string, ConcreteTensor>, ignoreMissing: bool)
    requires PlainNames(route) && RouteValues(route, tensors).Some?
    requires forall check :: check in route.checks ==> ParserProduces(check)
    ensures DroppedRouteChecksAccept(route, tensors, ignoreMissing) <==>
      forall check :: check in route.checks && ReferencesAttribute(check) ==>
        DroppedCheckHolds(check, RouteValues(route, tensors).value, ignoreMissing)
    ensures !ignoreMissing ==> (DroppedRouteChecksAccept(route, tensors, ignoreMissing) <==>
      forall check :: check in route.checks ==> !ReferencesAttribute(check))
  {
    var captures := CaptureTensors(route.tensors, Payloads(tensors), map[]).value;
    CapturesHavePlainNames(route.tensors, Payloads(tensors), map[]);
    ValuesHavePlainNames(route.values, captures);
    var env := RouteValues(route, tensors).value;
    forall check | check in route.checks && ReferencesAttribute(check)
      ensures CheckAccepts(check, env, ignoreMissing) == Accepted <==> DroppedCheckHolds(check, env, ignoreMissing)
    {
      DroppedCheckAcceptsIff(check, env, ignoreMissing);
    }
  }

  //////////////////////////////////////////////////////////////////////////////
  // Missing and surplus roles
  //////////////////////////////////////////////////////////////////////////////

  // The tensors under the route's own roles.
  function Own(route: Route, tensors: map<string, ConcreteTensor>): map<string, ConcreteTensor> {
    map role | role in Roles(route.tensors) && role in tensors :: tensors[role]
  }

  // Surplus tensors change neither Python's captures nor, therefore, its verdict.
  lemma SurplusTensorsAreIgnored(route: Route, tensors: map<string, ConcreteTensor>)
    ensures RouteValues(route, Own(route, tensors)) == RouteValues(route, tensors)
    ensures RouteOverflows(route, Own(route, tensors)) <==> RouteOverflows(route, tensors)
    ensures forall ignoreMissing ::
      RouteVerdict(route, Own(route, tensors), ignoreMissing) == RouteVerdict(route, tensors, ignoreMissing)
  {
    CaptureReadsOnlyRoles(route.tensors, Payloads(Own(route, tensors)), Payloads(tensors), map[]);
  }

  lemma MissingRoleRejects(route: Route, tensors: map<string, ConcreteTensor>)
    requires !(Roles(route.tensors) <= tensors.Keys)
    ensures RouteValues(route, tensors).None? && !RouteOverflows(route, tensors)
  {
    if CaptureTensors(route.tensors, Payloads(tensors), map[]).Some? {
      CaptureNeedsRoles(route.tensors, Payloads(tensors), map[]);
    }
  }

  /** The selector process asked about one route, with the tensors under the route's own roles, refines
      Python on every set of tensors, missing and surplus roles included. */
  lemma SelectorAcceptsTensors(route: Route, tensors: map<string, ConcreteTensor>, query: Query)
    requires Lowerable(route) && ReadsExactNumbers(route, tensors)
    requires query.tensors == Payloads(Own(route, tensors))
    ensures Refines(Evaluated(RenderRoute(route).value, query), route, tensors, true)
  {
    RouteRaisesIff(route, tensors, true);
    if Roles(route.tensors) <= tensors.Keys {
      SurplusTensorsAreIgnored(route, tensors);
      NativeRefinesPython(route, Own(route, tensors), query, true);
    } else {
      MissingRoleRejects(route, tensors);
      OtherRolesReject(route, Own(route, tensors), query, true);
    }
  }

  /** Native and Python agree on all the tensors of a query, without overflow and dropped checks in the
      way, exactly unless there are surplus roles and Python accepts the tensors under the route's own. */
  lemma VerdictsAgreeIffNoSurplus(route: Route, tensors: map<string, ConcreteTensor>, query: Query, ignoreMissing: bool)
    requires Lowerable(route) && ReadsExactNumbers(route, tensors) && query.tensors == Payloads(tensors)
    requires !RouteOverflows(route, tensors)
    requires RouteValues(route, tensors).Some? ==> DroppedRouteChecksAccept(route, tensors, ignoreMissing)
    ensures (Evaluated(RenderRoute(route).value, query) == Match
             <==> RouteVerdict(route, tensors, ignoreMissing) == Accepted)
      <==> !(Roles(route.tensors) < tensors.Keys && RouteVerdict(route, Own(route, tensors), ignoreMissing) == Accepted)
  {
    if tensors.Keys == Roles(route.tensors) {
      SameRolesAgree(route, tensors, query, ignoreMissing);
    } else {
      SurplusTensorsAreIgnored(route, tensors);
      OtherRolesReject(route, tensors, query, ignoreMissing);
    }
  }

  lemma SameRolesAgree(route: Route, tensors: map<string, ConcreteTensor>, query: Query, ignoreMissing: bool)
    requires Lowerable(route) && ReadsExactNumbers(route, tensors) && query.tensors == Payloads(tensors)
    requires tensors.Keys == Roles(route.tensors) && !RouteOverflows(route, tensors)
    requires RouteValues(route, tensors).Some? ==> DroppedRouteChecksAccept(route, tensors, ignoreMissing)
    ensures Evaluated(RenderRoute(route).value, query) == Match
         <==> RouteVerdict(route, tensors, ignoreMissing) == Accepted
  {
    NativeRefinesPython(route, tensors, query, ignoreMissing);
  }

  lemma OtherRolesReject(route: Route, tensors: map<string, ConcreteTensor>, query: Query, ignoreMissing: bool)
    requires Lowerable(route) && query.tensors == Payloads(tensors) && tensors.Keys != Roles(route.tensors)
    ensures Evaluated(RenderRoute(route).value, query) == NoMatch
    ensures !(Roles(route.tensors) <= tensors.Keys) ==> RouteVerdict(route, tensors, ignoreMissing) == Rejected
  {
    assert query.tensors.Keys == tensors.Keys;
    RolesMustMatch(RenderRoute(route).value, query);
    if !(Roles(route.tensors) <= tensors.Keys) {
      MissingRoleRejects(route, tensors);
    }
  }

  const PLAIN_ROUTE := Route("plain", [TensorDescriptor("x", None, "dims", "strides", None)], [], [], {})

  const SMALL_TENSOR := ConcreteTensor("f32", [Dimension("d0", 4, 1)], None)

  lemma PlainRouteAccepts(tensors: map<string, ConcreteTensor>, ignoreMissing: bool)
    requires "x" in tensors && tensors["x"] == SMALL_TENSOR
    ensures Lowerable(PLAIN_ROUTE) && Roles(PLAIN_ROUTE.tensors) == {"x"}
    ensures RouteValues(PLAIN_ROUTE, tensors) == Some(map["dims" := Vector([4]), "strides" := Vector([1])])
    ensures RouteVerdict(PLAIN_ROUTE, tensors, ignoreMissing) == Accepted && !RouteOverflows(PLAIN_ROUTE, tensors)
  {
    var descriptors, payload := PLAIN_ROUTE.tensors, Payloads(tensors)["x"];
    assert payload == Tensor("f32", [4], [1], None);
    assert "dims"[0] != "strides"[0];
    var env := map["dims" := Vector([4])];
    assert Store(map[], "dims", Vector([4])) == Some(env);
    assert Store(env, "strides", Vector([1])) == Some(env["strides" := Vector([1])]);
    assert CaptureTensor(descriptors[0], payload, map[]) == Some(env["strides" := Vector([1])]);
    assert CaptureTensors(descriptors[1..], Payloads(tensors), env["strides" := Vector([1])])
        == Some(env["strides" := Vector([1])]);
    assert Roles(descriptors) == {"x"};
    assert !Overflows(PLAIN_ROUTE.values, env["strides" := Vector([1])]);
  }

  /** One tensor more than the route names: Python accepts, native rejects. */
  lemma SurplusRoleIsRejectedNatively(query: Query)
    requires query.tensors == Payloads(map["x" := SMALL_TENSOR, "y" := SMALL_TENSOR])
    ensures Lowerable(PLAIN_ROUTE)
    ensures RouteVerdict(PLAIN_ROUTE, map["x" := SMALL_TENSOR, "y" := SMALL_TENSOR], true) == Accepted
    ensures Evaluated(RenderRoute(PLAIN_ROUTE).value, query) == NoMatch
  {
    PlainRouteAccepts(map["x" := SMALL_TENSOR, "y" := SMALL_TENSOR], true);
    assert "y" in query.tensors.Keys && "x"[0] != "y"[0];
    RolesMustMatch(RenderRoute(PLAIN_ROUTE).value, query);
  }

  //////////////////////////////////////////////////////////////////////////////
  // Selection
  //////////////////////////////////////////////////////////////////////////////

  // Route k is the first allowed one that is not rejected.
  ghost predicate Decides(routes: seq<RouteDescriptor>, query: Query, k: nat, evaluation: Evaluation)
    requires k < |routes|
  {
    && Allowed(query, routes[k].id)
    && Evaluated(routes[k], query) == evaluation
    && forall j :: 0 <= j < k && Allowed(query, routes[j].id) ==> Evaluated(routes[j], query) == NoMatch
  }

  lemma DecidesStep(routes: seq<RouteDescriptor>, query: Query, k: nat, evaluation: Evaluation)
    requires 0 < k < |routes|
    ensures Decides(routes, query, k, evaluation) <==>
      (Allowed(query, routes[0].id) ==> Evaluated(routes[0], query) == NoMatch)
      && Decides(routes[1..], query, k - 1, evaluation)
  {
    var rest := routes[1..];
    if Decides(routes, query, k, evaluation) {
      assert forall j :: 0 <= j < k - 1 ==> rest[j] == routes[j + 1];
    }
    if Decides(rest, query, k - 1, evaluation) {
      assert forall j :: 0 < j < k ==> routes[j] == rest[j - 1];
    }
  }

  /** Selection is exact: the winner is the first allowed route that matches with every earlier allowed
      route rejecting, unsupported names such a first overflowing route, and nothing matches
      only when every allowed route rejects. */
  lemma {:induction false} SelectionIsFirstDecision(routes: seq<RouteDescriptor>, query: Query)
    ensures forall id :: SelectedFrom(routes, query) == Selected(id) <==>
      exists k: nat :: k < |routes| && Decides(routes, query, k, Match) && routes[k].id == id
    ensures SelectedFrom(routes, query) == NotSupported <==>
      exists k: nat :: k < |routes| && Decides(routes, query, k, Unsupported)
    ensures SelectedFrom(routes, query) == NothingMatches <==>
      forall k :: 0 <= k < |routes| && Allowed(query, routes[k].id) ==> Evaluated(routes[k], query) == NoMatch
  {
    if routes != [] {
      var rest := routes[1..];
      SelectionIsFirstDecision(rest, query);
      forall k: nat, e | 0 < k < |routes|
        ensures Decides(routes, query, k, e) <==>
          (Allowed(query, routes[0].id) ==> Evaluated(routes[0], query) == NoMatch) && Decides(rest, query, k - 1, e)
      {
        DecidesStep(routes, query, k, e);
      }
      if Allowed(query, routes[0].id) && Evaluated(routes[0], query) != NoMatch {
        assert Decides(routes, query, 0, Evaluated(routes[0], query));
      } else {
        assert forall k: nat :: k < |rest| ==> rest[k] == routes[k + 1];
        forall k: nat, e | k < |rest| && Decides(rest, query, k, e) ensures Decides(routes, query, k + 1, e) {}
      }
    }
  }

  // Route k of the table decides the query: allowed, with this evaluation, and every allowed route
  // before it rejected.
  ghost predicate DecidesFirst(routes: seq<RouteDescriptor>, query: Query, k: nat, evaluation: Evaluation)
    requires k < |routes|
  {
    && IsAllowed(query, routes[k].id) && Evaluated(routes[k], query) == evaluation
    && forall j :: 0 <= j < k && IsAllowed(query, routes[j].id) ==> Evaluated(routes[j], query) == NoMatch
  }

  predicate IsAllowed(query: Query, id: string) {
    query.allowedRouteIds.Some? ==>
      exists i :: 0 <= i < |query.allowedRouteIds.value| && query.allowedRouteIds.value[i] == id
  }

  /** Selection on a whole query: unsupported exactly with attributes, for an unknown operation or at a
      first overflowing route; otherwise the first matching route, or none if every allowed route
      rejects. */
  lemma SelectionIsExact(table: map<string, seq<RouteDescriptor>>, op: string, query: Query)
    ensures SelectionOf(table, op, query) == NotSupported <==>
      || (exists name :: name in query.attributes)
      || op !in table
      || exists k: nat :: k < |table[op]| && DecidesFirst(table[op], query, k, Unsupported)
    ensures forall id :: SelectionOf(table, op, query) == Selected(id) <==>
      && query.attributes == {} && op in table
      && exists k: nat :: k < |table[op]| && DecidesFirst(table[op], query, k, Match) && table[op][k].id == id
    ensures SelectionOf(table, op, query) == NothingMatches <==>
      && query.attributes == {} && op in table
      && forall k :: 0 <= k < |table[op]| && IsAllowed(query, table[op][k].id) ==>
           Evaluated(table[op][k], query) == NoMatch
  {
    forall id ensures IsAllowed(query, id) <==> Allowed(query, id) {}
    if query.attributes == {} && op in table {
      SelectionIsFirstDecision(table[op], query);
      forall k: nat, e | k < |table[op]|
        ensures DecidesFirst(table[op], query, k, e) <==> Decides(table[op], query, k, e) {}
    }
  }

  lemma EvaluationIgnoresAllowList(route: RouteDescriptor, query: Query, allowed: Option<seq<string>>)
    ensures Evaluated(route, query.(allowedRouteIds := allowed)) == Evaluated(route, query)
  {
  }

  /** Narrowing the allow list to one that still contains the winner keeps the winner. */
  lemma {:induction false} NarrowerAllowListKeepsWinner(routes: seq<RouteDescriptor>, query: Query,
      allowed: seq<string>)
    requires SelectedFrom(routes, query).Selected?
    requires SelectedFrom(routes, query).routeId in allowed
    requires forall id :: id in allowed ==> Allowed(query, id)
    ensures SelectedFrom(routes, query.(allowedRouteIds := Some(allowed))) == SelectedFrom(routes, query)
  {
    EvaluationIgnoresAllowList(routes[0], query, Some(allowed));
    if !Allowed(query, routes[0].id) || Evaluated(routes[0], query) == NoMatch {
      NarrowerAllowListKeepsWinner(routes[1..], query, allowed);
    }
  }

  /** Asking about one route of a table evaluates exactly that route. */
  lemma {:induction false} SingletonAllowListEvaluates(routes: seq<RouteDescriptor>, query: Query, k: nat)
    requires k < |routes| && query.allowedRouteIds == Some([routes[k].id])
    requires forall i, j :: 0 <= i < j < |routes| ==> routes[i].id != routes[j].id
    ensures SelectedFrom(routes, query) == match Evaluated(routes[k], query)
      case Match => Selected(routes[k].id)
      case NoMatch => NothingMatches
      case Unsupported => NotSupported
  {
    if k > 0 {
      assert !Allowed(query, routes[0].id);
      SingletonAllowListEvaluates(routes[1..], query, k - 1);
    } else {
      NothingElseAllowed(routes[1..], query);
    }
  }

  lemma {:induction false} NothingElseAllowed(routes: seq<RouteDescriptor>, query: Query)
    requires forall route :: route in routes ==> !Allowed(query, route.id)
    ensures SelectedFrom(routes, query) == NothingMatches
  {
    if routes != [] {
      assert routes[0] in routes;
      NothingElseAllowed(routes[1..], query);
    }
  }
}
