// What the round trip means for routes: accepted tensors are still accepted afterwards, and
// routes without a rank constraint lose everything a tensor does not share with the anchor.
module ShapeAcceptance {
  import opened Wrappers
  import opened RouteModel
  import opened Matching
  import opened ShapeKeys
  import opened ShapeCodec
  import opened ShapeRoundTrip
  import opened ShapeTheorems
  import opened Catalog
  import opened Text
  import Permutations
  import Strides

  function Dictionary(tensors: Tensors): map<string, ConcreteTensor> {
    if tensors == [] then map[] else Dictionary(tensors[1..])[tensors[0].name := tensors[0].tensor]
  }

  lemma {:induction false} DictionaryFinds(tensors: Tensors, name: string)
    ensures name in Dictionary(tensors) <==> FindTensor(tensors, name).Some?
    ensures name in Dictionary(tensors) ==> FindTensor(tensors, name) == Some(Dictionary(tensors)[name])
  {
    if tensors != [] { DictionaryFinds(tensors[1..], name); }
  }

  //////////////////////////////////////////////////////////////////////////////
  // Captures survive
  //////////////////////////////////////////////////////////////////////////////

  lemma RebuiltTensorCapturesTheSame(route: Route, descriptor: TensorDescriptor, tensor: ConcreteTensor,
      env: Environment)
    requires FindDescriptor(route.tensors, descriptor.role) == Some(descriptor)
    requires CaptureTensor(descriptor, Payload(tensor), env).Some?
    ensures CaptureTensor(descriptor, Payload(Rebuilt(route, descriptor, tensor)), env)
         == CaptureTensor(descriptor, Payload(tensor), env)
  {
    var rebuilt := Rebuilt(route, descriptor, tensor);
    assert Sizes(rebuilt) == Sizes(tensor) && StrideList(rebuilt) == StrideList(tensor);
    assert descriptor.permutationCapture.Some? ==> PermutationOf(Payload(rebuilt)) == PermutationOf(Payload(tensor));
  }

  lemma {:induction false} FindRebuilt(route: Route, descriptors: seq<TensorDescriptor>, tensors: Tensors, k: nat)
    requires k < |descriptors| && DistinctRoles(descriptors) && HasRoles(descriptors, tensors)
    ensures descriptors[k] in descriptors
    ensures FindTensor(AllRebuilt(route, descriptors, tensors), descriptors[k].role)
         == Some(Rebuilt(route, descriptors[k], FindTensor(tensors, descriptors[k].role).value))
  {
    if k > 0 {
      FindRebuilt(route, descriptors[1..], tensors, k - 1);
      assert descriptors[0].role != descriptors[k].role;
    }
  }

  lemma {:induction false} RebuiltTensorsCaptureTheSame(route: Route, tensors: Tensors, k: nat, env: Environment)
    requires k <= |route.tensors| && DistinctRoles(route.tensors) && HasRoles(route.tensors, tensors)
    requires CaptureTensors(route.tensors[k..], Payloads(Dictionary(tensors)), env).Some?
    ensures CaptureTensors(route.tensors[k..], Payloads(Dictionary(AllRebuilt(route, route.tensors, tensors))), env)
         == CaptureTensors(route.tensors[k..], Payloads(Dictionary(tensors)), env)
    decreases |route.tensors| - k
  {
    if k < |route.tensors| {
      var d, rebuilt := route.tensors[k], AllRebuilt(route, route.tensors, tensors);
      assert route.tensors[k..][0] == d && route.tensors[k..][1..] == route.tensors[k + 1..];
      DictionaryFinds(tensors, d.role);
      DictionaryFinds(rebuilt, d.role);
      FindRebuilt(route, route.tensors, tensors, k);
      FindOwnDescriptor(route.tensors, k);
      RebuiltTensorCapturesTheSame(route, d, Dictionary(tensors)[d.role], env);
      RebuiltTensorsCaptureTheSame(route, tensors, k + 1,
        CaptureTensor(d, Payload(Dictionary(tensors)[d.role]), env).value);
    }
  }

  /** Every value a route derives from its tensors is unchanged by the round trip. */
  lemma RouteValuesSurvive(route: Route, tensors: Tensors)
    requires DistinctRoles(route.tensors) && HasRoles(route.tensors, tensors)
    requires RouteValues(route, Dictionary(tensors)).Some?
    ensures RouteValues(route, Dictionary(AllRebuilt(route, route.tensors, tensors)))
         == RouteValues(route, Dictionary(tensors))
  {
    assert route.tensors[0..] == route.tensors;
    RebuiltTensorsCaptureTheSame(route, tensors, 0, map[]);
  }

  //////////////////////////////////////////////////////////////////////////////
  // Acceptance fixes the rank
  //////////////////////////////////////////////////////////////////////////////

  predicate Extends(later: Environment, earlier: Environment) {
    forall name :: name in earlier ==> name in later && later[name] == earlier[name]
  }

  lemma {:induction false} CapturesGrow(descriptors: seq<TensorDescriptor>, tensors: map<string, Tensor>,
      env: Environment)
    requires CaptureTensors(descriptors, tensors, env).Some?
    ensures Extends(CaptureTensors(descriptors, tensors, env).value, env)
  {
    if descriptors != [] {
      CapturesGrow(descriptors[1..], tensors, CaptureTensor(descriptors[0], tensors[descriptors[0].role], env).value);
    }
  }

  lemma {:induction false} CapturedDimensions(descriptors: seq<TensorDescriptor>, tensors: map<string, Tensor>,
      env: Environment, k: nat)
    requires CaptureTensors(descriptors, tensors, env).Some? && k < |descriptors|
    ensures descriptors[k].role in tensors
    ensures TensorFitsDescriptor(descriptors[k], tensors[descriptors[k].role])
    ensures Lookup(CaptureTensors(descriptors, tensors, env).value, descriptors[k].dimensionsCapture)
         == Some(Vector(tensors[descriptors[k].role].dimensions))
  {
    var next := CaptureTensor(descriptors[0], tensors[descriptors[0].role], env).value;
    if k > 0 {
      CapturedDimensions(descriptors[1..], tensors, next, k - 1);
    } else {
      assert next[descriptors[0].dimensionsCapture] == Vector(tensors[descriptors[0].role].dimensions);
      CapturesGrow(descriptors[1..], tensors, next);
    }
  }

  lemma {:induction false} UnshadowedCaptureSurvives(definitions: seq<ValueDefinition>, env: Environment, name: string)
    requires Resolve(definitions, env).Some?
    requires forall v :: v in definitions ==> v.name != name
    ensures Lookup(Resolve(definitions, env).value, name) == Lookup(env, name)
  {
    if definitions != [] {
      assert definitions[0] in definitions;
      UnshadowedCaptureSurvives(definitions[1..],
        env[definitions[0].name := Compute(definitions[0].operation, env).value], name);
    }
  }

  lemma {:induction false} EveryCheckAccepts(checks: seq<ConstraintCheck>, env: Environment, ignoreMissing: bool)
    requires ChecksAccept(checks, env, ignoreMissing) == Accepted
    ensures forall i :: 0 <= i < |checks| ==> CheckAccepts(checks[i], env, ignoreMissing) == Accepted
  {
    if checks != [] {
      EveryCheckAccepts(checks[1..], env, ignoreMissing);
      assert forall i :: 0 < i < |checks| ==> checks[i] == checks[1..][i - 1];
    }
  }

  predicate RankWithin(bounds: RankBounds, rank: nat) {
    RankAccepts(rank, bounds.exact, bounds.minimum, bounds.maximum)
  }

  lemma OneCheckBoundsRank(check: ConstraintCheck, env: Environment, ignoreMissing: bool, capture: string, v: seq<int>,
      bounds: RankBounds)
    requires ParserProduces(check) && CheckAccepts(check, env, ignoreMissing) == Accepted
    requires Lookup(env, capture) == Some(Vector(v)) && RankWithin(bounds, |v|)
    ensures RankWithin(AddCheck(bounds, check, capture), |v|)
  {
    if check.name == Some(capture) {
      assert Populated(check, NameField);
      assert !Populated(check, EqualsField) && !Populated(check, DividesField);
      if check.literal.Some? {
        assert !Populated(check, LengthField) && !Populated(check, RankMinField) && !Populated(check, RankMaxField);
      } else if check.iota {
        assert Populated(check, IotaField);
        assert !Populated(check, LengthField) && !Populated(check, RankMinField) && !Populated(check, RankMaxField);
      }
    }
  }

  lemma {:induction false} AcceptedRankIsWithin(checks: seq<ConstraintCheck>, n: nat, env: Environment,
      ignoreMissing: bool, capture: string, v: seq<int>)
    requires n <= |checks|
    requires forall i :: 0 <= i < |checks| ==>
      ParserProduces(checks[i]) && CheckAccepts(checks[i], env, ignoreMissing) == Accepted
    requires Lookup(env, capture) == Some(Vector(v))
    ensures RankWithin(BoundsForCapture(checks[..n], capture), |v|)
  {
    if n > 0 {
      AcceptedRankIsWithin(checks, n - 1, env, ignoreMissing, capture, v);
      assert checks[..n][..n - 1] == checks[..n - 1];
      OneCheckBoundsRank(checks[n - 1], env, ignoreMissing, capture, v, BoundsForCapture(checks[..n - 1], capture));
    }
  }

  // The dimensions capture whose checks bound the rank.
  function RankCapture(route: Route, descriptors: seq<TensorDescriptor>): (capture: string)
    requires RankConstraint(route, descriptors).Some?
    ensures RankConstraint(route, descriptors) == Some(BoundsForCapture(route.checks, capture))
    ensures exists k :: 0 <= k < |descriptors| && descriptors[k].dimensionsCapture == capture
  {
    var first := descriptors[0].dimensionsCapture;
    if Constrains(BoundsForCapture(route.checks, first)) then first
    else
      assert forall k :: 0 <= k < |descriptors[1..]| ==> descriptors[1..][k] == descriptors[k + 1];
      RankCapture(route, descriptors[1..])
  }

  predicate BoundsRank(check: ConstraintCheck, capture: string) {
    check.name == Some(capture) && (check.length.Some? || check.rankMin.Some? || check.rankMax.Some?)
  }

  lemma {:induction false} BoundingCheck(checks: seq<ConstraintCheck>, capture: string) returns (k: nat)
    requires Constrains(BoundsForCapture(checks, capture))
    ensures k < |checks| && BoundsRank(checks[k], capture)
  {
    k := |checks| - 1;
    if !BoundsRank(checks[k], capture) {
      k := BoundingCheck(checks[..k], capture);
    }
  }

  lemma BoundingCheckNeedsVector(check: ConstraintCheck, env: Environment, ignoreMissing: bool, capture: string)
    requires ParserProduces(check) && BoundsRank(check, capture) && capture in env
    requires CheckAccepts(check, env, ignoreMissing) == Accepted
    ensures env[capture].Vector?
  {
    assert Populated(check, NameField);
    assert !Populated(check, EqualsField) && !Populated(check, DividesField);
    assert Populated(check, LengthField) || Populated(check, RankMinField) || Populated(check, RankMaxField);
    assert check.literal.None? && !Populated(check, IotaField);
  }

  lemma {:induction false} NamesSurvive(definitions: seq<ValueDefinition>, env: Environment, name: string)
    requires Resolve(definitions, env).Some? && name in env
    ensures name in Resolve(definitions, env).value
  {
    if definitions != [] {
      var next := env[definitions[0].name := Compute(definitions[0].operation, env).value];
      NamesSurvive(definitions[1..], next, name);
    }
  }

  // What the rank-bounding name stands for once all values are derived.
  function FinalExtents(route: Route, tensors: Tensors): Option<seq<int>>
    requires RankConstraint(route, route.tensors).Some? && RouteValues(route, Dictionary(tensors)).Some?
  {
    VectorOf(RouteValues(route, Dictionary(tensors)).value, RankCapture(route, route.tensors))
  }

  lemma RankCaptureIsBound(route: Route, tensors: Tensors)
    requires RankConstraint(route, route.tensors).Some? && RouteValues(route, Dictionary(tensors)).Some?
    ensures RankCapture(route, route.tensors) in RouteValues(route, Dictionary(tensors)).value
  {
    var capture, payloads := RankCapture(route, route.tensors), Payloads(Dictionary(tensors));
    var k :| 0 <= k < |route.tensors| && route.tensors[k].dimensionsCapture == capture;
    CapturedDimensions(route.tensors, payloads, map[], k);
    NamesSurvive(route.values, CaptureTensors(route.tensors, payloads, map[]).value, capture);
  }

  /** An accepting route bounds the length of what its rank-bounding name stands for in the end. */
  lemma AcceptanceBoundsFinalExtents(route: Route, tensors: Tensors, ignoreMissing: bool)
    requires forall check :: check in route.checks ==> ParserProduces(check)
    requires RankConstraint(route, route.tensors).Some?
    requires RouteVerdict(route, Dictionary(tensors), ignoreMissing) == Accepted
    ensures FinalExtents(route, tensors).Some?
    ensures RankWithin(RankConstraint(route, route.tensors).value, |FinalExtents(route, tensors).value|)
  {
    var capture, env := RankCapture(route, route.tensors), RouteValues(route, Dictionary(tensors)).value;
    RankCaptureIsBound(route, tensors);
    EveryCheckAccepts(route.checks, env, ignoreMissing);
    ConstraintConstrains(route, route.tensors);
    var k := BoundingCheck(route.checks, capture);
    assert route.checks[k] in route.checks;
    BoundingCheckNeedsVector(route.checks[k], env, ignoreMissing, capture);
    AcceptedRankIsWithin(route.checks, |route.checks|, env, ignoreMissing, capture, env[capture].v);
    assert route.checks[..|route.checks|] == route.checks;
  }

  // The rank-bounding name still stands for as many extents as the tensors have.
  predicate KeepsRank(route: Route, tensors: Tensors, rank: nat)
    requires RankConstraint(route, route.tensors).Some? && RouteValues(route, Dictionary(tensors)).Some?
  {
    FinalExtents(route, tensors).Some? && |FinalExtents(route, tensors).value| == rank
  }

  /** Tensors a route accepts fit its rank constraint if the rank-bounding name keeps their rank, and, when
      the constraint is an exact rank, only if it does. */
  lemma AcceptanceFixesRank(route: Route, tensors: Tensors, rank: nat, ignoreMissing: bool)
    requires forall check :: check in route.checks ==> ParserProduces(check)
    requires RankConstraint(route, route.tensors).Some?
    requires RouteVerdict(route, Dictionary(tensors), ignoreMissing) == Accepted
    ensures var bounds := RankConstraint(route, route.tensors).value;
      && (KeepsRank(route, tensors, rank) ==> RankFits(bounds, rank))
      && (bounds.exact.Some? ==> (RankFits(bounds, rank) <==> KeepsRank(route, tensors, rank)))
  {
    AcceptanceBoundsFinalExtents(route, tensors, ignoreMissing);
  }

  // No derived value takes over the rank-bounding name.
  predicate RankUnshadowed(route: Route)
    requires RankConstraint(route, route.tensors).Some?
  {
    forall v :: v in route.values ==> v.name != RankCapture(route, route.tensors)
  }

  lemma UnshadowedKeepsRank(route: Route, tensors: Tensors, rank: nat)
    requires Encodable(route, tensors, rank) && RankConstraint(route, route.tensors).Some? && RankUnshadowed(route)
    requires RouteValues(route, Dictionary(tensors)).Some?
    ensures KeepsRank(route, tensors, rank)
  {
    var capture, payloads := RankCapture(route, route.tensors), Payloads(Dictionary(tensors));
    var k :| 0 <= k < |route.tensors| && route.tensors[k].dimensionsCapture == capture;
    CapturedExtents(route, tensors, rank, k);
    UnshadowedCaptureSurvives(route.values, CaptureTensors(route.tensors, payloads, map[]).value, capture);
  }

  lemma CapturedExtents(route: Route, tensors: Tensors, rank: nat, k: nat)
    requires Encodable(route, tensors, rank) && k < |route.tensors|
    requires CaptureTensors(route.tensors, Payloads(Dictionary(tensors)), map[]).Some?
    ensures var extents := VectorOf(CaptureTensors(route.tensors, Payloads(Dictionary(tensors)), map[]).value,
                                    route.tensors[k].dimensionsCapture);
            extents.Some? && |extents.value| == rank
  {
    assert route.tensors[k] in route.tensors;
    DictionaryFinds(tensors, route.tensors[k].role);
    CapturedDimensions(route.tensors, Payloads(Dictionary(tensors)), map[], k);
  }

  lemma AcceptanceFixesPermutations(route: Route, tensors: Tensors)
    requires HasRoles(route.tensors, tensors)
    requires CaptureTensors(route.tensors, Payloads(Dictionary(tensors)), map[]).Some?
    ensures PermutationsFit(route, tensors)
  {
    forall k | 0 <= k < |route.tensors|
      ensures route.tensors[k] in route.tensors && PermutationFits(FindTensor(tensors, route.tensors[k].role).value)
    {
      DictionaryFinds(tensors, route.tensors[k].role);
      CapturedDimensions(route.tensors, Payloads(Dictionary(tensors)), map[], k);
    }
  }

  //////////////////////////////////////////////////////////////////////////////
  // Rank-constrained routes
  //////////////////////////////////////////////////////////////////////////////

  lemma MaterializedTensorsHaveRank(descriptors: seq<TensorDescriptor>, shape: Shape, rank: nat)
    requires HasDimensions(shape, rank) && descriptors != []
    ensures MaterializedTensors(descriptors, shape, rank).Ok? ==>
      var tensors := MaterializedTensors(descriptors, shape, rank).value;
      tensors != [] && |tensors[0].tensor.dimensions| == rank
  {
  }

  // A rank the constraint does not admit is refused, or replaced by the exact rank.
  lemma UnfitRankIsNotRebuilt(route: Route, tensors: Tensors, anchor: seq<int>, extras: Shape)
    requires Encodable(route, tensors, |anchor|) && HarmlessExtras(extras, route, tensors)
    requires RankConstraint(route, route.tensors).Some?
    requires !RankFits(RankConstraint(route, route.tensors).value, |anchor|)
    ensures Materialize(route, Extended(route, tensors, anchor, extras))
         != Ok(AllRebuilt(route, route.tensors, tensors))
  {
    var bounds, shape := RankConstraint(route, route.tensors).value, Extended(route, tensors, anchor, extras);
    ConstraintConstrains(route, route.tensors);
    IndicesOfShape(route, tensors, anchor, extras);
    Permutations.SortedIsIotaIffPermutation(Permutations.Iota(|anchor|));
    assert route.tensors[0] in route.tensors;
    RebuiltAt(route, route.tensors, tensors, 0);
    if bounds.exact.Some? && bounds.exact.value > 0 && HasDimensions(shape, bounds.exact.value) {
      MaterializedTensorsHaveRank(route.tensors, shape, bounds.exact.value);
    }
  }

  /** For a rank-constrained route the round trip gives the tensors back exactly when their rank fits the
      constraint. */
  lemma ConstrainedRoundTripIff(route: Route, tensors: Tensors, rank: nat, extras: Shape)
    requires Encodable(route, tensors, rank) && PermutationsFit(route, tensors) && ExtrasFor(route, tensors, extras)
    requires RankConstraint(route, route.tensors).Some?
    ensures RoundTrip(route, tensors, extras) == Ok(AllRebuilt(route, route.tensors, tensors))
       <==> RankFits(RankConstraint(route, route.tensors).value, rank)
  {
    if RankFits(RankConstraint(route, route.tensors).value, rank) {
      ShapeRoundTrips(route, tensors, rank, extras);
    } else {
      EncodingSucceeds(route, tensors, rank);
      var anchor := AnchorSizes(route, tensors);
      ShapeKeysDistinct(route, tensors, anchor);
      DistinctPrinted(ShapeOf(route, tensors, anchor));
      DecodingRestores(Print(ShapeOf(route, tensors, anchor)), extras);
      UnfitRankIsNotRebuilt(route, tensors, anchor, extras);
    }
  }

  // The round trip returns the tensors, with the same captures and derived values, and the route
  // accepts them again.
  predicate Survives(route: Route, tensors: Tensors, extras: Shape, ignoreMissing: bool)
    requires HasRoles(route.tensors, tensors)
  {
    var back := RoundTrip(route, tensors, extras);
    && back == Ok(AllRebuilt(route, route.tensors, tensors))
    && RouteValues(route, Dictionary(back.value)) == RouteValues(route, Dictionary(tensors))
    && RouteVerdict(route, Dictionary(back.value), ignoreMissing) == Accepted
  }

  /** Any tensors a rank-constrained route accepts survive the round trip, accepted with exactly the same
      captures and derived values, if and only if their rank fits the constraint. */
  lemma AcceptedTensorsStayAccepted(route: Route, tensors: Tensors, rank: nat, extras: Shape, ignoreMissing: bool)
    requires Encodable(route, tensors, rank) && ExtrasFor(route, tensors, extras)
    requires RankConstraint(route, route.tensors).Some?
    requires RouteVerdict(route, Dictionary(tensors), ignoreMissing) == Accepted
    ensures Survives(route, tensors, extras, ignoreMissing)
         <==> RankFits(RankConstraint(route, route.tensors).value, rank)
  {
    AcceptanceFixesPermutations(route, tensors);
    ConstrainedRoundTripIff(route, tensors, rank, extras);
    RouteValuesSurvive(route, tensors);
  }

  /** In particular they survive unless a derived value takes over the rank-bounding name. */
  lemma UnshadowedTensorsStayAccepted(route: Route, tensors: Tensors, rank: nat, extras: Shape, ignoreMissing: bool)
    requires Encodable(route, tensors, rank) && ExtrasFor(route, tensors, extras)
    requires forall check :: check in route.checks ==> ParserProduces(check)
    requires RankConstraint(route, route.tensors).Some? && RankUnshadowed(route)
    requires RouteVerdict(route, Dictionary(tensors), ignoreMissing) == Accepted
    ensures Survives(route, tensors, extras, ignoreMissing)
  {
    UnshadowedKeepsRank(route, tensors, rank);
    AcceptanceFixesRank(route, tensors, rank, ignoreMissing);
    AcceptedTensorsStayAccepted(route, tensors, rank, extras, ignoreMissing);
  }

  //////////////////////////////////////////////////////////////////////////////
  // A derived value that takes over the rank-bounding name
  //////////////////////////////////////////////////////////////////////////////

  function LengthCheck(name: string, length: int): ConstraintCheck {
    ConstraintCheck(Some(name), Some(length), None, None, None, None, None, None, false, [], [], None)
  }

  const SHADOWING_ROUTE := Route("shadowing", [TensorDescriptor("t", None, "x", "s", None)],
    [ValueDefinition("x", Head("x", 1))], [LengthCheck("x", 1), LengthCheck("s", 2)], {})

  const MATRIX := [NamedTensor("t", ConcreteTensor("f32", [Dimension("d0", 4, 1), Dimension("d1", 3, 4)], None))]

  lemma ShadowingRouteValues()
    ensures RouteValues(SHADOWING_ROUTE, Dictionary(MATRIX)) == Some(map["x" := Vector([4]), "s" := Vector([1, 4])])
  {
    var tensor, descriptors := MATRIX[0].tensor, SHADOWING_ROUTE.tensors;
    var tensors := Payloads(Dictionary(MATRIX));
    assert MATRIX[1..] == [] && Dictionary(MATRIX) == map["t" := tensor];
    assert Sizes(tensor) == [4, 3] && StrideList(tensor) == [1, 4];
    assert tensors["t"] == Tensor("f32", [4, 3], [1, 4], None);
    assert "x"[0] != "s"[0];
    var env := map["x" := Vector([4, 3]), "s" := Vector([1, 4])];
    assert CaptureTensor(descriptors[0], tensors["t"], map[]) == Some(env);
    assert CaptureTensors(descriptors[1..], tensors, env) == Some(env);
    assert CaptureTensors(descriptors, tensors, map[]) == Some(env);
    var definitions := SHADOWING_ROUTE.values;
    assert [4, 3][..1] == [4];
    assert Compute(definitions[0].operation, env) == Some(Vector([4]));
    assert Resolve(definitions[1..], env["x" := Vector([4])]) == Some(env["x" := Vector([4])]);
    assert Resolve(definitions, env) == Some(env["x" := Vector([4])]);
    assert env["x" := Vector([4])] == map["x" := Vector([4]), "s" := Vector([1, 4])];
  }

  lemma DimensionNamesOfMatrix()
    ensures DimensionName(0) == "d0" && DimensionName(1) == "d1"
  {
    assert Decimal(0) == "0" && Decimal(1) == "1";
  }

  /** The route accepts the matrix but takes its rank from the shortened vector, so that the round trip
      loses the matrix. */
  lemma ShadowedRankIsLost()
    ensures RouteVerdict(SHADOWING_ROUTE, Dictionary(MATRIX), false) == Accepted
    ensures Encodable(SHADOWING_ROUTE, MATRIX, 2) && RankConstraint(SHADOWING_ROUTE, SHADOWING_ROUTE.tensors).Some?
    ensures !Survives(SHADOWING_ROUTE, MATRIX, [], false)
  {
    ShadowingRouteAccepts();
    MatrixIsEncodable();
    ShadowingBounds();
    EncodingSucceeds(SHADOWING_ROUTE, MATRIX, 2);
    AcceptedTensorsStayAccepted(SHADOWING_ROUTE, MATRIX, 2, [], false);
  }

  lemma ShadowingRouteAccepts()
    ensures RouteVerdict(SHADOWING_ROUTE, Dictionary(MATRIX), false) == Accepted
  {
    var checks, env := SHADOWING_ROUTE.checks, map["x" := Vector([4]), "s" := Vector([1, 4])];
    ShadowingRouteValues();
    assert CheckAccepts(checks[0], env, false) == Accepted && CheckAccepts(checks[1], env, false) == Accepted;
    assert checks[1..] == [checks[1]] && checks[1..][1..] == [];
    assert ChecksAccept(checks[1..], env, false) == Accepted;
  }

  lemma MatrixIsEncodable()
    ensures Encodable(SHADOWING_ROUTE, MATRIX, 2)
  {
    DimensionNamesOfMatrix();
    assert FindTensor(MATRIX, "t") == Some(MATRIX[0].tensor);
  }

  lemma ShadowingBounds()
    ensures RankConstraint(SHADOWING_ROUTE, SHADOWING_ROUTE.tensors) == Some(RankBounds(Some(1), None, None))
  {
    var checks := SHADOWING_ROUTE.checks;
    assert checks[..1] == [LengthCheck("x", 1)] && checks[..1][..0] == [];
    assert "x"[0] != "s"[0];
    assert BoundsForCapture(checks[..1], "x") == RankBounds(Some(1), None, None);
    assert BoundsForCapture(checks, "x") == BoundsForCapture(checks[..1], "x");
  }

  //////////////////////////////////////////////////////////////////////////////
  // Routes without a rank constraint
  //////////////////////////////////////////////////////////////////////////////

  // The tensor is the anchor's contiguous double.
  predicate LikeAnchor(route: Route, descriptor: TensorDescriptor, tensor: ConcreteTensor, anchor: seq<int>) {
    && Sizes(tensor) == anchor
    && StrideList(tensor) == Strides.Strides(anchor)
    && WrittenPermutation(route, NamedTensor(descriptor.role, tensor)).None?
  }

  lemma {:induction false} EntryOfDimension(sizes: seq<int>, i: nat, n: nat, rest: Shape)
    requires i <= n < |sizes|
    ensures DimensionEntry(Print(DimKeys(sizes, i)) + rest, n) == Some((DimensionName(n), sizes[n]))
    decreases |sizes| - i
  {
    var keys := DimKeys(sizes, i);
    DimensionNames(Dim(i));
    PrintTail(keys);
    assert keys[1..] == DimKeys(sizes, i + 1);
    assert (Print(keys) + rest)[1..] == Print(keys[1..]) + rest;
    assert (Print(keys) + rest)[0] == (DimensionName(i), sizes[i]);
    if i < n { EntryOfDimension(sizes, i + 1, n, rest); }
  }

  function ContiguousTensor(anchor: seq<int>): (d: seq<Dimension>)
    ensures |d| == |anchor|
  {
    seq(|anchor|, i requires 0 <= i < |anchor| => Dimension(DimensionName(i), anchor[i], Strides.Strides(anchor)[i]))
  }

  lemma EntriesOfShape(route: Route, tensors: Tensors, anchor: seq<int>, extras: Shape)
    requires Encodable(route, tensors, |anchor|)
    ensures forall n :: 0 <= n < |anchor| ==>
      DimensionEntry(Extended(route, tensors, anchor, extras), n) == Some((DimensionName(n), anchor[n]))
  {
    var rest := Print(TensorsKeys(route, tensors, anchor)) + extras;
    ShapeStartsWithDimensions(route, tensors, anchor, extras);
    forall n | 0 <= n < |anchor|
      ensures DimensionEntry(Extended(route, tensors, anchor, extras), n) == Some((DimensionName(n), anchor[n]))
    {
      EntryOfDimension(anchor, 0, n, rest);
    }
  }

  lemma ShapeStartsWithDimensions(route: Route, tensors: Tensors, anchor: seq<int>, extras: Shape)
    requires Encodable(route, tensors, |anchor|)
    ensures Extended(route, tensors, anchor, extras)
         == Print(DimKeys(anchor, 0)) + (Print(TensorsKeys(route, tensors, anchor)) + extras)
  {
    PrintConcatenation(DimKeys(anchor, 0), TensorsKeys(route, tensors, anchor));
  }

  lemma SharedDimensionsOfShape(shape: Shape, anchor: seq<int>)
    requires |DimensionIndices(shape)| == |anchor|
    requires forall n :: 0 <= n < |anchor| ==> DimensionEntry(shape, n) == Some((DimensionName(n), anchor[n]))
    ensures SharedDimensions(shape) == ContiguousTensor(anchor)
  {
    assert seq(|anchor|, i requires 0 <= i < |anchor| => DimensionEntry(shape, i).value.1) == anchor;
  }

  lemma SharedMaterialization(route: Route, tensors: Tensors, anchor: seq<int>, extras: Shape)
    requires Encodable(route, tensors, |anchor|) && HarmlessExtras(extras, route, tensors)
    ensures MaterializeShared(route, Extended(route, tensors, anchor, extras))
         == Ok(SharedTensors(route, anchor))
  {
    IndicesOfShape(route, tensors, anchor, extras);
    FindExtended(route, tensors, anchor, extras, Dim(0));
    EntriesOfShape(route, tensors, anchor, extras);
    SharedFromEntries(route, Extended(route, tensors, anchor, extras), anchor);
  }

  lemma SharedFromEntries(route: Route, shape: Shape, anchor: seq<int>)
    requires DimensionIndices(shape) == Permutations.Iota(|anchor|) && Find(shape, DimensionName(0)).Some?
    requires forall n :: 0 <= n < |anchor| ==> DimensionEntry(shape, n) == Some((DimensionName(n), anchor[n]))
    ensures MaterializeShared(route, shape) == Ok(SharedTensors(route, anchor))
  {
    Permutations.SortedIsIotaIffPermutation(Permutations.Iota(|anchor|));
    SharedDimensionsOfShape(shape, anchor);
  }

  lemma {:induction false} RebuiltAt(route: Route, descriptors: seq<TensorDescriptor>, tensors: Tensors, k: nat)
    requires HasRoles(descriptors, tensors)
    ensures |AllRebuilt(route, descriptors, tensors)| == |descriptors|
    ensures k < |descriptors| ==>
      && descriptors[k] in descriptors
      && AllRebuilt(route, descriptors, tensors)[k]
         == NamedTensor(descriptors[k].role,
           Rebuilt(route, descriptors[k], FindTensor(tensors, descriptors[k].role).value))
  {
    if descriptors != [] { RebuiltAt(route, descriptors[1..], tensors, if k > 0 then k - 1 else 0); }
  }

  lemma LikeAnchorIffRebuilt(route: Route, descriptor: TensorDescriptor, tensor: ConcreteTensor, anchor: seq<int>)
    requires UniformTensor(tensor, |anchor|)
    ensures LikeAnchor(route, descriptor, tensor, anchor)
       <==> Rebuilt(route, descriptor, tensor) == ConcreteTensor(Dtype(descriptor), ContiguousTensor(anchor), None)
  {
    if LikeAnchor(route, descriptor, tensor, anchor) {
      forall i | 0 <= i < |anchor| ensures tensor.dimensions[i] == ContiguousTensor(anchor)[i] {
        assert Sizes(tensor)[i] == anchor[i] && StrideList(tensor)[i] == Strides.Strides(anchor)[i];
      }
      assert tensor.dimensions == ContiguousTensor(anchor);
    }
    if Rebuilt(route, descriptor, tensor) == ConcreteTensor(Dtype(descriptor), ContiguousTensor(anchor), None) {
      assert Sizes(tensor) == anchor && StrideList(tensor) == Strides.Strides(anchor);
    }
  }

  /** Without a rank constraint the round trip holds exactly when every tensor of the route is a
      contiguous, unpermuted tensor of the anchor's sizes. */
  lemma UnconstrainedRoundTripIff(route: Route, tensors: Tensors, rank: nat, extras: Shape)
    requires Encodable(route, tensors, rank) && ExtrasFor(route, tensors, extras)
    requires RankConstraint(route, route.tensors).None?
    ensures Anchor(route, tensors).Some?
    ensures RoundTrip(route, tensors, extras) == Ok(AllRebuilt(route, route.tensors, tensors))
       <==> forall d :: d in route.tensors ==>
              LikeAnchor(route, d, FindTensor(tensors, d.role).value, AnchorSizes(route, tensors))
  {
    EncodingSucceeds(route, tensors, rank);
    var anchor := AnchorSizes(route, tensors);
    ShapeKeysDistinct(route, tensors, anchor);
    DistinctPrinted(ShapeOf(route, tensors, anchor));
    DecodingRestores(Print(ShapeOf(route, tensors, anchor)), extras);
    SharedMaterialization(route, tensors, anchor, extras);
    SharedIsRebuiltIff(route, tensors, anchor);
  }

  // What every tensor becomes without a rank constraint.
  function SharedTensors(route: Route, anchor: seq<int>): (r: Tensors)
    ensures |r| == |route.tensors|
  {
    seq(|route.tensors|, k requires 0 <= k < |route.tensors| =>
      NamedTensor(route.tensors[k].role, ConcreteTensor(Dtype(route.tensors[k]), ContiguousTensor(anchor), None)))
  }

  lemma SharedIsRebuiltIff(route: Route, tensors: Tensors, anchor: seq<int>)
    requires Encodable(route, tensors, |anchor|)
    ensures SharedTensors(route, anchor) == AllRebuilt(route, route.tensors, tensors)
       <==> forall d :: d in route.tensors ==> LikeAnchor(route, d, FindTensor(tensors, d.role).value, anchor)
  {
    var got, want := SharedTensors(route, anchor), AllRebuilt(route, route.tensors, tensors);
    RebuiltAt(route, route.tensors, tensors, 0);
    forall k | 0 <= k < |route.tensors|
      ensures route.tensors[k] in route.tensors
      ensures got[k] == want[k]
         <==> LikeAnchor(route, route.tensors[k], FindTensor(tensors, route.tensors[k].role).value, anchor)
    {
      RebuiltAt(route, route.tensors, tensors, k);
      LikeAnchorIffRebuilt(route, route.tensors[k], FindTensor(tensors, route.tensors[k].role).value, anchor);
    }
    assert got == want <==> forall k :: 0 <= k < |route.tensors| ==> got[k] == want[k];
  }
}
