// What a shape dictionary holds, entry by entry: the entries the encoder writes, the rank bounds read from
// the checks, and the defaults added for bindings.
module ShapeEntries {
  import opened Wrappers
  import opened RouteModel
  import opened Matching
  import opened Text
  import opened ShapeKeys
  import opened ShapeCodec
  import opened ShapeRoundTrip
  import opened ShapeTheorems
  import Permutations
  import Strides

  /** The names of the entries. */
  lemma KeyNames()
    ensures Render(Dim(0)) == "d0" && Render(Dim(12)) == "d12"
    ensures Render(Size("src0", 3)) == "src0_d3"
    ensures Render(Stride("dst", 10)) == "dst_d10_stride"
    ensures Render(Perm("src0", 1)) == "src0_perm1"
  {
    assert Decimal(0) == "0" && Decimal(1) == "1" && Decimal(2) == "2" && Decimal(3) == "3";
    assert Decimal(12) == Decimal(1) + "2" && Decimal(10) == Decimal(1) + "0";
  }

  //////////////////////////////////////////////////////////////////////////////
  // Encoded entries
  //////////////////////////////////////////////////////////////////////////////

  // The sizes of a tensor lead the dictionary under d0, d1, ..., and it has no size entries of its own.
  ghost predicate LedBy(shape: Shape, tensors: Tensors, rank: nat, role: string) {
    FindTensor(tensors, role).Some? &&
    var dims := FindTensor(tensors, role).value.dimensions;
    && |dims| == rank <= |shape|
    && forall i :: 0 <= i < rank ==>
      && shape[i] == (DimensionName(i), dims[i].size)
      && Find(shape, DimensionName(i)) == Some(dims[i].size)
      && Find(shape, Render(Size(role, i))) == None
  }

  /** The tensor named dst leads the dictionary, and without one the route's first tensor does. */
  lemma DestinationLeads(route: Route, tensors: Tensors, rank: nat)
    requires Encodable(route, tensors, rank)
    ensures Encode(route, tensors).Ok?
    ensures FindTensor(tensors, "dst").Some? ==> LedBy(Encode(route, tensors).value, tensors, rank, "dst")
    ensures FindTensor(tensors, "dst").None? ==>
      LedBy(Encode(route, tensors).value, tensors, rank, route.tensors[0].role)
  {
    EncodingSucceeds(route, tensors, rank);
    assert route.tensors[0] in route.tensors;
    AnchorLeads(route, tensors, AnchorSizes(route, tensors),
      if FindTensor(tensors, "dst").Some? then "dst" else route.tensors[0].role);
  }

  lemma AnchorLeads(route: Route, tensors: Tensors, anchor: seq<int>, role: string)
    requires Uniform(tensors, |anchor|) && DistinctTensors(tensors) && FindTensor(tensors, role).Some?
    requires anchor == SizesOf(FindTensor(tensors, role).value.dimensions)
    ensures LedBy(Print(ShapeOf(route, tensors, anchor)), tensors, |anchor|, role)
  {
    DimensionsComeFirst(route, tensors, anchor);
    forall i | 0 <= i < |anchor|
      ensures Find(Print(ShapeOf(route, tensors, anchor)), DimensionName(i)) == Some(anchor[i])
      ensures Find(Print(ShapeOf(route, tensors, anchor)), Render(Size(role, i))) == None
    {
      FindInShape(route, tensors, anchor, Dim(i));
      FindInShape(route, tensors, anchor, Size(role, i));
    }
  }

  lemma DimensionsComeFirst(route: Route, tensors: Tensors, anchor: seq<int>)
    requires Uniform(tensors, |anchor|)
    ensures |anchor| <= |ShapeOf(route, tensors, anchor)|
    ensures forall i :: 0 <= i < |anchor| ==>
      Print(ShapeOf(route, tensors, anchor))[i] == (DimensionName(i), anchor[i])
  {
    var keys := DimKeys(anchor, 0);
    DimKeysInOrder(anchor, 0);
    forall i | 0 <= i < |anchor|
      ensures Print(ShapeOf(route, tensors, anchor))[i] == (DimensionName(i), anchor[i])
    {
      assert ShapeOf(route, tensors, anchor)[i] == keys[i];
    }
  }

  lemma {:induction false} DimKeysInOrder(sizes: seq<int>, i: nat)
    requires i <= |sizes|
    ensures |DimKeys(sizes, i)| == |sizes| - i
    ensures forall k :: 0 <= k < |sizes| - i ==> DimKeys(sizes, i)[k] == (Dim(i + k), sizes[i + k])
    decreases |sizes| - i
  {
    if i < |sizes| {
      var rest := DimKeys(sizes, i + 1);
      DimKeysInOrder(sizes, i + 1);
      forall k | 0 < k < |sizes| - i ensures DimKeys(sizes, i)[k] == (Dim(i + k), sizes[i + k]) {
        assert DimKeys(sizes, i)[k] == rest[k - 1];
      }
    }
  }

  // The product of the extents before an axis.
  function Contiguous(dims: seq<Dimension>, i: nat): int
    requires i <= |dims|
  {
    if i == 0 then 1 else Contiguous(dims, i - 1) * dims[i - 1].size
  }

  lemma {:induction false} ContiguousIsStride(tensor: ConcreteTensor, i: nat)
    requires i < |tensor.dimensions|
    ensures Contiguous(tensor.dimensions, i) == Strides.Strides(Sizes(tensor))[i]
  {
    if i > 0 {
      ContiguousIsStride(tensor, i - 1);
      Strides.NextProduct(Sizes(tensor), i - 1);
    }
  }

  /** A tensor's size is written exactly where it differs from the leading tensor's, its stride exactly where it is
      not the contiguous one. */
  lemma OverridesWherever(route: Route, tensors: Tensors, rank: nat, name: string, i: nat)
    requires Encodable(route, tensors, rank) && FindTensor(tensors, name).Some? && i < rank
    ensures Encode(route, tensors).Ok?
    ensures var shape, axis := Encode(route, tensors).value, FindTensor(tensors, name).value.dimensions;
      && |axis| == rank
      && Find(shape, Render(Size(name, i)))
         == (if Find(shape, DimensionName(i)) == Some(axis[i].size) then None else Some(axis[i].size))
      && Find(shape, Render(Stride(name, i)))
         == if axis[i].stride == Contiguous(axis, i) then None else Some(axis[i].stride)
  {
    EncodingSucceeds(route, tensors, rank);
    var anchor, tensor := AnchorSizes(route, tensors), FindTensor(tensors, name).value;
    assert NamedTensor(name, tensor) in tensors;
    FindInShape(route, tensors, anchor, Dim(i));
    FindInShape(route, tensors, anchor, Size(name, i));
    FindInShape(route, tensors, anchor, Stride(name, i));
    ContiguousIsStride(tensor, i);
  }

  // Whether the route captures the permutation of a role.
  predicate CapturesPermutation(route: Route, role: string) {
    exists k :: 0 <= k < |route.tensors| && route.tensors[k].role == role && route.tensors[k].permutationCapture.Some?
  }

  predicate CountsUp(p: seq<int>) {
    forall i :: 0 <= i < |p| ==> p[i] == i
  }

  /** A tensor's permutation is written, axis by axis, exactly when the route captures it and it is not the
      identity. */
  lemma PermutationsWherever(route: Route, tensors: Tensors, rank: nat, name: string, i: nat)
    requires Encodable(route, tensors, rank) && FindTensor(tensors, name).Some?
    ensures Encode(route, tensors).Ok?
    ensures var p := FindTensor(tensors, name).value.permutation;
      Find(Encode(route, tensors).value, Render(Perm(name, i)))
      == if CapturesPermutation(route, name) && p.Some? && !CountsUp(p.value) && i < |p.value|
         then Some(p.value[i]) else None
  {
    EncodingSucceeds(route, tensors, rank);
    var p := FindTensor(tensors, name).value.permutation;
    FindInShape(route, tensors, AnchorSizes(route, tensors), Perm(name, i));
    CapturedBy(route, route.tensors, name);
    assert p.Some? ==> (CountsUp(p.value) <==> p.value == Permutations.Iota(|p.value|));
  }

  lemma {:induction false} CapturedBy(route: Route, descriptors: seq<TensorDescriptor>, role: string)
    requires forall i, j :: 0 <= i < j < |descriptors| ==> descriptors[i].role != descriptors[j].role
    ensures var found := FindDescriptor(descriptors, role);
      found.Some? && found.value.permutationCapture.Some? <==>
      exists k :: 0 <= k < |descriptors| && descriptors[k].role == role && descriptors[k].permutationCapture.Some?
  {
    if descriptors != [] {
      CapturedBy(route, descriptors[1..], role);
      assert forall k :: 0 < k < |descriptors| ==> descriptors[k] == descriptors[1..][k - 1];
      assert forall k :: 0 <= k < |descriptors[1..]| ==> descriptors[1..][k] == descriptors[k + 1];
    }
  }

  //////////////////////////////////////////////////////////////////////////////
  // Rank bounds
  //////////////////////////////////////////////////////////////////////////////

  predicate OnLength(check: ConstraintCheck, capture: string) {
    check.name == Some(capture) && check.length.Some?
  }

  predicate OnRank(check: ConstraintCheck, capture: string) {
    check.name == Some(capture) && check.length.None?
  }

  ghost predicate LastAt(checks: seq<ConstraintCheck>, capture: string, exact: Option<int>, k: nat)
    requires k < |checks|
  {
    && OnLength(checks[k], capture) && checks[k].length == exact
    && forall j :: k < j < |checks| ==> !OnLength(checks[j], capture)
  }

  // The exact rank is the last length asked for.
  ghost predicate LastLength(checks: seq<ConstraintCheck>, capture: string, exact: Option<int>) {
    if exact.None? then forall k :: 0 <= k < |checks| ==> !OnLength(checks[k], capture)
    else exists k :: 0 <= k < |checks| && LastAt(checks, capture, exact, k)
  }

  // The lower bound is the largest asked for.
  ghost predicate LargestMinimum(checks: seq<ConstraintCheck>, capture: string, minimum: Option<int>) {
    && (forall k :: 0 <= k < |checks| && OnRank(checks[k], capture) && checks[k].rankMin.Some? ==>
         minimum.Some? && checks[k].rankMin.value <= minimum.value)
    && (minimum.Some? ==> exists k :: 0 <= k < |checks| && OnRank(checks[k], capture) && checks[k].rankMin == minimum)
  }

  ghost predicate SmallestMaximum(checks: seq<ConstraintCheck>, capture: string, maximum: Option<int>) {
    && (forall k :: 0 <= k < |checks| && OnRank(checks[k], capture) && checks[k].rankMax.Some? ==>
         maximum.Some? && checks[k].rankMax.value >= maximum.value)
    && (maximum.Some? ==> exists k :: 0 <= k < |checks| && OnRank(checks[k], capture) && checks[k].rankMax == maximum)
  }

  lemma LengthAppend(front: seq<ConstraintCheck>, last: ConstraintCheck, capture: string, before: Option<int>)
    requires LastLength(front, capture, before)
    ensures LastLength(front + [last], capture, if OnLength(last, capture) then last.length else before)
  {
    var checks := front + [last];
    assert forall j :: 0 <= j < |front| ==> checks[j] == front[j];
    if OnLength(last, capture) {
      assert checks[|front|] == last && LastAt(checks, capture, last.length, |front|);
    } else if before.Some? {
      var k :| 0 <= k < |front| && LastAt(front, capture, before, k);
      assert LastAt(checks, capture, before, k);
    }
  }

  // The larger, or with `larger` off the smaller, of two optional bounds.
  function Stronger(before: Option<int>, bound: Option<int>, larger: bool): Option<int> {
    if bound.None? then before
    else if before.None? then bound
    else if larger == (bound.value > before.value) then bound
    else before
  }

  lemma MinimumAppend(front: seq<ConstraintCheck>, last: ConstraintCheck, capture: string, before: Option<int>)
    requires LargestMinimum(front, capture, before)
    ensures LargestMinimum(front + [last], capture,
      if OnRank(last, capture) then Stronger(before, last.rankMin, true) else before)
  {
    var checks := front + [last];
    assert checks[|front|] == last;
    assert forall j :: 0 <= j < |front| ==> checks[j] == front[j];
    if before.Some? {
      var k :| 0 <= k < |front| && OnRank(front[k], capture) && front[k].rankMin == before;
      assert OnRank(checks[k], capture) && checks[k].rankMin == before;
    }
  }

  lemma MaximumAppend(front: seq<ConstraintCheck>, last: ConstraintCheck, capture: string, before: Option<int>)
    requires SmallestMaximum(front, capture, before)
    ensures SmallestMaximum(front + [last], capture,
      if OnRank(last, capture) then Stronger(before, last.rankMax, false) else before)
  {
    var checks := front + [last];
    assert checks[|front|] == last;
    assert forall j :: 0 <= j < |front| ==> checks[j] == front[j];
    if before.Some? {
      var k :| 0 <= k < |front| && OnRank(front[k], capture) && front[k].rankMax == before;
      assert OnRank(checks[k], capture) && checks[k].rankMax == before;
    }
  }

  /** The bounds of a capture are its last exact length, its largest minimum and its smallest maximum. */
  lemma {:induction false} BoundsAreTightest(checks: seq<ConstraintCheck>, capture: string)
    ensures var bounds := BoundsForCapture(checks, capture);
      && LastLength(checks, capture, bounds.exact)
      && LargestMinimum(checks, capture, bounds.minimum)
      && SmallestMaximum(checks, capture, bounds.maximum)
  {
    if checks != [] {
      var n := |checks| - 1;
      var before := BoundsForCapture(checks[..n], capture);
      assert checks == checks[..n] + [checks[n]];
      BoundsAreTightest(checks[..n], capture);
      LengthAppend(checks[..n], checks[n], capture, before.exact);
      MinimumAppend(checks[..n], checks[n], capture, before.minimum);
      MaximumAppend(checks[..n], checks[n], capture, before.maximum);
    }
  }

  predicate AsksForRank(checks: seq<ConstraintCheck>, capture: string) {
    exists i :: 0 <= i < |checks| && checks[i].name == Some(capture)
      && (checks[i].length.Some? || checks[i].rankMin.Some? || checks[i].rankMax.Some?)
  }

  lemma AsksForRankIff(checks: seq<ConstraintCheck>, capture: string)
    ensures Constrains(BoundsForCapture(checks, capture)) <==> AsksForRank(checks, capture)
  {
    var bounds := BoundsForCapture(checks, capture);
    BoundsAreTightest(checks, capture);
    if AsksForRank(checks, capture) {
      var i :| 0 <= i < |checks| && checks[i].name == Some(capture)
        && (checks[i].length.Some? || checks[i].rankMin.Some? || checks[i].rankMax.Some?);
      assert OnLength(checks[i], capture) || OnRank(checks[i], capture);
    }
  }

  predicate FirstBounded(route: Route, descriptors: seq<TensorDescriptor>, k: nat)
    requires k < |descriptors|
  {
    && AsksForRank(route.checks, descriptors[k].dimensionsCapture)
    && forall j :: 0 <= j < k ==> !AsksForRank(route.checks, descriptors[j].dimensionsCapture)
  }

  /** A route's rank constraint is that of its first tensor whose extents any check bounds. */
  lemma {:induction false} FirstBoundedTensorDecides(route: Route, descriptors: seq<TensorDescriptor>)
    ensures RankConstraint(route, descriptors).None? <==>
      forall k :: 0 <= k < |descriptors| ==> !AsksForRank(route.checks, descriptors[k].dimensionsCapture)
    ensures forall k: nat :: k < |descriptors| && FirstBounded(route, descriptors, k) ==>
      RankConstraint(route, descriptors) == Some(BoundsForCapture(route.checks, descriptors[k].dimensionsCapture))
  {
    if descriptors != [] {
      var rest := descriptors[1..];
      AsksForRankIff(route.checks, descriptors[0].dimensionsCapture);
      FirstBoundedTensorDecides(route, rest);
      assert forall k :: 0 < k < |descriptors| ==> descriptors[k] == rest[k - 1];
      assert forall k :: 0 <= k < |rest| ==> rest[k] == descriptors[k + 1];
    }
  }

  //////////////////////////////////////////////////////////////////////////////
  // Binding defaults
  //////////////////////////////////////////////////////////////////////////////

  /** Every binding on a shape entry that is not there yet and can be resolved gets its default. */
  lemma {:induction false} EveryDefaultIsAdded(sources: seq<Option<string>>, tensors: Tensors, known: Shape, k: nat,
      key: string)
    requires k < |sources| && sources[k] == Some("shape." + key)
    requires Find(known, key).None? && BindingDefault(key, tensors).Some?
    ensures Find(DefaultsFor(sources, tensors, known), key) == BindingDefault(key, tensors)
  {
    var rest := sources[1..];
    assert ("shape." + key)[6..] == key;
    if sources[0].Some? && StartsWith(sources[0].value, SHAPE_PREFIX) {
      var first := sources[0].value[|SHAPE_PREFIX|..];
      if Find(known, first).None? && BindingDefault(first, tensors).Some? {
        var entry := (first, BindingDefault(first, tensors).value);
        FindInConcatenation(known, [entry], key);
        FindInConcatenation([entry], DefaultsFor(rest, tensors, known + [entry]), key);
        if first != key {
          assert rest[k - 1] == sources[k];
          EveryDefaultIsAdded(rest, tensors, known + [entry], k - 1, key);
        }
      } else {
        assert first != key;
        assert rest[k - 1] == sources[k];
        EveryDefaultIsAdded(rest, tensors, known, k - 1, key);
      }
    } else {
      assert StartsWith("shape." + key, SHAPE_PREFIX);
      assert rest[k - 1] == sources[k];
      EveryDefaultIsAdded(rest, tensors, known, k - 1, key);
    }
  }

  //////////////////////////////////////////////////////////////////////////////
  // Errors
  //////////////////////////////////////////////////////////////////////////////

  /** Decoding fails exactly on lists of different lengths or a repeated name, and otherwise pairs the lists up. */
  lemma DecodingFailsIff(params: seq<string>, values: seq<int>)
    ensures Decode(params, values) == Err(RuntimeError) <==>
      |params| != |values| || exists i, j :: 0 <= i < j < |params| && params[i] == params[j]
    ensures Decode(params, values).Ok? ==>
      var shape := Decode(params, values).value;
      |shape| == |params| && forall i :: 0 <= i < |shape| ==> shape[i] == (params[i], values[i])
    ensures Decode(params, values).Err? ==> Decode(params, values) == Err(RuntimeError)
  {
  }

  predicate Has(shape: Shape, name: string) {
    exists i :: 0 <= i < |shape| && shape[i].0 == name
  }

  /** A permutation is read when all its entries are there, missing when none is, and an error in between. */
  lemma PermutationsAreReadWhole(role: string, shape: Shape, rank: nat)
    ensures MaterializedPermutation(role, shape, rank) == Ok(None)
      <==> forall i: nat :: i < rank ==> !Has(shape, Render(Perm(role, i)))
    ensures MaterializedPermutation(role, shape, rank) == Err(KeyError)
      <==> ((exists i: nat :: i < rank && Has(shape, Render(Perm(role, i))))
            && (exists i: nat :: i < rank && !Has(shape, Render(Perm(role, i)))))
    ensures var read := MaterializedPermutation(role, shape, rank);
      read.Ok? && read.value.Some? ==>
        |read.value.value| == rank
        && forall i: nat :: i < rank ==> Find(shape, Render(Perm(role, i))) == Some(read.value.value[i])
  {
    forall i: nat | i < rank ensures HasPermutationKey(role, shape, i) <==> Has(shape, Render(Perm(role, i))) {
      FindMeansPresent(shape, Render(Perm(role, i)));
    }
  }

  /** A rank-constrained route cannot be materialized at an exact rank that is not positive, at one
      whose extents are not all there, with extents that are not d0, d1 and so on, or at a number of
      extents outside its bounds. */
  lemma MaterializationFails(route: Route, shape: Shape, bounds: RankBounds, i: nat)
    requires RankConstraint(route, route.tensors) == Some(bounds)
    ensures bounds.exact.Some? && bounds.exact.value <= 0 ==> Materialize(route, shape) == Err(RuntimeError)
    ensures bounds.exact.Some? && i < bounds.exact.value && !Has(shape, DimensionName(i)) ==>
      Materialize(route, shape) == Err(KeyError)
    ensures var indices := DimensionIndices(shape);
      bounds.exact.None? && indices != [] && !Permutations.IsPermutation(indices) ==>
        Materialize(route, shape) == Err(KeyError)
    ensures var indices := DimensionIndices(shape);
      bounds.exact.None? && indices != [] && Permutations.IsPermutation(indices)
      && ((bounds.minimum.Some? && |indices| < bounds.minimum.value)
          || (bounds.maximum.Some? && |indices| > bounds.maximum.value)) ==>
        Materialize(route, shape) == Err(RuntimeError)
  {
    ConstraintConstrains(route, route.tensors);
    FindMeansPresent(shape, DimensionName(i));
    Permutations.SortedIsIotaIffPermutation(DimensionIndices(shape));
  }

  lemma {:induction false} NoExtentsNoNames(shape: Shape, i: nat)
    requires DimensionIndices(shape) == []
    ensures Find(shape, DimensionName(i)).None?
  {
    if shape != [] {
      DimensionNames(Dim(i));
      NoExtentsNoNames(shape[1..], i);
    }
  }

  /** Without any extents the rank is the lower bound, or lacking one the upper bound, and that is an
      error: the extents are missing if it is positive, and no rank can be zero or less. */
  lemma NoExtentsFail(route: Route, shape: Shape, bounds: RankBounds)
    requires RankConstraint(route, route.tensors) == Some(bounds) && bounds.exact.None? && DimensionIndices(shape) == []
    requires bounds.minimum.Some? || bounds.maximum.Some?
    ensures var rank := if bounds.minimum.Some? then bounds.minimum.value else bounds.maximum.value;
      Materialize(route, shape) == Err(if rank <= 0 then RuntimeError else KeyError)
  {
    NoExtentsNoNames(shape, 0);
  }

  /** Without a rank constraint materialization fails exactly when d0 is missing or the extents are not d0, d1 and so on,
      and otherwise gives every tensor of the route as many extents as there are, and no permutation. */
  lemma UnconstrainedFailsIff(route: Route, shape: Shape)
    requires RankConstraint(route, route.tensors).None?
    ensures Materialize(route, shape) == Err(KeyError)
      <==> !Has(shape, "d0") || !Permutations.IsPermutation(DimensionIndices(shape))
    ensures Materialize(route, shape).Err? ==> Materialize(route, shape) == Err(KeyError)
    ensures Materialize(route, shape).Ok? ==>
      var tensors := Materialize(route, shape).value;
      && |tensors| == |route.tensors|
      && forall k :: 0 <= k < |tensors| ==>
        && tensors[k].name == route.tensors[k].role
        && |tensors[k].tensor.dimensions| == |DimensionIndices(shape)|
        && tensors[k].tensor.permutation.None?
  {
    KeyNames();
    FindMeansPresent(shape, DimensionName(0));
    Permutations.SortedIsIotaIffPermutation(DimensionIndices(shape));
  }
}
