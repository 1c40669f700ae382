// Shape dictionaries: routing/v2/layout.py prints tensors into them, matching.py materializes
// tensors out of them, and route_query_config.py adds binding defaults.
module ShapeCodec {
  import opened Wrappers
  import opened RouteModel
  import opened Matching
  import opened Text
  import opened ShapeKeys
  import Permutations
  import Strides

  datatype PythonError = KeyError | RuntimeError

  // A dictionary in insertion order.
  type Shape = seq<(string, int)>

  datatype NamedTensor = NamedTensor(name: string, tensor: ConcreteTensor)

  type Tensors = seq<NamedTensor>

  function Find(shape: Shape, key: string): Option<int> {
    if shape == [] then None
    else if shape[0].0 == key then Some(shape[0].1)
    else Find(shape[1..], key)
  }

  function FindTensor(tensors: Tensors, name: string): (r: Option<ConcreteTensor>)
    ensures r.Some? ==> NamedTensor(name, r.value) in tensors
  {
    if tensors == [] then None
    else if tensors[0].name == name then Some(tensors[0].tensor)
    else FindTensor(tensors[1..], name)
  }

  function FindDescriptor(descriptors: seq<TensorDescriptor>, role: string): (r: Option<TensorDescriptor>)
    ensures r.Some? ==> r.value in descriptors && r.value.role == role
  {
    if descriptors == [] then None
    else if descriptors[0].role == role then Some(descriptors[0])
    else FindDescriptor(descriptors[1..], role)
  }

  //////////////////////////////////////////////////////////////////////////////
  // encode_route_shape
  //////////////////////////////////////////////////////////////////////////////

  function SizeItems(dims: seq<Dimension>): Shape {
    seq(|dims|, i requires 0 <= i < |dims| => (dims[i].name, dims[i].size))
  }

  // The dictionary of anchor sizes: a repeated dimension name keeps its last size.
  function AnchorSize(anchor: seq<Dimension>, name: string): Option<int> {
    if anchor == [] then None
    else if anchor[|anchor| - 1].name == name then Some(anchor[|anchor| - 1].size)
    else AnchorSize(anchor[..|anchor| - 1], name)
  }

  function Prepend<T>(items: seq<T>, rest: Result<seq<T>, PythonError>): Result<seq<T>, PythonError> {
    if rest.Ok? then Ok(items + rest.value) else rest
  }

  lemma PrependNothing<T>(rest: Result<seq<T>, PythonError>)
    ensures Prepend([], rest) == rest
  {
    if rest.Ok? { assert [] + rest.value == rest.value; }
  }

  lemma PrependTwice<T>(a: seq<T>, b: seq<T>, rest: Result<seq<T>, PythonError>)
    ensures Prepend(a, Prepend(b, rest)) == Prepend(a + b, rest)
  {
    if rest.Ok? { assert a + (b + rest.value) == a + b + rest.value; }
  }

  // The overrides of one axis: its size when it differs from the anchor's, its stride when it
  // is not the contiguous one.
  function AxisItems(tensor: string, dimension: Dimension, anchorSize: int, defaultStride: int): Shape {
    (if dimension.size != anchorSize then [(tensor + "_" + dimension.name, dimension.size)] else [])
    + (if dimension.stride != defaultStride
       then [(tensor + "_" + dimension.name + STRIDE_SUFFIX, dimension.stride)] else [])
  }

  function DimensionItems(named: NamedTensor, anchor: seq<Dimension>, i: nat): Result<Shape, PythonError>
    requires i <= |named.tensor.dimensions|
    decreases |named.tensor.dimensions| - i
  {
    var dims := named.tensor.dimensions;
    if i == |dims| then Ok([])
    else match AnchorSize(anchor, dims[i].name)
      case None => Err(KeyError)
      case Some(size) =>
        Prepend(AxisItems(named.name, dims[i], size, Strides.Strides(Sizes(named.tensor))[i]),
          DimensionItems(named, anchor, i + 1))
  }

  function PermutationItems(tensor: string, permutation: seq<int>, i: nat): Shape
    requires i <= |permutation|
    decreases |permutation| - i
  {
    if i == |permutation| then []
    else [(tensor + "_perm" + Decimal(i), permutation[i])] + PermutationItems(tensor, permutation, i + 1)
  }

  // Identity, absent and uncaptured permutations are not written.
  function WrittenPermutation(route: Route, named: NamedTensor): Option<seq<int>> {
    var descriptor := FindDescriptor(route.tensors, named.name);
    if descriptor.None? || descriptor.value.permutationCapture.None? || named.tensor.permutation.None? then None
    else if named.tensor.permutation.value == Permutations.Iota(|named.tensor.permutation.value|) then None
    else named.tensor.permutation
  }

  function TensorItems(route: Route, named: NamedTensor, anchor: seq<Dimension>): Result<Shape, PythonError> {
    match DimensionItems(named, anchor, 0)
    case Err(e) => Err(e)
    case Ok(items) => match WrittenPermutation(route, named)
      case None => Ok(items)
      case Some(p) => Ok(items + PermutationItems(named.name, p, 0))
  }

  function TensorsItems(route: Route, tensors: Tensors, anchor: seq<Dimension>): Result<Shape, PythonError> {
    if tensors == [] then Ok([])
    else match TensorItems(route, tensors[0], anchor)
      case Err(e) => Err(e)
      case Ok(items) => Prepend(items, TensorsItems(route, tensors[1..], anchor))
  }

  function Anchor(route: Route, tensors: Tensors): Option<ConcreteTensor>
    requires route.tensors != []
  {
    FindTensor(tensors, if FindTensor(tensors, "dst").Some? then "dst" else route.tensors[0].role)
  }

  function Encode(route: Route, tensors: Tensors): Result<Shape, PythonError> {
    if route.tensors == [] then Ok([])
    else match Anchor(route, tensors)
      case None => Err(KeyError)
      case Some(anchor) =>
        Prepend(SizeItems(anchor.dimensions), TensorsItems(route, tensors, anchor.dimensions))
  }

  method EncodeDimensions(named: NamedTensor, anchor: seq<Dimension>) returns (items: Result<Shape, PythonError>)
    ensures items == DimensionItems(named, anchor, 0)
  {
    var dims := named.tensor.dimensions;
    var defaults := Strides.ContiguousStrides(Sizes(named.tensor));
    var done: Shape := [];
    PrependNothing(DimensionItems(named, anchor, 0));
    for i := 0 to |dims|
      invariant DimensionItems(named, anchor, 0) == Prepend(done, DimensionItems(named, anchor, i))
    {
      var size := AnchorSize(anchor, dims[i].name);
      if size.None? {
        return Err(KeyError);
      }
      var axis := AxisItems(named.name, dims[i], size.value, defaults[i]);
      PrependTwice(done, axis, DimensionItems(named, anchor, i + 1));
      done := done + axis;
    }
    assert done + [] == done;
    items := Ok(done);
  }

  method EncodePermutation(tensor: string, axes: seq<int>) returns (items: Shape)
    ensures items == PermutationItems(tensor, axes, 0)
  {
    items := [];
    for i := 0 to |axes|
      invariant PermutationItems(tensor, axes, 0) == items + PermutationItems(tensor, axes, i)
    {
      items := items + [(tensor + "_perm" + Decimal(i), axes[i])];
    }
  }

  method EncodeRouteShape(route: Route, tensors: Tensors) returns (shape: Result<Shape, PythonError>)
    ensures shape == Encode(route, tensors)
  {
    if route.tensors == [] {
      return Ok([]);
    }
    var anchor := Anchor(route, tensors);
    if anchor.None? {
      return Err(KeyError);
    }
    var dims := anchor.value.dimensions;
    var items := SizeItems(dims);
    for k := 0 to |tensors|
      invariant Encode(route, tensors) == Prepend(items, TensorsItems(route, tensors[k..], dims))
    {
      assert tensors[k..][1..] == tensors[k + 1..];
      var own := EncodeDimensions(tensors[k], dims);
      if own.Err? {
        return own;
      }
      var written := own.value;
      var permutation := WrittenPermutation(route, tensors[k]);
      if permutation.Some? {
        var axes := EncodePermutation(tensors[k].name, permutation.value);
        written := written + axes;
      }
      PrependTwice(items, written, TensorsItems(route, tensors[k + 1..], dims));
      items := items + written;
    }
    assert items + [] == items;
    shape := Ok(items);
  }

  //////////////////////////////////////////////////////////////////////////////
  // decode_shape
  //////////////////////////////////////////////////////////////////////////////

  function Params(shape: Shape): seq<string> {
    seq(|shape|, i requires 0 <= i < |shape| => shape[i].0)
  }

  function Values(shape: Shape): seq<int> {
    seq(|shape|, i requires 0 <= i < |shape| => shape[i].1)
  }

  predicate DistinctNames(params: seq<string>) {
    forall i, j :: 0 <= i < j < |params| ==> params[i] != params[j]
  }

  function Decode(params: seq<string>, values: seq<int>): Result<Shape, PythonError> {
    if |params| != |values| || !DistinctNames(params) then Err(RuntimeError)
    else Ok(seq(|params|, i requires 0 <= i < |params| => (params[i], values[i])))
  }

  method DecodeShape(params: seq<string>, values: seq<int>) returns (shape: Result<Shape, PythonError>)
    ensures shape == Decode(params, values)
  {
    if |params| != |values| {
      return Err(RuntimeError);
    }
    var decoded: Shape := [];
    for k := 0 to |params|
      invariant |decoded| == k
      invariant forall i :: 0 <= i < k ==> decoded[i] == (params[i], values[i])
      invariant DistinctNames(params[..k])
    {
      FindMeansPresent(decoded, params[k]);
      if Find(decoded, params[k]).Some? {
        var i :| 0 <= i < k && decoded[i].0 == params[k];
        assert !DistinctNames(params);
        return Err(RuntimeError);
      }
      decoded := decoded + [(params[k], values[k])];
    }
    assert params[..|params|] == params;
    assert decoded == seq(|params|, i requires 0 <= i < |params| => (params[i], values[i]));
    shape := Ok(decoded);
  }

  lemma FindMeansPresent(shape: Shape, key: string)
    ensures Find(shape, key).Some? <==> exists i :: 0 <= i < |shape| && shape[i].0 == key
  {
    if shape != [] && shape[0].0 != key {
      FindMeansPresent(shape[1..], key);
      assert forall i :: 0 < i < |shape| ==> shape[i] == shape[1..][i - 1];
    }
  }

  //////////////////////////////////////////////////////////////////////////////
  // materialize_route_tensors
  //////////////////////////////////////////////////////////////////////////////

  datatype RankBounds = RankBounds(exact: Option<int>, minimum: Option<int>, maximum: Option<int>)

  function Tighter(current: Option<int>, bound: int, larger: bool): Option<int> {
    if current.None? || (larger && bound > current.value) || (!larger && bound < current.value)
    then Some(bound) else current
  }

  function AddCheck(bounds: RankBounds, check: ConstraintCheck, capture: string): RankBounds {
    if check.name != Some(capture) then bounds
    else if check.length.Some? then bounds.(exact := check.length)
    else RankBounds(bounds.exact,
      if check.rankMin.Some? then Tighter(bounds.minimum, check.rankMin.value, true) else bounds.minimum,
      if check.rankMax.Some? then Tighter(bounds.maximum, check.rankMax.value, false) else bounds.maximum)
  }

  function BoundsForCapture(checks: seq<ConstraintCheck>, capture: string): RankBounds {
    if checks == [] then RankBounds(None, None, None)
    else AddCheck(BoundsForCapture(checks[..|checks| - 1], capture), checks[|checks| - 1], capture)
  }

  // _constraint_for_capture, without the per-axis bounds only default shapes use.
  method ConstraintForCapture(route: Route, capture: string) returns (bounds: RankBounds)
    ensures bounds == BoundsForCapture(route.checks, capture)
  {
    bounds := RankBounds(None, None, None);
    for k := 0 to |route.checks|
      invariant bounds == BoundsForCapture(route.checks[..k], capture)
    {
      bounds := AddCheck(bounds, route.checks[k], capture);
      assert route.checks[..k + 1][..k] == route.checks[..k];
    }
    assert route.checks[..|route.checks|] == route.checks;
  }

  predicate Constrains(bounds: RankBounds) {
    bounds.exact.Some? || bounds.minimum.Some? || bounds.maximum.Some?
  }

  // _shape_capture_for_route: the first tensor whose dimensions capture bounds the rank.
  function RankConstraint(route: Route, descriptors: seq<TensorDescriptor>): Option<RankBounds> {
    if descriptors == [] then None
    else
      var bounds := BoundsForCapture(route.checks, descriptors[0].dimensionsCapture);
      if Constrains(bounds) then Some(bounds) else RankConstraint(route, descriptors[1..])
  }

  function DimensionIndices(shape: Shape): seq<int> {
    if shape == [] then []
    else if IsDimensionName(shape[0].0) then [DimensionIndex(shape[0].0)] + DimensionIndices(shape[1..])
    else DimensionIndices(shape[1..])
  }

  // The dimension entry with a given index.
  function DimensionEntry(shape: Shape, index: int): Option<(string, int)> {
    if shape == [] then None
    else if IsDimensionName(shape[0].0) && DimensionIndex(shape[0].0) == index then Some(shape[0])
    else DimensionEntry(shape[1..], index)
  }

  function MaterializedRank(bounds: RankBounds, shape: Shape): Result<int, PythonError>
    requires Constrains(bounds)
  {
    if bounds.exact.Some? then Ok(bounds.exact.value)
    else
      var indices := DimensionIndices(shape);
      if indices == [] then
        Ok(if bounds.minimum.Some? then bounds.minimum.value else bounds.maximum.value)
      else if Permutations.Sorted(indices) != Permutations.Iota(|indices|) then Err(KeyError)
      else if !RankAccepts(|indices|, None, bounds.minimum, bounds.maximum) then Err(RuntimeError)
      else Ok(|indices|)
  }

  predicate HasDimensions(shape: Shape, rank: nat) {
    forall i :: 0 <= i < rank ==> Find(shape, DimensionName(i)).Some?
  }

  function OrElse(value: Option<int>, otherwise: int): int {
    if value.Some? then value.value else otherwise
  }

  function MaterializedSizes(role: string, shape: Shape, rank: nat): (s: seq<int>)
    requires HasDimensions(shape, rank)
    ensures |s| == rank
  {
    seq(rank, i requires 0 <= i < rank =>
      OrElse(Find(shape, Render(Size(role, i))), Find(shape, DimensionName(i)).value))
  }

  function MaterializedDimensions(role: string, shape: Shape, rank: nat): (d: seq<Dimension>)
    requires HasDimensions(shape, rank)
    ensures |d| == rank
  {
    var sizes := MaterializedSizes(role, shape, rank);
    seq(rank, i requires 0 <= i < rank =>
      Dimension(DimensionName(i), sizes[i],
        OrElse(Find(shape, Render(Stride(role, i))), Strides.Strides(sizes)[i])))
  }

  predicate HasPermutationKey(role: string, shape: Shape, i: nat) {
    Find(shape, Render(Perm(role, i))).Some?
  }

  function MaterializedPermutation(role: string, shape: Shape, rank: nat): Result<Option<seq<int>>, PythonError> {
    if forall i :: 0 <= i < rank ==> !HasPermutationKey(role, shape, i) then Ok(None)
    else if exists i :: 0 <= i < rank && !HasPermutationKey(role, shape, i) then Err(KeyError)
    else Ok(Some(seq(rank, i requires 0 <= i < rank && HasPermutationKey(role, shape, i) =>
      Find(shape, Render(Perm(role, i))).value)))
  }

  function Dtype(descriptor: TensorDescriptor): string {
    if descriptor.dtype.Some? then descriptor.dtype.value else ""
  }

  function MaterializedTensor(descriptor: TensorDescriptor, shape: Shape,
      rank: nat): Result<ConcreteTensor, PythonError>
    requires HasDimensions(shape, rank)
  {
    var dimensions := MaterializedDimensions(descriptor.role, shape, rank);
    if descriptor.permutationCapture.None? then Ok(ConcreteTensor(Dtype(descriptor), dimensions, None))
    else match MaterializedPermutation(descriptor.role, shape, rank)
      case Err(e) => Err(e)
      case Ok(permutation) => Ok(ConcreteTensor(Dtype(descriptor), dimensions, permutation))
  }

  function MaterializedTensors(descriptors: seq<TensorDescriptor>, shape: Shape,
      rank: nat): Result<Tensors, PythonError>
    requires HasDimensions(shape, rank)
  {
    if descriptors == [] then Ok([])
    else match MaterializedTensor(descriptors[0], shape, rank)
      case Err(e) => Err(e)
      case Ok(tensor) =>
        Prepend([NamedTensor(descriptors[0].role, tensor)], MaterializedTensors(descriptors[1..], shape, rank))
  }

  // Without a rank constraint every tensor gets the same contiguous dimensions.
  function SharedDimensions(shape: Shape): (d: seq<Dimension>)
    requires forall i :: 0 <= i < |DimensionIndices(shape)| ==> DimensionEntry(shape, i).Some?
  {
    var n := |DimensionIndices(shape)|;
    var sizes := seq(n, i requires 0 <= i < n => DimensionEntry(shape, i).value.1);
    seq(n, i requires 0 <= i < n => Dimension(DimensionEntry(shape, i).value.0, sizes[i], Strides.Strides(sizes)[i]))
  }

  lemma IndexHasEntry(shape: Shape, index: int)
    requires index in DimensionIndices(shape)
    ensures DimensionEntry(shape, index).Some?
  {
  }

  function MaterializeShared(route: Route, shape: Shape): Result<Tensors, PythonError> {
    var indices := DimensionIndices(shape);
    if Find(shape, DimensionName(0)).None? || Permutations.Sorted(indices) != Permutations.Iota(|indices|)
    then Err(KeyError)
    else
      Permutations.SortedIsIotaIffPermutation(indices);
      assert forall i :: 0 <= i < |indices| ==> DimensionEntry(shape, i).Some? by {
        forall i | 0 <= i < |indices| ensures DimensionEntry(shape, i).Some? {
          Permutations.PermutationIsOnto(indices, i);
          IndexHasEntry(shape, i);
        }
      }
      var dimensions := SharedDimensions(shape);
      Ok(seq(|route.tensors|, k requires 0 <= k < |route.tensors| =>
        NamedTensor(route.tensors[k].role, ConcreteTensor(Dtype(route.tensors[k]), dimensions, None))))
  }

  function Materialize(route: Route, shape: Shape): Result<Tensors, PythonError> {
    match RankConstraint(route, route.tensors)
    case None => MaterializeShared(route, shape)
    case Some(bounds) =>
      ConstraintConstrains(route, route.tensors);
      match MaterializedRank(bounds, shape)
      case Err(e) => Err(e)
      case Ok(rank) =>
        if rank <= 0 then Err(RuntimeError)
        else if !HasDimensions(shape, rank) then Err(KeyError)
        else MaterializedTensors(route.tensors, shape, rank)
  }

  lemma ConstraintConstrains(route: Route, descriptors: seq<TensorDescriptor>)
    ensures RankConstraint(route, descriptors).Some? ==> Constrains(RankConstraint(route, descriptors).value)
  {
  }

  method MaterializeDimensions(role: string, shape: Shape, rank: nat) returns (dimensions: seq<Dimension>)
    requires HasDimensions(shape, rank)
    ensures dimensions == MaterializedDimensions(role, shape, rank)
  {
    var sizes := [];
    for i := 0 to rank
      invariant sizes == MaterializedSizes(role, shape, rank)[..i]
    {
      sizes := sizes + [OrElse(Find(shape, Render(Size(role, i))), Find(shape, DimensionName(i)).value)];
    }
    assert sizes == MaterializedSizes(role, shape, rank);
    var defaults := Strides.ContiguousStrides(sizes);
    dimensions := [];
    for i := 0 to rank
      invariant dimensions == MaterializedDimensions(role, shape, rank)[..i]
    {
      var stride := OrElse(Find(shape, Render(Stride(role, i))), defaults[i]);
      dimensions := dimensions + [Dimension(DimensionName(i), sizes[i], stride)];
    }
  }

  // The rank-constrained part of materialize_route_tensors.
  method MaterializeTensors(route: Route, shape: Shape, rank: nat) returns (tensors: Result<Tensors, PythonError>)
    requires HasDimensions(shape, rank)
    ensures tensors == MaterializedTensors(route.tensors, shape, rank)
  {
    var done: Tensors := [];
    PrependNothing(MaterializedTensors(route.tensors, shape, rank));
    assert route.tensors[0..] == route.tensors;
    for k := 0 to |route.tensors|
      invariant MaterializedTensors(route.tensors, shape, rank)
             == Prepend(done, MaterializedTensors(route.tensors[k..], shape, rank))
    {
      var descriptor := route.tensors[k];
      assert route.tensors[k..][1..] == route.tensors[k + 1..];
      var dimensions := MaterializeDimensions(descriptor.role, shape, rank);
      var permutation: Option<seq<int>> := None;
      if descriptor.permutationCapture.Some? {
        var read := MaterializedPermutation(descriptor.role, shape, rank);
        if read.Err? {
          return Err(read.error);
        }
        permutation := read.value;
      }
      var named := NamedTensor(descriptor.role, ConcreteTensor(Dtype(descriptor), dimensions, permutation));
      PrependTwice(done, [named], MaterializedTensors(route.tensors[k + 1..], shape, rank));
      done := done + [named];
    }
    assert done + [] == done;
    tensors := Ok(done);
  }

  method MaterializeRouteTensors(route: Route, shape: Shape) returns (tensors: Result<Tensors, PythonError>)
    ensures tensors == Materialize(route, shape)
  {
    var constraint := RankConstraint(route, route.tensors);
    if constraint.None? {
      return MaterializeShared(route, shape);
    }
    ConstraintConstrains(route, route.tensors);
    var rank := MaterializedRank(constraint.value, shape);
    if rank.Err? {
      return Err(rank.error);
    }
    if rank.value <= 0 {
      return Err(RuntimeError);
    }
    if !HasDimensions(shape, rank.value) {
      return Err(KeyError);
    }
    tensors := MaterializeTensors(route, shape, rank.value);
  }

  //////////////////////////////////////////////////////////////////////////////
  // Binding defaults
  //////////////////////////////////////////////////////////////////////////////

  function FindDimension(dims: seq<Dimension>, name: string): Option<Dimension> {
    if dims == [] then None
    else if dims[0].name == name then Some(dims[0])
    else FindDimension(dims[1..], name)
  }

  function LookupAxis(tensors: Tensors, base: string): Option<Dimension> {
    var splitAt := RFind(base, '_');
    if splitAt <= 0 then None
    else match FindTensor(tensors, base[..splitAt])
      case None => None
      case Some(tensor) => FindDimension(tensor.dimensions, base[splitAt + 1..])
  }

  // _resolve_shape_binding_default
  function BindingDefault(key: string, tensors: Tensors): Option<int> {
    if EndsWith(key, STRIDE_SUFFIX) then
      var axis := LookupAxis(tensors, key[..|key| - |STRIDE_SUFFIX|]);
      if axis.Some? then Some(axis.value.stride) else None
    else
      var axis := LookupAxis(tensors, key);
      if axis.Some? then Some(axis.value.size) else None
  }

  const SHAPE_PREFIX := "shape."

  // The defaults added by the remaining bindings, given what is already in the dictionary.
  function DefaultsFor(sources: seq<Option<string>>, tensors: Tensors, known: Shape): Shape {
    if sources == [] then []
    else if sources[0].None? || !StartsWith(sources[0].value, SHAPE_PREFIX)
    then DefaultsFor(sources[1..], tensors, known)
    else
      var key := sources[0].value[|SHAPE_PREFIX|..];
      if Find(known, key).Some? || BindingDefault(key, tensors).None?
      then DefaultsFor(sources[1..], tensors, known)
      else
        var entry := (key, BindingDefault(key, tensors).value);
        [entry] + DefaultsFor(sources[1..], tensors, known + [entry])
  }

  // _shape_binding_defaults; `sources` are the sources of the route's bindings.
  method ShapeBindingDefaults(sources: seq<Option<string>>, tensors: Tensors, existing: Shape) returns (defaults: Shape)
    ensures defaults == DefaultsFor(sources, tensors, existing)
  {
    defaults := [];
    assert existing + [] == existing;
    for k := 0 to |sources|
      invariant DefaultsFor(sources, tensors, existing)
             == defaults + DefaultsFor(sources[k..], tensors, existing + defaults)
    {
      assert sources[k..][1..] == sources[k + 1..];
      if sources[k].Some? && StartsWith(sources[k].value, SHAPE_PREFIX) {
        var key := sources[k].value[|SHAPE_PREFIX|..];
        FindInConcatenation(existing, defaults, key);
        if Find(existing, key).None? && Find(defaults, key).None? {
          var resolved := BindingDefault(key, tensors);
          if resolved.Some? {
            assert existing + defaults + [(key, resolved.value)] == existing + (defaults + [(key, resolved.value)]);
            defaults := defaults + [(key, resolved.value)];
          }
        }
      }
    }
  }

  lemma {:induction false} FindInConcatenation(a: Shape, b: Shape, key: string)
    ensures Find(a + b, key) == if Find(a, key).Some? then Find(a, key) else Find(b, key)
  {
    if a != [] {
      FindInConcatenation(a[1..], b, key);
      assert (a + b)[1..] == a[1..] + b;
    } else {
      assert a + b == b;
    }
  }
}
