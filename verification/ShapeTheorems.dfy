// The round trip through a shape dictionary, and what it means for route acceptance.
module ShapeTheorems {
  import opened Wrappers
  import opened RouteModel
  import opened Matching
  import opened Text
  import opened ShapeKeys
  import opened ShapeCodec
  import opened ShapeRoundTrip
  import Permutations
  import Strides

  //////////////////////////////////////////////////////////////////////////////
  // Binding defaults
  //////////////////////////////////////////////////////////////////////////////

  lemma {:induction false} FindNamedDimension(dims: seq<Dimension>, n: nat, name: string)
    requires n <= |dims|
    ensures FindDimension(dims[n..], name).Some? ==>
      exists k :: n <= k < |dims| && dims[k].name == name && FindDimension(dims[n..], name) == Some(dims[k])
    ensures FindDimension(dims[n..], name).None? ==> forall k :: n <= k < |dims| ==> dims[k].name != name
    decreases |dims| - n
  {
    if n < |dims| {
      FindNamedDimension(dims, n + 1, name);
      assert dims[n..][1..] == dims[n + 1..];
    }
  }

  lemma FindAxis(tensor: ConcreteTensor, rank: nat, i: nat)
    requires UniformTensor(tensor, rank)
    ensures FindDimension(tensor.dimensions, DimensionName(i)) == if i < rank then Some(tensor.dimensions[i]) else None
  {
    var dims := tensor.dimensions;
    assert dims[0..] == dims;
    FindNamedDimension(dims, 0, DimensionName(i));
    forall k | 0 <= k < rank && dims[k].name == DimensionName(i) ensures k == i {
      DimensionNameInjective(k, i);
    }
  }

  // What _resolve_shape_binding_default answers for a tensor key.
  function KnownValue(tensors: Tensors, rank: nat, key: Key): Option<int>
    requires Uniform(tensors, rank)
  {
    if key.Dim? || key.Perm? || key.tensor == "" || FindTensor(tensors, key.tensor).None? || key.index >= rank then None
    else
      var dimension := FindTensor(tensors, key.tensor).value.dimensions[key.index];
      Some(if key.Size? then dimension.size else dimension.stride)
  }

  lemma LookupOfAxis(tensors: Tensors, rank: nat, t: string, i: nat)
    requires Uniform(tensors, rank)
    ensures LookupAxis(tensors, t + "_" + DimensionName(i))
         == if t != "" && FindTensor(tensors, t).Some? && i < rank
            then Some(FindTensor(tensors, t).value.dimensions[i]) else None
  {
    var base := t + ['_'] + DimensionName(i);
    assert base == t + "_" + DimensionName(i);
    DimensionNameHasNoUnderscore(i);
    LastOccurrence(t, '_', DimensionName(i));
    assert base[..|t|] == t && base[|t| + 1..] == DimensionName(i);
    if FindTensor(tensors, t).Some? {
      FindAxis(FindTensor(tensors, t).value, rank, i);
    }
  }

  lemma SuffixEnd(s: string, suffix: string)
    requires EndsWith(s, suffix) && suffix != []
    ensures s[|s| - 1] == suffix[|suffix| - 1]
  {
    assert s[|s| - |suffix|..][|suffix| - 1] == s[|s| - 1];
  }

  lemma EndsInDigit(prefix: string, i: nat)
    ensures !EndsWith(prefix + Decimal(i), STRIDE_SUFFIX)
  {
    var s := prefix + Decimal(i);
    if EndsWith(s, STRIDE_SUFFIX) {
      SuffixEnd(s, STRIDE_SUFFIX);
    }
    DecimalRoundTrip(i);
    assert s[|s| - 1] == Decimal(i)[|Decimal(i)| - 1];
  }

  lemma DefaultOfStride(tensors: Tensors, rank: nat, t: string, i: nat)
    requires Uniform(tensors, rank)
    ensures BindingDefault(Render(Stride(t, i)), tensors) == KnownValue(tensors, rank, Stride(t, i))
  {
    var base := t + "_" + DimensionName(i);
    assert Render(Stride(t, i)) == base + STRIDE_SUFFIX;
    assert Render(Stride(t, i))[..|base|] == base && Render(Stride(t, i))[|base|..] == STRIDE_SUFFIX;
    LookupOfAxis(tensors, rank, t, i);
  }

  lemma DefaultOfSize(tensors: Tensors, rank: nat, t: string, i: nat)
    requires Uniform(tensors, rank)
    ensures BindingDefault(Render(Size(t, i)), tensors) == KnownValue(tensors, rank, Size(t, i))
  {
    assert Render(Size(t, i)) == (t + "_d") + Decimal(i);
    EndsInDigit(t + "_d", i);
    LookupOfAxis(tensors, rank, t, i);
  }

  lemma DefaultOfPerm(tensors: Tensors, rank: nat, t: string, i: nat)
    requires Uniform(tensors, rank)
    ensures BindingDefault(Render(Perm(t, i)), tensors).None?
  {
    assert Render(Perm(t, i)) == (t + "_perm") + Decimal(i);
    EndsInDigit(t + "_perm", i);
    PermKeyNamesNoAxis(tensors, rank, t, i);
  }

  lemma DefaultOfKey(tensors: Tensors, rank: nat, key: Key)
    requires Uniform(tensors, rank) && !key.Dim?
    ensures BindingDefault(Render(key), tensors) == KnownValue(tensors, rank, key)
  {
    match key
    case Size(t, i) => DefaultOfSize(tensors, rank, t, i);
    case Stride(t, i) => DefaultOfStride(tensors, rank, t, i);
    case Perm(t, i) => DefaultOfPerm(tensors, rank, t, i);
  }

  lemma PermKeyNamesNoAxis(tensors: Tensors, rank: nat, t: string, i: nat)
    requires Uniform(tensors, rank)
    ensures LookupAxis(tensors, Render(Perm(t, i))).None?
  {
    var key := Perm(t, i);
    Segments(key);
    var name := LastSegment(key);
    LastOccurrence(t, '_', name);
    assert Render(key)[..|t|] == t && Render(key)[|t| + 1..] == name;
    if FindTensor(tensors, t).Some? {
      var dims := FindTensor(tensors, t).value.dimensions;
      assert dims[0..] == dims;
      FindNamedDimension(dims, 0, name);
      assert forall k :: 0 <= k < |dims| ==> dims[k].name[0] == 'd';
      assert name[0] == 'p';
    }
  }

  // Further dictionary entries that cannot disturb the round trip: a true size or stride, or a
  // name the route never looks up.
  predicate HarmlessEntry(entry: (string, int), route: Route, tensors: Tensors) {
    && !IsDimensionName(entry.0)
    && (BindingDefault(entry.0, tensors) == Some(entry.1) || NeverLookedUp(entry.0, route))
  }

  predicate NeverLookedUp(name: string, route: Route) {
    var splitAt := RFind(name, '_');
    splitAt < 0 || (
      && FindDescriptor(route.tensors, name[..splitAt]).None?
      && (var before := RFind(name[..splitAt], '_');
          before < 0 || FindDescriptor(route.tensors, name[..before]).None?))
  }

  predicate HarmlessExtras(extras: Shape, route: Route, tensors: Tensors) {
    forall k :: 0 <= k < |extras| ==> HarmlessEntry(extras[k], route, tensors)
  }

  lemma RouteKeysAreLookedUp(route: Route, key: Key)
    requires !key.Dim? && FindDescriptor(route.tensors, key.tensor).Some?
    ensures !NeverLookedUp(Render(key), route)
  {
    Segments(key);
    LastOccurrence(BeforeLastSegment(key), '_', LastSegment(key));
    assert Render(key)[..|BeforeLastSegment(key)|] == BeforeLastSegment(key);
    if key.Stride? {
      DimensionNameHasNoUnderscore(key.index);
      LastOccurrence(key.tensor, '_', DimensionName(key.index));
      assert BeforeLastSegment(key) == key.tensor + ['_'] + DimensionName(key.index);
      assert Render(key)[..|key.tensor|] == key.tensor;
    }
  }

  /** Every default _shape_binding_defaults adds is harmless: it restates a tensor's own size or stride. */
  lemma {:induction false} BindingDefaultsAreHarmless(sources: seq<Option<string>>, route: Route, tensors: Tensors,
      known: Shape)
    ensures HarmlessExtras(DefaultsFor(sources, tensors, known), route, tensors)
    ensures forall k :: 0 <= k < |DefaultsFor(sources, tensors, known)| ==>
      Find(known, DefaultsFor(sources, tensors, known)[k].0).None?
    ensures DistinctNames(Params(DefaultsFor(sources, tensors, known)))
  {
    if sources != [] {
      BindingDefaultsAreHarmless(sources[1..], route, tensors, known);
      if sources[0].Some? && StartsWith(sources[0].value, SHAPE_PREFIX) {
        var key := sources[0].value[|SHAPE_PREFIX|..];
        if Find(known, key).None? && BindingDefault(key, tensors).Some? {
          var entry := (key, BindingDefault(key, tensors).value);
          var rest := DefaultsFor(sources[1..], tensors, known + [entry]);
          BindingDefaultsAreHarmless(sources[1..], route, tensors, known + [entry]);
          NamesOfDefaultsAreSplit(key, tensors);
          forall k | 0 <= k < |rest| ensures rest[k].0 != key && Find(known, rest[k].0).None? {
            FindInConcatenation(known, [entry], rest[k].0);
          }
          NewEntryStaysDistinct(entry, rest);
          assert DefaultsFor(sources, tensors, known) == [entry] + rest;
        }
      }
    }
  }

  lemma NewEntryStaysDistinct(entry: (string, int), rest: Shape)
    requires DistinctNames(Params(rest)) && forall k :: 0 <= k < |rest| ==> rest[k].0 != entry.0
    ensures DistinctNames(Params([entry] + rest))
  {
    assert Params([entry] + rest) == [entry.0] + Params(rest);
  }

  lemma NamesOfDefaultsAreSplit(key: string, tensors: Tensors)
    requires BindingDefault(key, tensors).Some?
    ensures !IsDimensionName(key)
  {
    var base := if EndsWith(key, STRIDE_SUFFIX) then key[..|key| - |STRIDE_SUFFIX|] else key;
    var at := RFind(base, '_');
    assert at > 0 && key[at] == '_';
    assert IsDimensionName(key) ==> IsDigit(key[1..][at - 1]);
  }

  //////////////////////////////////////////////////////////////////////////////
  // Materializing
  //////////////////////////////////////////////////////////////////////////////

  // What materialize_route_tensors should give back for each tensor of the route: the
  // descriptor's dtype, the same sizes and strides, and the permutation unless it is the identity,
  // absent or not captured.
  function Rebuilt(route: Route, descriptor: TensorDescriptor, tensor: ConcreteTensor): ConcreteTensor {
    ConcreteTensor(Dtype(descriptor), tensor.dimensions,
      WrittenPermutation(route, NamedTensor(descriptor.role, tensor)))
  }

  predicate HasRoles(descriptors: seq<TensorDescriptor>, tensors: Tensors) {
    forall d :: d in descriptors ==> FindTensor(tensors, d.role).Some?
  }

  function AllRebuilt(route: Route, descriptors: seq<TensorDescriptor>, tensors: Tensors): Tensors
    requires HasRoles(descriptors, tensors)
  {
    if descriptors == [] then []
    else
      assert descriptors[0] in descriptors;
      [NamedTensor(descriptors[0].role, Rebuilt(route, descriptors[0], FindTensor(tensors, descriptors[0].role).value))]
      + AllRebuilt(route, descriptors[1..], tensors)
  }

  // The lookups materialize_route_tensors makes for one tensor give that tensor's own values.
  ghost predicate Describes(shape: Shape, route: Route, named: NamedTensor, anchor: seq<int>)
    requires UniformTensor(named.tensor, |anchor|)
  {
    forall i: nat :: i < |anchor| ==>
      && Find(shape, DimensionName(i)) == Some(anchor[i])
      && OrElse(Find(shape, Render(Size(named.name, i))), anchor[i]) == named.tensor.dimensions[i].size
      && OrElse(Find(shape, Render(Stride(named.name, i))), Strides.Strides(Sizes(named.tensor))[i])
         == named.tensor.dimensions[i].stride
      && Find(shape, Render(Perm(named.name, i))) == WrittenFor(route, named, anchor, Perm(named.name, i))
  }

  lemma HarmlessLookup(extras: Shape, route: Route, tensors: Tensors, rank: nat, key: Key)
    requires Uniform(tensors, rank) && HarmlessExtras(extras, route, tensors)
    requires !key.Dim? && FindDescriptor(route.tensors, key.tensor).Some?
    ensures Find(extras, Render(key)).Some? ==> Find(extras, Render(key)) == KnownValue(tensors, rank, key)
  {
    if Find(extras, Render(key)).Some? {
      var k := FoundAt(extras, Render(key));
      assert HarmlessEntry(extras[k], route, tensors);
      RouteKeysAreLookedUp(route, key);
      DefaultOfKey(tensors, rank, key);
    }
  }

  lemma FoundAt(shape: Shape, key: string) returns (k: nat)
    requires Find(shape, key).Some?
    ensures k < |shape| && shape[k].0 == key && Find(shape, key) == Some(shape[k].1)
  {
    if shape[0].0 == key {
      k := 0;
    } else {
      k := FoundAt(shape[1..], key);
      k := k + 1;
    }
  }

  lemma FindExtended(route: Route, tensors: Tensors, anchor: seq<int>, extras: Shape, key: Key)
    requires Uniform(tensors, |anchor|) && DistinctTensors(tensors)
    ensures Find(Print(ShapeOf(route, tensors, anchor)) + extras, Render(key))
         == if Written(route, tensors, anchor, key).Some? then Written(route, tensors, anchor, key)
            else Find(extras, Render(key))
  {
    FindInConcatenation(Print(ShapeOf(route, tensors, anchor)), extras, Render(key));
    FindInShape(route, tensors, anchor, key);
  }

  lemma EncodedShapeDescribes(route: Route, tensors: Tensors, anchor: seq<int>, extras: Shape, role: string)
    requires Uniform(tensors, |anchor|) && DistinctTensors(tensors) && HarmlessExtras(extras, route, tensors)
    requires FindTensor(tensors, role).Some? && FindDescriptor(route.tensors, role).Some?
    ensures Describes(Print(ShapeOf(route, tensors, anchor)) + extras, route,
              NamedTensor(role, FindTensor(tensors, role).value), anchor)
  {
    var shape := Print(ShapeOf(route, tensors, anchor)) + extras;
    var named := NamedTensor(role, FindTensor(tensors, role).value);
    forall i: nat | i < |anchor|
      ensures Find(shape, DimensionName(i)) == Some(anchor[i])
      ensures OrElse(Find(shape, Render(Size(role, i))), anchor[i]) == named.tensor.dimensions[i].size
      ensures OrElse(Find(shape, Render(Stride(role, i))), Strides.Strides(Sizes(named.tensor))[i])
           == named.tensor.dimensions[i].stride
      ensures Find(shape, Render(Perm(role, i))) == WrittenFor(route, named, anchor, Perm(role, i))
    {
      FindExtended(route, tensors, anchor, extras, Dim(i));
      FindExtended(route, tensors, anchor, extras, Size(role, i));
      FindExtended(route, tensors, anchor, extras, Stride(role, i));
      FindExtended(route, tensors, anchor, extras, Perm(role, i));
      HarmlessLookup(extras, route, tensors, |anchor|, Size(role, i));
      HarmlessLookup(extras, route, tensors, |anchor|, Stride(role, i));
      HarmlessLookup(extras, route, tensors, |anchor|, Perm(role, i));
    }
  }

  // A captured permutation has one entry per axis; route acceptance checks this.
  predicate PermutationFits(tensor: ConcreteTensor) {
    tensor.permutation.Some? ==> |tensor.permutation.value| == |tensor.dimensions|
  }

  lemma DescribedTensorIsRebuilt(shape: Shape, route: Route, descriptor: TensorDescriptor, tensor: ConcreteTensor,
      anchor: seq<int>)
    requires |anchor| > 0 && UniformTensor(tensor, |anchor|) && PermutationFits(tensor)
    requires FindDescriptor(route.tensors, descriptor.role) == Some(descriptor)
    requires Describes(shape, route, NamedTensor(descriptor.role, tensor), anchor)
    ensures HasDimensions(shape, |anchor|)
    ensures MaterializedTensor(descriptor, shape, |anchor|) == Ok(Rebuilt(route, descriptor, tensor))
  {
    var role, rank := descriptor.role, |anchor|;
    assert MaterializedSizes(role, shape, rank) == Sizes(tensor);
    assert MaterializedDimensions(role, shape, rank) == tensor.dimensions;
    var written := WrittenPermutation(route, NamedTensor(role, tensor));
    if written.Some? {
      assert forall i :: 0 <= i < rank ==> HasPermutationKey(role, shape, i);
      assert HasPermutationKey(role, shape, 0);
      assert MaterializedPermutation(role, shape, rank).value.value == written.value;
    } else {
      assert forall i :: 0 <= i < rank ==> !HasPermutationKey(role, shape, i);
    }
  }

  predicate PermutationsFit(route: Route, tensors: Tensors)
    requires HasRoles(route.tensors, tensors)
  {
    forall d :: d in route.tensors ==> PermutationFits(FindTensor(tensors, d.role).value)
  }

  // What the round trip needs of the tensors: distinct names, axes d0, d1, ..., one common positive rank.
  predicate Encodable(route: Route, tensors: Tensors, rank: nat) {
    && rank > 0
    && route.tensors != []
    && DistinctRoles(route.tensors)
    && HasRoles(route.tensors, tensors)
    && DistinctTensors(tensors)
    && Uniform(tensors, rank)
  }

  lemma FindOwnDescriptor(descriptors: seq<TensorDescriptor>, k: nat)
    requires k < |descriptors| && DistinctRoles(descriptors)
    ensures FindDescriptor(descriptors, descriptors[k].role) == Some(descriptors[k])
  {
    if k > 0 { FindOwnDescriptor(descriptors[1..], k - 1); }
  }

  lemma {:induction false} DescribedTensorsAreRebuilt(shape: Shape, route: Route, k: nat, tensors: Tensors,
      anchor: seq<int>)
    requires k <= |route.tensors| && Encodable(route, tensors, |anchor|) && PermutationsFit(route, tensors)
    requires HasDimensions(shape, |anchor|)
    requires forall d :: d in route.tensors ==>
      Describes(shape, route, NamedTensor(d.role, FindTensor(tensors, d.role).value), anchor)
    ensures MaterializedTensors(route.tensors[k..], shape, |anchor|)
         == Ok(AllRebuilt(route, route.tensors[k..], tensors))
    decreases |route.tensors| - k
  {
    if k < |route.tensors| {
      var d := route.tensors[k];
      assert d in route.tensors;
      FindOwnDescriptor(route.tensors, k);
      DescribedTensorIsRebuilt(shape, route, d, FindTensor(tensors, d.role).value, anchor);
      DescribedTensorsAreRebuilt(shape, route, k + 1, tensors, anchor);
      assert route.tensors[k..][1..] == route.tensors[k + 1..];
    }
  }

  //////////////////////////////////////////////////////////////////////////////
  // The round trip
  //////////////////////////////////////////////////////////////////////////////

  predicate RankFits(bounds: RankBounds, rank: nat) {
    if bounds.exact.Some? then bounds.exact.value == rank else RankAccepts(rank, None, bounds.minimum, bounds.maximum)
  }

  lemma AnchorFound(route: Route, tensors: Tensors, rank: nat)
    requires Encodable(route, tensors, rank)
    ensures Anchor(route, tensors).Some? && UniformTensor(Anchor(route, tensors).value, rank)
  {
    assert route.tensors[0] in route.tensors;
  }

  function AnchorSizes(route: Route, tensors: Tensors): seq<int>
    requires route.tensors != [] && Anchor(route, tensors).Some?
  {
    SizesOf(Anchor(route, tensors).value.dimensions)
  }

  lemma EncodingSucceeds(route: Route, tensors: Tensors, rank: nat)
    requires Encodable(route, tensors, rank)
    ensures Anchor(route, tensors).Some? && |AnchorSizes(route, tensors)| == rank
    ensures Encode(route, tensors) == Ok(Print(ShapeOf(route, tensors, AnchorSizes(route, tensors))))
  {
    AnchorFound(route, tensors, rank);
    var dims := Anchor(route, tensors).value.dimensions;
    TensorsKeysPrint(route, tensors, dims);
    DimKeysPrint(dims, 0);
    assert SizeItems(dims)[0..] == SizeItems(dims);
    PrintConcatenation(DimKeys(SizesOf(dims), 0), TensorsKeys(route, tensors, SizesOf(dims)));
  }

  // The extra entries carry new, distinct names, as dict.update with defaults guarantees.
  predicate NewEntries(shape: Shape, extras: Shape) {
    && DistinctNames(Params(extras))
    && forall k :: 0 <= k < |extras| ==> Find(shape, extras[k].0).None?
  }

  lemma DecodingRestores(shape: Shape, extras: Shape)
    requires DistinctNames(Params(shape)) && NewEntries(shape, extras)
    ensures Decode(Params(shape + extras), Values(shape + extras)) == Ok(shape + extras)
  {
    var all := shape + extras;
    var names := Params(all);
    forall i, j | 0 <= i < j < |names| ensures names[i] != names[j] {
      if j < |shape| {
        assert Params(shape)[i] == names[i] && Params(shape)[j] == names[j];
      } else if i >= |shape| {
        assert Params(extras)[i - |shape|] == names[i] && Params(extras)[j - |shape|] == names[j];
      } else {
        FindMeansPresent(shape, extras[j - |shape|].0);
        assert shape[i].0 == names[i];
      }
    }
    assert forall i :: 0 <= i < |all| ==> (names[i], Values(all)[i]) == all[i];
    assert Decode(names, Values(all)).value == all;
  }

  function Extended(route: Route, tensors: Tensors, anchor: seq<int>, extras: Shape): Shape
    requires Uniform(tensors, |anchor|)
  {
    Print(ShapeOf(route, tensors, anchor)) + extras
  }

  lemma EveryTensorIsDescribed(route: Route, tensors: Tensors, anchor: seq<int>, extras: Shape)
    requires Encodable(route, tensors, |anchor|) && HarmlessExtras(extras, route, tensors)
    ensures forall d :: d in route.tensors ==>
      Describes(Extended(route, tensors, anchor, extras), route,
        NamedTensor(d.role, FindTensor(tensors, d.role).value), anchor)
  {
    forall k | 0 <= k < |route.tensors|
      ensures Describes(Extended(route, tensors, anchor, extras), route,
                NamedTensor(route.tensors[k].role, FindTensor(tensors, route.tensors[k].role).value), anchor)
    {
      assert route.tensors[k] in route.tensors;
      FindOwnDescriptor(route.tensors, k);
      EncodedShapeDescribes(route, tensors, anchor, extras, route.tensors[k].role);
    }
  }

  lemma RankOfShape(route: Route, tensors: Tensors, anchor: seq<int>, extras: Shape, bounds: RankBounds)
    requires Encodable(route, tensors, |anchor|) && HarmlessExtras(extras, route, tensors)
    requires Constrains(bounds) && RankFits(bounds, |anchor|)
    ensures MaterializedRank(bounds, Extended(route, tensors, anchor, extras)) == Ok(|anchor|)
    ensures HasDimensions(Extended(route, tensors, anchor, extras), |anchor|)
  {
    IndicesOfShape(route, tensors, anchor, extras);
    Permutations.SortedIsIotaIffPermutation(Permutations.Iota(|anchor|));
    EveryTensorIsDescribed(route, tensors, anchor, extras);
    assert route.tensors[0] in route.tensors;
  }

  lemma MaterializingRebuilds(route: Route, tensors: Tensors, anchor: seq<int>, extras: Shape)
    requires Encodable(route, tensors, |anchor|) && PermutationsFit(route, tensors)
    requires HarmlessExtras(extras, route, tensors)
    requires RankConstraint(route, route.tensors).Some?
    requires RankFits(RankConstraint(route, route.tensors).value, |anchor|)
    ensures Materialize(route, Extended(route, tensors, anchor, extras))
         == Ok(AllRebuilt(route, route.tensors, tensors))
  {
    ConstraintConstrains(route, route.tensors);
    RankOfShape(route, tensors, anchor, extras, RankConstraint(route, route.tensors).value);
    EveryTensorIsDescribed(route, tensors, anchor, extras);
    DescribedTensorsAreRebuilt(Extended(route, tensors, anchor, extras), route, 0, tensors, anchor);
    assert route.tensors[0..] == route.tensors;
  }

  // Encode, add the extra entries, decode, materialize.
  function RoundTrip(route: Route, tensors: Tensors, extras: Shape): Result<Tensors, PythonError> {
    match Encode(route, tensors)
    case Err(e) => Err(e)
    case Ok(shape) => match Decode(Params(shape + extras), Values(shape + extras))
      case Err(e) => Err(e)
      case Ok(decoded) => Materialize(route, decoded)
  }

  predicate ExtrasFor(route: Route, tensors: Tensors, extras: Shape) {
    && Encode(route, tensors).Ok?
    && NewEntries(Encode(route, tensors).value, extras)
    && HarmlessExtras(extras, route, tensors)
  }

  /** Shape encoding round trip: for a rank-constrained route, encoding, decoding and materializing
      gives back every tensor's sizes, strides and captured permutation, and harmless extra entries
      change nothing. */
  lemma ShapeRoundTrips(route: Route, tensors: Tensors, rank: nat, extras: Shape)
    requires Encodable(route, tensors, rank) && PermutationsFit(route, tensors) && ExtrasFor(route, tensors, extras)
    requires RankConstraint(route, route.tensors).Some? && RankFits(RankConstraint(route, route.tensors).value, rank)
    ensures RoundTrip(route, tensors, extras) == Ok(AllRebuilt(route, route.tensors, tensors))
  {
    EncodingSucceeds(route, tensors, rank);
    var anchor := AnchorSizes(route, tensors);
    ShapeKeysDistinct(route, tensors, anchor);
    DistinctPrinted(ShapeOf(route, tensors, anchor));
    DecodingRestores(Print(ShapeOf(route, tensors, anchor)), extras);
    MaterializingRebuilds(route, tensors, anchor, extras);
  }

  /** The defaults of the route's own bindings are such harmless entries. */
  lemma BindingDefaultsChangeNothing(route: Route, tensors: Tensors, rank: nat, sources: seq<Option<string>>)
    requires Encodable(route, tensors, rank) && PermutationsFit(route, tensors)
    requires RankConstraint(route, route.tensors).Some? && RankFits(RankConstraint(route, route.tensors).value, rank)
    ensures Encode(route, tensors).Ok?
    ensures RoundTrip(route, tensors, DefaultsFor(sources, tensors, Encode(route, tensors).value))
         == RoundTrip(route, tensors, []) == Ok(AllRebuilt(route, route.tensors, tensors))
  {
    EncodingSucceeds(route, tensors, rank);
    BindingDefaultsAreHarmless(sources, route, tensors, Encode(route, tensors).value);
    ShapeRoundTrips(route, tensors, rank, DefaultsFor(sources, tensors, Encode(route, tensors).value));
    ShapeRoundTrips(route, tensors, rank, []);
  }
}
