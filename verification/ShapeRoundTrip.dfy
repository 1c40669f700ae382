// Encoding a route's tensors as a shape dictionary, decoding it and materializing tensors again
// gives back the tensors, whatever the tensors are called.
module ShapeRoundTrip {
  import opened Wrappers
  import opened RouteModel
  import opened Matching
  import opened Text
  import opened ShapeKeys
  import opened ShapeCodec
  import Permutations
  import Strides

  //////////////////////////////////////////////////////////////////////////////
  // Dictionaries with structured keys
  //////////////////////////////////////////////////////////////////////////////

  type Keyed = seq<(Key, int)>

  function Print(items: Keyed): (s: Shape)
    ensures |s| == |items|
  {
    seq(|items|, i requires 0 <= i < |items| => (Render(items[i].0), items[i].1))
  }

  function FindKey(items: Keyed, key: Key): Option<int> {
    if items == [] then None
    else if items[0].0 == key then Some(items[0].1)
    else FindKey(items[1..], key)
  }

  predicate DistinctKeys(items: Keyed) {
    items != [] ==> FindKey(items[1..], items[0].0).None? && DistinctKeys(items[1..])
  }

  lemma PrintTail(items: Keyed)
    requires items != []
    ensures Print(items)[0] == (Render(items[0].0), items[0].1) && Print(items)[1..] == Print(items[1..])
  {
  }

  lemma {:induction false} FindPrinted(items: Keyed, key: Key)
    ensures Find(Print(items), Render(key)) == FindKey(items, key)
  {
    if items != [] {
      FindPrinted(items[1..], key);
      PrintTail(items);
      if Render(items[0].0) == Render(key) { RenderIsInjective(items[0].0, key); }
    }
  }

  lemma {:induction false} FindKeyInConcatenation(a: Keyed, b: Keyed, key: Key)
    ensures FindKey(a + b, key) == if FindKey(a, key).Some? then FindKey(a, key) else FindKey(b, key)
  {
    if a != [] {
      FindKeyInConcatenation(a[1..], b, key);
      assert (a + b)[1..] == a[1..] + b;
    } else {
      assert a + b == b;
    }
  }

  lemma {:induction false} DistinctConcatenation(a: Keyed, b: Keyed)
    requires DistinctKeys(a) && DistinctKeys(b)
    requires forall key :: FindKey(a, key).Some? ==> FindKey(b, key).None?
    ensures DistinctKeys(a + b)
  {
    if a != [] {
      assert (a + b)[1..] == a[1..] + b;
      assert FindKey(a, a[0].0).Some?;
      forall key | FindKey(a[1..], key).Some? ensures FindKey(b, key).None? {
        assert FindKey(a, key).Some?;
      }
      DistinctConcatenation(a[1..], b);
      FindKeyInConcatenation(a[1..], b, a[0].0);
    } else {
      assert a + b == b;
    }
  }

  lemma {:induction false} DistinctPrinted(items: Keyed)
    requires DistinctKeys(items)
    ensures DistinctNames(Params(Print(items)))
  {
    if items != [] {
      var rest := items[1..];
      DistinctPrinted(rest);
      assert Print(items)[1..] == Print(rest);
      FindPrinted(rest, items[0].0);
      FindMeansPresent(Print(rest), Render(items[0].0));
      var names := Params(Print(items));
      assert forall j :: 0 < j < |names| ==> names[j] == Params(Print(rest))[j - 1] == Print(rest)[j - 1].0;
    }
  }

  lemma PrintConcatenation(a: Keyed, b: Keyed)
    ensures Print(a + b) == Print(a) + Print(b)
  {
  }

  //////////////////////////////////////////////////////////////////////////////
  // What encode_route_shape writes
  //////////////////////////////////////////////////////////////////////////////

  // Every tensor has the given rank and its axes are named d0, d1, ...
  predicate Uniform(tensors: Tensors, rank: nat) {
    forall named :: named in tensors ==> UniformTensor(named.tensor, rank)
  }

  predicate UniformTensor(tensor: ConcreteTensor, rank: nat) {
    && |tensor.dimensions| == rank
    && forall i :: 0 <= i < rank ==> tensor.dimensions[i].name == DimensionName(i)
  }

  predicate DistinctTensors(tensors: Tensors) {
    forall i, j :: 0 <= i < j < |tensors| ==> tensors[i].name != tensors[j].name
  }

  function DimKeys(sizes: seq<int>, i: nat): Keyed
    requires i <= |sizes|
    decreases |sizes| - i
  {
    if i == |sizes| then [] else [(Dim(i), sizes[i])] + DimKeys(sizes, i + 1)
  }

  function AxisKeys(named: NamedTensor, anchor: seq<int>, i: nat): Keyed
    requires i < |named.tensor.dimensions| == |anchor|
  {
    var d := named.tensor.dimensions[i];
    (if d.size != anchor[i] then [(Size(named.name, i), d.size)] else [])
    + (if d.stride != Strides.Strides(Sizes(named.tensor))[i] then [(Stride(named.name, i), d.stride)] else [])
  }

  function DimensionKeys(named: NamedTensor, anchor: seq<int>, i: nat): Keyed
    requires i <= |named.tensor.dimensions| == |anchor|
    decreases |anchor| - i
  {
    if i == |anchor| then [] else AxisKeys(named, anchor, i) + DimensionKeys(named, anchor, i + 1)
  }

  function PermKeys(tensor: string, p: seq<int>, i: nat): Keyed
    requires i <= |p|
    decreases |p| - i
  {
    if i == |p| then [] else [(Perm(tensor, i), p[i])] + PermKeys(tensor, p, i + 1)
  }

  function TensorKeys(route: Route, named: NamedTensor, anchor: seq<int>): Keyed
    requires |named.tensor.dimensions| == |anchor|
  {
    DimensionKeys(named, anchor, 0)
    + match WrittenPermutation(route, named) case None => [] case Some(p) => PermKeys(named.name, p, 0)
  }

  function TensorsKeys(route: Route, tensors: Tensors, anchor: seq<int>): Keyed
    requires Uniform(tensors, |anchor|)
  {
    if tensors == [] then []
    else
      assert tensors[0] in tensors;
      TensorKeys(route, tensors[0], anchor) + TensorsKeys(route, tensors[1..], anchor)
  }

  function ShapeOf(route: Route, tensors: Tensors, anchor: seq<int>): Keyed
    requires Uniform(tensors, |anchor|)
  {
    DimKeys(anchor, 0) + TensorsKeys(route, tensors, anchor)
  }

  lemma {:induction false} AnchorSizeOfAxis(dims: seq<Dimension>, n: nat, i: nat)
    requires i < n <= |dims|
    requires forall k :: 0 <= k < |dims| ==> dims[k].name == DimensionName(k)
    ensures AnchorSize(dims[..n], DimensionName(i)) == Some(dims[i].size)
  {
    assert dims[..n][..n - 1] == dims[..n - 1];
    if i < n - 1 {
      if DimensionName(n - 1) == DimensionName(i) { DimensionNameInjective(n - 1, i); }
      AnchorSizeOfAxis(dims, n - 1, i);
    }
  }

  lemma {:induction false} DimKeysPrint(dims: seq<Dimension>, i: nat)
    requires i <= |dims| && forall k :: 0 <= k < |dims| ==> dims[k].name == DimensionName(k)
    ensures SizeItems(dims)[i..] == Print(DimKeys(SizesOf(dims), i))
    decreases |dims| - i
  {
    if i < |dims| {
      DimKeysPrint(dims, i + 1);
      PrintConcatenation([(Dim(i), dims[i].size)], DimKeys(SizesOf(dims), i + 1));
      assert SizeItems(dims)[i..] == [SizeItems(dims)[i]] + SizeItems(dims)[i + 1..];
    }
  }

  function SizesOf(dims: seq<Dimension>): (s: seq<int>)
    ensures |s| == |dims|
  {
    seq(|dims|, i requires 0 <= i < |dims| => dims[i].size)
  }

  lemma AxisKeysPrint(named: NamedTensor, anchor: seq<int>, i: nat)
    requires i < |anchor| && UniformTensor(named.tensor, |anchor|)
    ensures AxisItems(named.name, named.tensor.dimensions[i], anchor[i], Strides.Strides(Sizes(named.tensor))[i])
         == Print(AxisKeys(named, anchor, i))
  {
    var t := named.name;
    assert t + "_" + DimensionName(i) == Render(Size(t, i));
    assert t + "_" + DimensionName(i) + STRIDE_SUFFIX == Render(Stride(t, i));
  }

  lemma {:induction false} DimensionKeysPrint(named: NamedTensor, dims: seq<Dimension>, i: nat)
    requires i <= |dims| && UniformTensor(named.tensor, |dims|)
    requires forall k :: 0 <= k < |dims| ==> dims[k].name == DimensionName(k)
    ensures DimensionItems(named, dims, i) == Ok(Print(DimensionKeys(named, SizesOf(dims), i)))
    decreases |dims| - i
  {
    if i < |dims| {
      AnchorSizeOfAxis(dims, |dims|, i);
      assert dims[..|dims|] == dims;
      DimensionKeysPrint(named, dims, i + 1);
      AxisKeysPrint(named, SizesOf(dims), i);
      PrintConcatenation(AxisKeys(named, SizesOf(dims), i), DimensionKeys(named, SizesOf(dims), i + 1));
    }
  }

  lemma {:induction false} PermKeysPrint(tensor: string, p: seq<int>, i: nat)
    requires i <= |p|
    ensures PermutationItems(tensor, p, i) == Print(PermKeys(tensor, p, i))
    decreases |p| - i
  {
    if i < |p| {
      PermKeysPrint(tensor, p, i + 1);
      PrintConcatenation([(Perm(tensor, i), p[i])], PermKeys(tensor, p, i + 1));
    }
  }

  lemma {:induction false} TensorsKeysPrint(route: Route, tensors: Tensors, dims: seq<Dimension>)
    requires Uniform(tensors, |dims|)
    requires forall k :: 0 <= k < |dims| ==> dims[k].name == DimensionName(k)
    ensures TensorsItems(route, tensors, dims) == Ok(Print(TensorsKeys(route, tensors, SizesOf(dims))))
  {
    if tensors != [] {
      var named := tensors[0];
      assert named in tensors;
      DimensionKeysPrint(named, dims, 0);
      var written := WrittenPermutation(route, named);
      if written.Some? {
        PermKeysPrint(named.name, written.value, 0);
        PrintConcatenation(DimensionKeys(named, SizesOf(dims), 0), PermKeys(named.name, written.value, 0));
      } else {
        assert TensorKeys(route, named, SizesOf(dims)) == DimensionKeys(named, SizesOf(dims), 0);
      }
      TensorsKeysPrint(route, tensors[1..], dims);
      PrintConcatenation(TensorKeys(route, named, SizesOf(dims)), TensorsKeys(route, tensors[1..], SizesOf(dims)));
    }
  }

  //////////////////////////////////////////////////////////////////////////////
  // Reading it back
  //////////////////////////////////////////////////////////////////////////////

  // The entry encode_route_shape writes for a key, if any.
  function Written(route: Route, tensors: Tensors, anchor: seq<int>, key: Key): Option<int>
    requires Uniform(tensors, |anchor|)
  {
    if key.Dim? then
      if key.index < |anchor| then Some(anchor[key.index]) else None
    else match FindTensor(tensors, key.tensor)
      case None => None
      case Some(tensor) => WrittenFor(route, NamedTensor(key.tensor, tensor), anchor, key)
  }

  function WrittenFor(route: Route, named: NamedTensor, anchor: seq<int>, key: Key): Option<int>
    requires !key.Dim? && UniformTensor(named.tensor, |anchor|)
  {
    if key.Perm? then
      var p := WrittenPermutation(route, named);
      if p.Some? && key.index < |p.value| then Some(p.value[key.index]) else None
    else WrittenForAxis(named, anchor, key)
  }

  function WrittenForAxis(named: NamedTensor, anchor: seq<int>, key: Key): Option<int>
    requires (key.Size? || key.Stride?) && UniformTensor(named.tensor, |anchor|)
  {
    var i := key.index;
    if i >= |anchor| then None
    else if key.Size? then
      if named.tensor.dimensions[i].size != anchor[i] then Some(named.tensor.dimensions[i].size) else None
    else
      if named.tensor.dimensions[i].stride != Strides.Strides(Sizes(named.tensor))[i]
      then Some(named.tensor.dimensions[i].stride) else None
  }

  lemma {:induction false} FindDimKey(sizes: seq<int>, i: nat, key: Key)
    requires i <= |sizes|
    ensures FindKey(DimKeys(sizes, i), key)
         == if key.Dim? && i <= key.index < |sizes| then Some(sizes[key.index]) else None
    ensures DistinctKeys(DimKeys(sizes, i))
    decreases |sizes| - i
  {
    if i < |sizes| {
      FindDimKey(sizes, i + 1, key);
      FindDimKey(sizes, i + 1, Dim(i));
    }
  }

  lemma FindAxisKey(named: NamedTensor, anchor: seq<int>, i: nat, key: Key)
    requires i < |anchor| && UniformTensor(named.tensor, |anchor|)
    ensures FindKey(AxisKeys(named, anchor, i), key)
         == if (key.Size? || key.Stride?) && key.tensor == named.name && key.index == i
            then WrittenForAxis(named, anchor, key) else None
    ensures DistinctKeys(AxisKeys(named, anchor, i))
  {
    var d := named.tensor.dimensions[i];
    var size: Keyed := if d.size != anchor[i] then [(Size(named.name, i), d.size)] else [];
    var contiguous := Strides.Strides(Sizes(named.tensor))[i];
    var stride: Keyed := if d.stride != contiguous then [(Stride(named.name, i), d.stride)] else [];
    FindKeyInConcatenation(size, stride, key);
    DistinctConcatenation(size, stride);
  }

  lemma {:induction false} FindDimensionKey(named: NamedTensor, anchor: seq<int>, i: nat, key: Key)
    requires i <= |anchor| && UniformTensor(named.tensor, |anchor|)
    ensures FindKey(DimensionKeys(named, anchor, i), key)
         == if (key.Size? || key.Stride?) && key.tensor == named.name && key.index >= i
            then WrittenForAxis(named, anchor, key) else None
    decreases |anchor| - i
  {
    if i < |anchor| {
      FindDimensionKey(named, anchor, i + 1, key);
      FindAxisKey(named, anchor, i, key);
      FindKeyInConcatenation(AxisKeys(named, anchor, i), DimensionKeys(named, anchor, i + 1), key);
    }
  }

  lemma {:induction false} DimensionKeysDistinct(named: NamedTensor, anchor: seq<int>, i: nat)
    requires i <= |anchor| && UniformTensor(named.tensor, |anchor|)
    ensures DistinctKeys(DimensionKeys(named, anchor, i))
    decreases |anchor| - i
  {
    if i < |anchor| {
      DimensionKeysDistinct(named, anchor, i + 1);
      forall key | FindKey(AxisKeys(named, anchor, i), key).Some?
        ensures FindKey(DimensionKeys(named, anchor, i + 1), key).None?
      {
        FindAxisKey(named, anchor, i, key);
        FindDimensionKey(named, anchor, i + 1, key);
      }
      FindAxisKey(named, anchor, i, Dim(0));
      DistinctConcatenation(AxisKeys(named, anchor, i), DimensionKeys(named, anchor, i + 1));
    }
  }

  lemma {:induction false} FindPermKey(tensor: string, p: seq<int>, i: nat, key: Key)
    requires i <= |p|
    ensures FindKey(PermKeys(tensor, p, i), key)
         == if key.Perm? && key.tensor == tensor && i <= key.index < |p| then Some(p[key.index]) else None
    ensures DistinctKeys(PermKeys(tensor, p, i))
    decreases |p| - i
  {
    if i < |p| {
      FindPermKey(tensor, p, i + 1, key);
      FindPermKey(tensor, p, i + 1, Perm(tensor, i));
    }
  }

  lemma FindTensorKey(route: Route, named: NamedTensor, anchor: seq<int>, key: Key)
    requires UniformTensor(named.tensor, |anchor|)
    ensures FindKey(TensorKeys(route, named, anchor), key)
         == if !key.Dim? && key.tensor == named.name then WrittenFor(route, named, anchor, key) else None
  {
    FindDimensionKey(named, anchor, 0, key);
    var p := WrittenPermutation(route, named);
    if p.Some? {
      FindPermKey(named.name, p.value, 0, key);
      FindKeyInConcatenation(DimensionKeys(named, anchor, 0), PermKeys(named.name, p.value, 0), key);
    } else {
      FindKeyInConcatenation(DimensionKeys(named, anchor, 0), [], key);
    }
  }

  lemma TensorKeysDistinct(route: Route, named: NamedTensor, anchor: seq<int>)
    requires UniformTensor(named.tensor, |anchor|)
    ensures DistinctKeys(TensorKeys(route, named, anchor))
  {
    DimensionKeysDistinct(named, anchor, 0);
    var p := WrittenPermutation(route, named);
    var perms := if p.Some? then PermKeys(named.name, p.value, 0) else [];
    if p.Some? { FindPermKey(named.name, p.value, 0, Dim(0)); }
    forall key | FindKey(DimensionKeys(named, anchor, 0), key).Some? ensures FindKey(perms, key).None? {
      FindDimensionKey(named, anchor, 0, key);
      if p.Some? { FindPermKey(named.name, p.value, 0, key); }
    }
    DistinctConcatenation(DimensionKeys(named, anchor, 0), perms);
  }

  lemma {:induction false} FindTensorsKey(route: Route, tensors: Tensors, anchor: seq<int>, key: Key)
    requires Uniform(tensors, |anchor|) && DistinctTensors(tensors)
    ensures FindKey(TensorsKeys(route, tensors, anchor), key)
         == if key.Dim? then None else Written(route, tensors, anchor, key)
  {
    if tensors != [] {
      assert tensors[0] in tensors;
      FindTensorKey(route, tensors[0], anchor, key);
      FindTensorsKey(route, tensors[1..], anchor, key);
      FindKeyInConcatenation(TensorKeys(route, tensors[0], anchor), TensorsKeys(route, tensors[1..], anchor), key);
      if !key.Dim? && key.tensor == tensors[0].name { FirstNameIsAlone(tensors); }
    }
  }

  lemma FirstNameIsAlone(tensors: Tensors)
    requires tensors != [] && DistinctTensors(tensors)
    ensures FindTensor(tensors[1..], tensors[0].name).None?
  {
    assert forall named :: named in tensors[1..] ==> named.name != tensors[0].name;
  }

  lemma {:induction false} TensorsKeysDistinct(route: Route, tensors: Tensors, anchor: seq<int>)
    requires Uniform(tensors, |anchor|) && DistinctTensors(tensors)
    ensures DistinctKeys(TensorsKeys(route, tensors, anchor))
  {
    if tensors != [] {
      assert tensors[0] in tensors;
      TensorKeysDistinct(route, tensors[0], anchor);
      TensorsKeysDistinct(route, tensors[1..], anchor);
      FirstNameIsAlone(tensors);
      forall key | FindKey(TensorKeys(route, tensors[0], anchor), key).Some?
        ensures FindKey(TensorsKeys(route, tensors[1..], anchor), key).None?
      {
        FindTensorKey(route, tensors[0], anchor, key);
        FindTensorsKey(route, tensors[1..], anchor, key);
      }
      DistinctConcatenation(TensorKeys(route, tensors[0], anchor), TensorsKeys(route, tensors[1..], anchor));
    }
  }

  lemma FindInShape(route: Route, tensors: Tensors, anchor: seq<int>, key: Key)
    requires Uniform(tensors, |anchor|) && DistinctTensors(tensors)
    ensures Find(Print(ShapeOf(route, tensors, anchor)), Render(key)) == Written(route, tensors, anchor, key)
  {
    FindPrinted(ShapeOf(route, tensors, anchor), key);
    FindKeyInConcatenation(DimKeys(anchor, 0), TensorsKeys(route, tensors, anchor), key);
    FindDimKey(anchor, 0, key);
    FindTensorsKey(route, tensors, anchor, key);
  }

  lemma ShapeKeysDistinct(route: Route, tensors: Tensors, anchor: seq<int>)
    requires Uniform(tensors, |anchor|) && DistinctTensors(tensors)
    ensures DistinctKeys(ShapeOf(route, tensors, anchor))
  {
    TensorsKeysDistinct(route, tensors, anchor);
    FindDimKey(anchor, 0, Dim(0));
    forall key | FindKey(DimKeys(anchor, 0), key).Some?
      ensures FindKey(TensorsKeys(route, tensors, anchor), key).None?
    {
      FindDimKey(anchor, 0, key);
      FindTensorsKey(route, tensors, anchor, key);
    }
    DistinctConcatenation(DimKeys(anchor, 0), TensorsKeys(route, tensors, anchor));
  }

  //////////////////////////////////////////////////////////////////////////////
  // Dimension names in the dictionary
  //////////////////////////////////////////////////////////////////////////////

  lemma {:induction false} IndicesOfConcatenation(a: Shape, b: Shape)
    ensures DimensionIndices(a + b) == DimensionIndices(a) + DimensionIndices(b)
  {
    if a != [] {
      IndicesOfConcatenation(a[1..], b);
      assert (a + b)[1..] == a[1..] + b;
    } else {
      assert a + b == b;
    }
  }

  lemma {:induction false} IndicesOfDimKeys(sizes: seq<int>, i: nat)
    requires i <= |sizes|
    ensures DimensionIndices(Print(DimKeys(sizes, i))) == Permutations.Iota(|sizes|)[i..]
    decreases |sizes| - i
  {
    if i < |sizes| {
      var keys := DimKeys(sizes, i);
      IndicesOfDimKeys(sizes, i + 1);
      DimensionNames(Dim(i));
      assert Print(keys)[1..] == Print(keys[1..]);
      assert keys[1..] == DimKeys(sizes, i + 1);
      assert Permutations.Iota(|sizes|)[i..] == [i] + Permutations.Iota(|sizes|)[i + 1..];
    }
  }

  predicate NoDimensionNames(shape: Shape) {
    forall i :: 0 <= i < |shape| ==> !IsDimensionName(shape[i].0)
  }

  lemma {:induction false} NoIndices(shape: Shape)
    requires NoDimensionNames(shape)
    ensures DimensionIndices(shape) == []
  {
    if shape != [] { NoIndices(shape[1..]); }
  }

  lemma FoundKey(items: Keyed, i: nat)
    requires i < |items|
    ensures FindKey(items, items[i].0).Some?
  {
    if i > 0 && items[0].0 != items[i].0 { FoundKey(items[1..], i - 1); }
  }

  lemma TensorsKeysAreNoDimensions(route: Route, tensors: Tensors, anchor: seq<int>)
    requires Uniform(tensors, |anchor|) && DistinctTensors(tensors)
    ensures NoDimensionNames(Print(TensorsKeys(route, tensors, anchor)))
  {
    var items := TensorsKeys(route, tensors, anchor);
    forall i | 0 <= i < |items| ensures !IsDimensionName(Render(items[i].0)) {
      FoundKey(items, i);
      FindTensorsKey(route, tensors, anchor, items[i].0);
      DimensionNames(items[i].0);
    }
  }

  lemma IndicesOfShape(route: Route, tensors: Tensors, anchor: seq<int>, extras: Shape)
    requires Uniform(tensors, |anchor|) && DistinctTensors(tensors) && NoDimensionNames(extras)
    ensures DimensionIndices(Print(ShapeOf(route, tensors, anchor)) + extras) == Permutations.Iota(|anchor|)
  {
    var dims, rest := Print(DimKeys(anchor, 0)), Print(TensorsKeys(route, tensors, anchor));
    PrintConcatenation(DimKeys(anchor, 0), TensorsKeys(route, tensors, anchor));
    IndicesOfConcatenation(dims + rest, extras);
    IndicesOfConcatenation(dims, rest);
    IndicesOfDimKeys(anchor, 0);
    TensorsKeysAreNoDimensions(route, tensors, anchor);
    NoIndices(rest);
    NoIndices(extras);
  }
}
