// Contiguous and permuted-contiguous strides, unbounded as Python computes them and with the
// native selector's checked 64-bit multiplication.
module Strides {
  import opened Wrappers
  import opened Int64
  import opened Permutations

  // The stride of axis k is the product of the extents before it.
  function Strides(dims: seq<int>): (s: seq<int>)
    ensures |s| == |dims|
  {
    seq(|dims|, k requires 0 <= k < |dims| => Product(dims[..k]))
  }

  function PermutedStrides(dims: seq<int>, p: seq<int>): (s: seq<int>)
    requires IsPermutation(p) && |dims| == |p|
    ensures |s| == |dims|
  {
    seq(|p|, axis requires 0 <= axis < |p| =>
      PermutationIsOnto(p, axis);
      Strides(Select(dims, p))[IndexOf(p, axis)])
  }

  lemma {:induction false} FoldsOfAppend(s: seq<int>, x: int)
    ensures Product(s + [x]) == Product(s) * x
    ensures Sum(s + [x]) == Sum(s) + x
  {
    if s == [] {
      assert s + [x] == [x];
      assert Product([x]) == x * Product([]);
    } else {
      FoldsOfAppend(s[1..], x);
      assert (s + [x])[1..] == s[1..] + [x];
      assert s[0] * (Product(s[1..]) * x) == (s[0] * Product(s[1..])) * x;
    }
  }

  lemma NextProduct(dims: seq<int>, k: nat)
    requires k < |dims|
    ensures Product(dims[..k + 1]) == Product(dims[..k]) * dims[k]
  {
    FoldsOfAppend(dims[..k], dims[k]);
    assert dims[..k + 1] == dims[..k] + [dims[k]];
  }

  //////////////////////////////////////////////////////////////////////////////
  // The loops
  //////////////////////////////////////////////////////////////////////////////

  // layout.contiguous_strides
  method ContiguousStrides(dimensions: seq<int>) returns (strides: seq<int>)
    ensures strides == Strides(dimensions)
  {
    var stride := 1;
    strides := [];
    for k := 0 to |dimensions|
      invariant stride == Product(dimensions[..k])
      invariant strides == Strides(dimensions)[..k]
    {
      strides := strides + [stride];
      stride := stride * dimensions[k];
      NextProduct(dimensions, k);
    }
  }

  // layout.permuted_contiguous_strides
  method PermutedContiguousStrides(dimensions: seq<int>, permutation: seq<int>)
    returns (result: Option<seq<int>>)
    ensures result == if |dimensions| == |permutation| && IsPermutation(permutation)
                      then Some(PermutedStrides(dimensions, permutation)) else None
  {
    SortedIsIotaIffPermutation(permutation);
    if |dimensions| != |permutation| {
      return None;
    }
    if Sorted(permutation) != Iota(|permutation|) {
      return None;
    }
    var baseStrides := ContiguousStrides(Select(dimensions, permutation));
    var strides := ScatterByPermutation(baseStrides, permutation);
    forall v | 0 <= v < |permutation|
      ensures strides[v] == PermutedStrides(dimensions, permutation)[v]
    {
      PermutationIsOnto(permutation, v);
    }
    assert strides == PermutedStrides(dimensions, permutation);
    result := Some(strides);
  }

  // The write-back loop both implementations use: result[permutation[i]] = values[i].
  method ScatterByPermutation(values: seq<int>, permutation: seq<int>) returns (result: seq<int>)
    requires IsPermutation(permutation) && |values| == |permutation|
    ensures |result| == |values| && Select(result, permutation) == values
    ensures forall v :: 0 <= v < |values| ==>
      IndexOf(permutation, v) < |values| && result[v] == values[IndexOf(permutation, v)]
  {
    var buffer := new int[|permutation|](_ => 0);
    for k := 0 to |permutation|
      invariant forall i :: 0 <= i < k ==> buffer[permutation[i]] == values[i]
    {
      buffer[permutation[k]] := values[k];
    }
    result := buffer[..];
    forall v | 0 <= v < |values|
      ensures IndexOf(permutation, v) < |values| && result[v] == values[IndexOf(permutation, v)]
    {
      PermutationIsOnto(permutation, v);
      var i := IndexOf(permutation, v);
      assert buffer[permutation[i]] == values[i];
    }
  }

  // Every product of a prefix of at most n extents fits in 64 bits.
  ghost predicate RunningProductsFit(dims: seq<int>, n: int)
    requires n <= |dims|
  {
    forall k :: 0 <= k <= n ==> InInt64(Product(dims[..k]))
  }

  // The native contiguous_strides: the multiplication after the last axis is skipped.
  method CheckedStrides(dimensions: Vec) returns (ok: bool, result: Vec)
    ensures ok <==> RunningProductsFit(dimensions, |dimensions| - 1)
    ensures ok ==> result == Strides(dimensions)
  {
    result := [];
    var stride: int64 := 1;
    for index := 0 to |dimensions|
      invariant index < |dimensions| ==> stride == Product(dimensions[..index])
      invariant result == Strides(dimensions)[..index]
      invariant forall k :: 0 <= k <= index && k < |dimensions| ==> InInt64(Product(dimensions[..k]))
    {
      result := result + [stride];
      if index + 1 < |dimensions| {
        var fits;
        NextProduct(dimensions, index);
        fits, stride := CheckedMultiply(stride, dimensions[index], stride);
        if !fits {
          assert !InInt64(Product(dimensions[..index + 1]));
          return false, result;
        }
      }
    }
    ok := true;
  }

  // The native product loop.
  method CheckedProduct(dimensions: Vec) returns (ok: bool, product: int64)
    ensures ok <==> RunningProductsFit(dimensions, |dimensions|)
    ensures ok ==> product == Product(dimensions)
  {
    product := 1;
    for k := 0 to |dimensions|
      invariant product == Product(dimensions[..k])
      invariant RunningProductsFit(dimensions, k)
    {
      NextProduct(dimensions, k);
      ok, product := CheckedMultiply(product, dimensions[k], product);
      if !ok {
        assert !InInt64(Product(dimensions[..k + 1]));
        return false, product;
      }
    }
    assert dimensions[..|dimensions|] == dimensions;
    ok := true;
  }

  /** Because the multiplication after the last axis is skipped, native strides succeed exactly when every
      stride fits, whatever the whole product does. */
  lemma StridesSucceedIffTheyFit(dims: seq<int>)
    ensures RunningProductsFit(dims, |dims| - 1) <==> forall k :: 0 <= k < |dims| ==> InInt64(Strides(dims)[k])
  {
    assert forall k :: 0 <= k < |dims| ==> Strides(dims)[k] == Product(dims[..k]);
  }

  lemma {:induction false} ProductInParts(dims: seq<int>, k: nat)
    requires k <= |dims|
    ensures Product(dims) == Product(dims[..k]) * Product(dims[k..])
  {
    if k == 0 {
      assert dims[..0] == [] && dims[0..] == dims;
    } else {
      ProductInParts(dims[1..], k - 1);
      assert dims[..k] == [dims[0]] + dims[1..][..k - 1] && dims[k..] == dims[1..][k - 1..];
      assert dims[0] * (Product(dims[1..][..k - 1]) * Product(dims[k..]))
          == (dims[0] * Product(dims[1..][..k - 1])) * Product(dims[k..]);
    }
  }

  lemma FactorInRange(a: int, b: int)
    requires a * b != 0 && InInt64(a * b)
    ensures InInt64(a) || a * b == INT64_MIN
  {
    if a > 0 && b > 0 {
      MulMono(a, 1, b);
    } else if a > 0 {
      MulMono(a, b, -1);
    } else if b > 0 {
      MulMono(-a, 1, b);
      assert -a * b == -(a * b);
    } else {
      MulMono(-a, b, -1);
      assert -a * b == -(a * b);
    }
  }

  /** Except for the products 0 and -2^63 native never gives up on a product that fits: it fits exactly when
      every prefix does. */
  lemma ProductFitsIffPrefixesFit(dims: seq<int>)
    requires Product(dims) != 0 && Product(dims) != INT64_MIN
    ensures InInt64(Product(dims)) <==> RunningProductsFit(dims, |dims|)
  {
    if InInt64(Product(dims)) {
      forall k | 0 <= k <= |dims| ensures InInt64(Product(dims[..k])) {
        ProductInParts(dims, k);
        FactorInRange(Product(dims[..k]), Product(dims[k..]));
      }
    }
    assert dims[..|dims|] == dims;
  }

  lemma PositiveProductFitsIffPrefixesFit(dims: seq<int>)
    requires Positive(dims)
    ensures InInt64(Product(dims)) <==> RunningProductsFit(dims, |dims|)
  {
    ProductIsPositive(dims);
    ProductFitsIffPrefixesFit(dims);
  }

  /** For both exceptions native can give up on a product that fits: an overflowing prefix before a zero
      extent, or one of exactly 2^63 that a later -1 turns into -2^63. */
  lemma PrefixMayOverflowThoughProductFits()
    ensures var dims := [INT64_MAX, 2, 0];
            Product(dims) == 0 && !RunningProductsFit(dims, |dims|)
    ensures var dims := [0x4000_0000_0000_0000, 2, -1];
            Product(dims) == INT64_MIN && !RunningProductsFit(dims, |dims|)
  {
    PrefixProducts(INT64_MAX, 2, 0);
    PrefixProducts(0x4000_0000_0000_0000, 2, -1);
    assert !InInt64(Product([INT64_MAX, 2, 0][..2]));
    assert !InInt64(Product([0x4000_0000_0000_0000, 2, -1][..2]));
  }

  lemma PrefixProducts(a: int, b: int, c: int)
    ensures Product([a, b, c][..2]) == a * b && Product([a, b, c]) == a * b * c
  {
    var dims := [a, b, c];
    NextProduct(dims, 0);
    NextProduct(dims, 1);
    NextProduct(dims, 2);
    assert dims[..3] == dims;
  }

  //////////////////////////////////////////////////////////////////////////////
  // Dense layouts
  //////////////////////////////////////////////////////////////////////////////

  predicate Positive(dims: seq<int>) {
    forall i :: 0 <= i < |dims| ==> dims[i] > 0
  }

  predicate InBox(index: seq<int>, dims: seq<int>) {
    && |index| == |dims|
    && forall i :: 0 <= i < |dims| ==> 0 <= index[i] < dims[i]
  }

  function Terms(index: seq<int>, strides: seq<int>): (t: seq<int>)
    requires |index| == |strides|
    ensures |t| == |index|
  {
    seq(|index|, i requires 0 <= i < |index| => index[i] * strides[i])
  }

  function Offset(index: seq<int>, strides: seq<int>): int
    requires |index| == |strides|
  {
    Sum(Terms(index, strides))
  }

  // The offsets of the index box are exactly 0..Product(dims)-1, each reached once.
  ghost predicate DenseLayout(dims: seq<int>, strides: seq<int>)
    requires |dims| == |strides|
  {
    && (forall index :: InBox(index, dims) ==> 0 <= Offset(index, strides) < Product(dims))
    && (forall a, b :: InBox(a, dims) && InBox(b, dims) && Offset(a, strides) == Offset(b, strides) ==> a == b)
    && (forall offset :: 0 <= offset < Product(dims) ==> Reached(dims, strides, offset))
  }

  ghost predicate Reached(dims: seq<int>, strides: seq<int>, offset: int)
    requires |dims| == |strides|
  {
    exists index :: InBox(index, dims) && Offset(index, strides) == offset
  }

  // The mixed-radix digits of an offset.
  function Unravel(dims: seq<int>, offset: int): (index: seq<int>)
    requires Positive(dims)
    ensures |index| == |dims|
  {
    if dims == [] then []
    else
      var front := dims[..|dims| - 1];
      ProductIsPositive(front);
      Unravel(front, offset % Product(front)) + [offset / Product(front)]
  }

  lemma {:induction false} ProductIsPositive(dims: seq<int>)
    requires Positive(dims)
    ensures Product(dims) > 0
  {
    if dims != [] { ProductIsPositive(dims[1..]); }
  }

  lemma StridesOfPrefix(dims: seq<int>, n: nat)
    requires n <= |dims|
    ensures Strides(dims)[..n] == Strides(dims[..n])
  {
    forall k | 0 <= k < n ensures Strides(dims)[k] == Strides(dims[..n])[k] {
      assert dims[..n][..k] == dims[..k];
    }
  }

  lemma TermsOfLast(index: seq<int>, strides: seq<int>)
    requires |index| == |strides| > 0
    ensures var n := |index| - 1;
            Offset(index, strides) == Offset(index[..n], strides[..n]) + index[n] * strides[n]
  {
    var n := |index| - 1;
    FoldsOfAppend(Terms(index[..n], strides[..n]), index[n] * strides[n]);
    assert Terms(index, strides) == Terms(index[..n], strides[..n]) + [index[n] * strides[n]];
  }

  lemma OffsetOfLast(index: seq<int>, dims: seq<int>)
    requires |index| == |dims| > 0
    ensures var n := |dims| - 1;
            && Offset(index, Strides(dims)) == Offset(index[..n], Strides(dims[..n])) + index[n] * Product(dims[..n])
            && Product(dims) == Product(dims[..n]) * dims[n]
  {
    var n := |dims| - 1;
    TermsOfLast(index, Strides(dims));
    StridesOfPrefix(dims, n);
    NextProduct(dims, n);
    assert dims[..n + 1] == dims;
  }

  lemma {:induction false} UnravelInvertsOffset(dims: seq<int>, index: seq<int>)
    requires Positive(dims) && InBox(index, dims)
    ensures 0 <= Offset(index, Strides(dims)) < Product(dims)
    ensures Unravel(dims, Offset(index, Strides(dims))) == index
    decreases |dims|
  {
    if dims != [] {
      var n := |dims| - 1;
      var size, low := Product(dims[..n]), Offset(index[..n], Strides(dims[..n]));
      UnravelInvertsOffset(dims[..n], index[..n]);
      OffsetOfLast(index, dims);
      SplitDigit(size, low, index[n], dims[n]);
      assert index == index[..n] + [index[n]];
    }
  }

  lemma SplitDigit(size: nat, low: nat, high: nat, extent: nat)
    requires low < size && high < extent
    ensures low + high * size < size * extent
    ensures (low + high * size) / size == high && (low + high * size) % size == low
  {
    MulMono(size, high + 1, extent);
    var value := low + high * size;
    var q := value / size;
    assert value == q * size + value % size;
    if q < high { MulMono(size, q + 1, high); } else if q > high { MulMono(size, high + 1, q); }
  }

  lemma AppendDigit(dims: seq<int>, low: seq<int>, high: int)
    requires |dims| > 0 && InBox(low, dims[..|dims| - 1]) && 0 <= high < dims[|dims| - 1]
    ensures var n := |dims| - 1;
            && InBox(low + [high], dims)
            && Offset(low + [high], Strides(dims)) == Offset(low, Strides(dims[..n])) + high * Product(dims[..n])
  {
    OffsetOfLast(low + [high], dims);
    assert (low + [high])[..|dims| - 1] == low;
  }

  lemma {:induction false} OffsetInvertsUnravel(dims: seq<int>, offset: int)
    requires Positive(dims) && 0 <= offset < Product(dims)
    ensures InBox(Unravel(dims, offset), dims)
    ensures Offset(Unravel(dims, offset), Strides(dims)) == offset
    decreases |dims|
  {
    if dims != [] {
      var n := |dims| - 1;
      var front, size := dims[..n], Product(dims[..n]);
      ProductIsPositive(front);
      NextProduct(dims, n);
      assert dims[..n + 1] == dims;
      HighDigit(size, offset, dims[n]);
      OffsetInvertsUnravel(front, offset % size);
      AppendDigit(dims, Unravel(front, offset % size), offset / size);
    }
  }

  lemma HighDigit(size: nat, offset: nat, extent: nat)
    requires size > 0 && offset < size * extent
    ensures offset == offset % size + (offset / size) * size
    ensures 0 <= offset / size < extent
  {
    if offset / size >= extent { MulMono(size, extent, offset / size); }
  }

  lemma SelectInBox(index: seq<int>, dims: seq<int>, p: seq<int>)
    requires IsPermutation(p) && |index| == |dims| == |p|
    ensures InBox(index, dims) <==> InBox(Select(index, p), Select(dims, p))
  {
    if InBox(Select(index, p), Select(dims, p)) {
      forall v | 0 <= v < |p| ensures 0 <= index[v] < dims[v] {
        PermutationIsOnto(p, v);
        var i := IndexOf(p, v);
        assert Select(index, p)[i] == index[v] && Select(dims, p)[i] == dims[v];
      }
    }
  }

  lemma SelectIsInjective(a: seq<int>, b: seq<int>, p: seq<int>)
    requires IsPermutation(p) && |a| == |b| == |p| && Select(a, p) == Select(b, p)
    ensures a == b
  {
    forall v | 0 <= v < |p| ensures a[v] == b[v] {
      PermutationIsOnto(p, v);
      var i := IndexOf(p, v);
      assert Select(a, p)[i] == a[v] && Select(b, p)[i] == b[v];
    }
  }

  lemma SelectUnordered(s: seq<int>, p: seq<int>) returns (t: seq<int>)
    requires IsPermutation(p) && |s| == |p|
    ensures |t| == |s| && Select(t, p) == s
  {
    t := seq(|p|, v requires 0 <= v < |p| => (PermutationIsOnto(p, v); s[IndexOf(p, v)]));
    forall i | 0 <= i < |p| ensures Select(t, p)[i] == s[i] {
      PermutationIsOnto(p, p[i]);
      assert p[IndexOf(p, p[i])] == p[i];
    }
  }

  // Permuting the axes turns the permuted layout into the contiguous one.
  lemma PermutedOffset(index: seq<int>, dims: seq<int>, p: seq<int>)
    requires IsPermutation(p) && |index| == |dims| == |p|
    ensures Offset(index, PermutedStrides(dims, p)) == Offset(Select(index, p), Strides(Select(dims, p)))
  {
    var terms := Terms(index, PermutedStrides(dims, p));
    SelectByPermutation(terms, p);
    RearrangementKeepsFolds(Select(terms, p), terms);
    forall i | 0 <= i < |p|
      ensures Select(terms, p)[i] == Terms(Select(index, p), Strides(Select(dims, p)))[i]
    {
      PermutationIsOnto(p, p[i]);
      assert IndexOf(p, p[i]) == i;
    }
    assert Select(terms, p) == Terms(Select(index, p), Strides(Select(dims, p)));
  }

  /** permuted_contiguous_strides is a dense layout: for positive extents and any permutation the
      offsets of the index box are a bijection onto 0..Product(dims)-1. */
  lemma PermutedLayoutIsDense(dims: seq<int>, p: seq<int>)
    requires Positive(dims) && IsPermutation(p) && |dims| == |p|
    ensures DenseLayout(dims, PermutedStrides(dims, p))
  {
    var base, strides := Select(dims, p), PermutedStrides(dims, p);
    SelectByPermutation(dims, p);
    RearrangementKeepsFolds(base, dims);
    forall index | InBox(index, dims)
      ensures 0 <= Offset(index, strides) < Product(dims)
      ensures Unravel(base, Offset(index, strides)) == Select(index, p)
    {
      SelectInBox(index, dims, p);
      PermutedOffset(index, dims, p);
      UnravelInvertsOffset(base, Select(index, p));
    }
    forall a, b | InBox(a, dims) && InBox(b, dims) && Offset(a, strides) == Offset(b, strides)
      ensures a == b
    {
      SelectIsInjective(a, b, p);
    }
    forall offset | 0 <= offset < Product(dims) ensures Reached(dims, strides, offset) {
      OffsetInvertsUnravel(base, offset);
      var index := SelectUnordered(Unravel(base, offset), p);
      SelectInBox(index, dims, p);
      PermutedOffset(index, dims, p);
    }
  }

  /** The identity permutation gives the contiguous strides, which are therefore dense too. */
  lemma IdentityPermutationIsContiguous(dims: seq<int>)
    ensures PermutedStrides(dims, Iota(|dims|)) == Strides(dims)
    ensures Positive(dims) ==> DenseLayout(dims, Strides(dims))
  {
    var p := Iota(|dims|);
    assert Select(dims, p) == dims;
    forall v | 0 <= v < |dims| ensures IndexOf(p, v) == v {
      PermutationIsOnto(p, v);
    }
    assert PermutedStrides(dims, p) == Strides(dims);
    if Positive(dims) {
      PermutedLayoutIsDense(dims, p);
    }
  }
}
