// Axis permutations as both routers test and combine them.
module Permutations {
  import opened Wrappers
  import opened Int64

  // p maps the axes 0..|p|-1 one to one onto themselves.
  predicate IsPermutation(p: seq<int>) {
    && (forall i :: 0 <= i < |p| ==> 0 <= p[i] < |p|)
    && (forall i, j :: 0 <= i < j < |p| ==> p[i] != p[j])
  }

  function Iota(n: nat): (s: seq<int>)
    ensures |s| == n
  {
    seq(n, i => i)
  }

  // The elements of s picked in the order given by p.
  function Select(s: seq<int>, p: seq<int>): (r: seq<int>)
    requires forall i :: 0 <= i < |p| ==> 0 <= p[i] < |s|
    ensures |r| == |p|
  {
    seq(|p|, i requires 0 <= i < |p| => s[p[i]])
  }

  function IndexOf(p: seq<int>, v: int): (i: nat)
    ensures i <= |p|
    ensures i < |p| ==> p[i] == v
    ensures v in p ==> i < |p|
  {
    if p == [] then 0 else if p[0] == v then 0 else 1 + IndexOf(p[1..], v)
  }

  //////////////////////////////////////////////////////////////////////////////
  // Pigeonhole
  //////////////////////////////////////////////////////////////////////////////

  lemma InjectiveImageSize(p: seq<int>)
    requires forall i, j :: 0 <= i < j < |p| ==> p[i] != p[j]
    ensures |set x | x in p| == |p|
  {
    if p != [] {
      var rest := p[..|p| - 1];
      InjectiveImageSize(rest);
      assert (set x | x in p) == (set x | x in rest) + {p[|p| - 1]};
    }
  }

  lemma SubsetOfSameSize(a: set<int>, b: set<int>)
    requires a <= b && |a| == |b|
    ensures a == b
  {
    assert b == a + (b - a);
    assert |b| == |a| + |b - a|;
  }

  lemma PermutationIsOnto(p: seq<int>, v: int)
    requires IsPermutation(p) && 0 <= v < |p|
    ensures v in p && p[IndexOf(p, v)] == v
  {
    var image := set x | x in p;
    var range := set x | x in Iota(|p|);
    InjectiveImageSize(p);
    InjectiveImageSize(Iota(|p|));
    assert forall x :: x in p ==> Iota(|p|)[x] == x;
    SubsetOfSameSize(image, range);
    assert Iota(|p|)[v] in range;
  }

  //////////////////////////////////////////////////////////////////////////////
  // Rearranging a sequence
  //////////////////////////////////////////////////////////////////////////////

  function Without<T>(s: seq<T>, i: nat): seq<T>
    requires i < |s|
  {
    s[..i] + s[i + 1..]
  }

  lemma WithoutKeepsTheRest<T>(s: seq<T>, i: nat)
    requires i < |s|
    ensures multiset(s) == multiset(Without(s, i)) + multiset{s[i]}
  {
    assert s == s[..i] + [s[i]] + s[i + 1..];
  }

  lemma {:induction false} SelectByPermutation(s: seq<int>, p: seq<int>)
    requires |s| == |p| && IsPermutation(p)
    ensures multiset(Select(s, p)) == multiset(s)
    decreases |p|
  {
    if p != [] {
      var last := |p| - 1;
      PermutationIsOnto(p, last);
      var at := IndexOf(p, last);
      var smaller := Without(p, at);
      assert forall i :: 0 <= i < |smaller| ==> smaller[i] == p[if i < at then i else i + 1];
      SelectByPermutation(s[..last], smaller);
      assert Select(s[..last], smaller) == Without(Select(s, p), at);
      WithoutKeepsTheRest(Select(s, p), at);
      assert s == s[..last] + [s[last]];
    } else {
      assert Select(s, p) == s;
    }
  }

  function Sum(s: seq<int>): int {
    if s == [] then 0 else s[0] + Sum(s[1..])
  }

  function Product(s: seq<int>): int {
    if s == [] then 1 else s[0] * Product(s[1..])
  }

  lemma {:induction false} SumWithout(s: seq<int>, i: nat)
    requires i < |s|
    ensures Sum(s) == s[i] + Sum(Without(s, i))
    ensures Product(s) == s[i] * Product(Without(s, i))
  {
    if i == 0 {
      assert Without(s, 0) == s[1..];
    } else {
      SumWithout(s[1..], i - 1);
      var rest := Without(s[1..], i - 1);
      assert Without(s, i) == [s[0]] + rest;
      assert s[0] * (s[i] * Product(rest)) == s[i] * (s[0] * Product(rest));
    }
  }

  lemma {:induction false} RearrangementKeepsFolds(a: seq<int>, b: seq<int>)
    requires multiset(a) == multiset(b)
    ensures Sum(a) == Sum(b) && Product(a) == Product(b)
    decreases |a|
  {
    if a != [] {
      assert a[0] in multiset(a);
      assert a[0] in b;
      var i := IndexOf(b, a[0]);
      WithoutKeepsTheRest(b, i);
      assert a == [a[0]] + a[1..];
      assert multiset(a[1..]) == multiset(a) - multiset{a[0]};
      RearrangementKeepsFolds(a[1..], Without(b, i));
      SumWithout(b, i);
    } else {
      assert |multiset(b)| == 0;
      assert b == [];
    }
  }

  //////////////////////////////////////////////////////////////////////////////
  // Python's test: sorted(p) == range(len(p))
  //////////////////////////////////////////////////////////////////////////////

  predicate Ascending(s: seq<int>) {
    forall i, j :: 0 <= i < j < |s| ==> s[i] <= s[j]
  }

  function Insert(x: int, s: seq<int>): (r: seq<int>)
    ensures multiset(r) == multiset(s) + multiset{x}
  {
    if s == [] then [x]
    else if x <= s[0] then [x] + s
    else
      assert s == [s[0]] + s[1..];
      [s[0]] + Insert(x, s[1..])
  }

  lemma {:induction false} InsertKeepsAscending(x: int, s: seq<int>)
    requires Ascending(s)
    ensures Ascending(Insert(x, s))
  {
    if s != [] && x > s[0] {
      var rest := Insert(x, s[1..]);
      InsertKeepsAscending(x, s[1..]);
      forall i | 0 <= i < |rest| ensures s[0] <= rest[i] {
        assert rest[i] in multiset(rest);
        assert rest[i] == x || rest[i] in s[1..];
      }
    }
  }

  // Python's sorted() on integers.
  function Sorted(s: seq<int>): (r: seq<int>)
    ensures multiset(r) == multiset(s)
  {
    if s == [] then []
    else
      assert s == [s[0]] + s[1..];
      Insert(s[0], Sorted(s[1..]))
  }

  lemma {:induction false} SortedAscends(s: seq<int>)
    ensures Ascending(Sorted(s)) && |Sorted(s)| == |s|
  {
    assert |Sorted(s)| == |multiset(Sorted(s))| == |multiset(s)| == |s|;
    if s != [] {
      SortedAscends(s[1..]);
      InsertKeepsAscending(s[0], Sorted(s[1..]));
    }
  }

  lemma SameLength(a: seq<int>, b: seq<int>)
    requires multiset(a) == multiset(b)
    ensures |a| == |b|
  {
    assert |multiset(a)| == |multiset(b)|;
  }

  lemma FirstIsLeast(s: seq<int>, x: int)
    requires Ascending(s) && x in multiset(s)
    ensures s[0] <= x
  {
    assert x in s;
  }

  lemma TailOf<T>(s: seq<T>)
    requires s != []
    ensures multiset(s[1..]) == multiset(s) - multiset{s[0]}
  {
    assert s == [s[0]] + s[1..];
  }

  // Ascending rearrangements start with the same element and continue with a rearrangement.
  lemma AscendingSplit(a: seq<int>, b: seq<int>)
    requires Ascending(a) && Ascending(b) && multiset(a) == multiset(b) && a != []
    ensures b != [] && a[0] == b[0] && multiset(a[1..]) == multiset(b[1..])
  {
    SameLength(a, b);
    assert b[0] in multiset(b) && a[0] in multiset(a);
    FirstIsLeast(a, b[0]);
    FirstIsLeast(b, a[0]);
    TailOf(a);
    TailOf(b);
  }

  lemma {:induction false} AscendingIsUnique(a: seq<int>, b: seq<int>)
    requires Ascending(a) && Ascending(b) && multiset(a) == multiset(b)
    ensures a == b
    decreases |a|
  {
    SameLength(a, b);
    if a != [] {
      AscendingSplit(a, b);
      AscendingIsUnique(a[1..], b[1..]);
      assert a == [a[0]] + a[1..] && b == [b[0]] + b[1..];
    }
  }

  lemma RepeatedElement(s: seq<int>, i: nat, j: nat)
    requires i < j < |s| && s[i] == s[j]
    ensures multiset(s)[s[i]] >= 2
  {
    WithoutKeepsTheRest(s, j);
    assert s[i] == Without(s, j)[i];
  }

  lemma DistinctElements(s: seq<int>, v: int)
    requires forall i, j :: 0 <= i < j < |s| ==> s[i] != s[j]
    ensures multiset(s)[v] <= 1
  {
    if v in s {
      var k := IndexOf(s, v);
      WithoutKeepsTheRest(s, k);
      assert v !in Without(s, k);
    }
  }

  lemma RearrangedIotaIsPermutation(p: seq<int>)
    requires multiset(p) == multiset(Iota(|p|))
    ensures IsPermutation(p)
  {
    forall i | 0 <= i < |p| ensures 0 <= p[i] < |p| {
      assert p[i] in multiset(p);
      assert p[i] in Iota(|p|);
    }
    forall i, j | 0 <= i < j < |p| ensures p[i] != p[j] {
      DistinctElements(Iota(|p|), p[i]);
      if p[i] == p[j] { RepeatedElement(p, i, j); }
    }
  }

  lemma PermutationRearrangesIota(p: seq<int>)
    requires IsPermutation(p)
    ensures multiset(p) == multiset(Iota(|p|))
  {
    SelectByPermutation(Iota(|p|), p);
    assert Select(Iota(|p|), p) == p;
  }

  /** The pigeonhole principle behind Python's test: a sequence sorts to 0..n-1 exactly when
      its entries are in range and pairwise distinct. */
  lemma SortedIsIotaIffPermutation(p: seq<int>)
    ensures Sorted(p) == Iota(|p|) <==> IsPermutation(p)
  {
    if Sorted(p) == Iota(|p|) {
      RearrangedIotaIsPermutation(p);
    }
    if IsPermutation(p) {
      PermutationRearrangesIota(p);
      SortedAscends(p);
      AscendingIsUnique(Sorted(p), Iota(|p|));
    }
  }

  //////////////////////////////////////////////////////////////////////////////
  // Native test: the seen-array scan
  //////////////////////////////////////////////////////////////////////////////

  // is_permutation of the native selector.
  method ScanPermutation(permutation: Vec) returns (result: bool)
    ensures result <==> IsPermutation(permutation)
  {
    var seen := new bool[|permutation|](_ => false);
    for k := 0 to |permutation|
      invariant forall i :: 0 <= i < k ==> 0 <= permutation[i] < |permutation|
      invariant forall i, j :: 0 <= i < j < k ==> permutation[i] != permutation[j]
      invariant forall v :: 0 <= v < seen.Length ==> (seen[v] <==> v in permutation[..k])
    {
      var axis := permutation[k];
      if axis < 0 {
        return false;
      }
      if axis >= |permutation| || seen[axis] {
        return false;
      }
      seen[axis] := true;
      assert permutation[..k + 1] == permutation[..k] + [axis];
    }
    result := true;
  }

  //////////////////////////////////////////////////////////////////////////////
  // Inverse and chain
  //////////////////////////////////////////////////////////////////////////////

  function Inverse(p: seq<int>): (q: seq<int>)
    ensures |q| == |p|
  {
    seq(|p|, v => IndexOf(p, v))
  }

  // chained[i] = second[first[i]]
  function Chain(first: seq<int>, second: seq<int>): (r: seq<int>)
    requires IsPermutation(first) && |first| == |second|
    ensures |r| == |first|
  {
    Select(second, first)
  }

  // The loop both implementations use to invert a permutation in place.
  method InvertInPlace(permutation: seq<int>) returns (inverse: seq<int>)
    requires IsPermutation(permutation)
    ensures inverse == Inverse(permutation)
  {
    var buffer := new int[|permutation|](_ => 0);
    for index := 0 to |permutation|
      invariant forall i :: 0 <= i < index ==> buffer[permutation[i]] == i
    {
      buffer[permutation[index]] := index;
    }
    inverse := buffer[..];
    forall v | 0 <= v < |permutation| ensures inverse[v] == IndexOf(permutation, v) {
      PermutationIsOnto(permutation, v);
      var i := IndexOf(permutation, v);
      assert buffer[permutation[i]] == i;
    }
  }

  lemma InverseAt(p: seq<int>, i: nat)
    requires IsPermutation(p) && i < |p|
    ensures Inverse(p)[p[i]] == i
    ensures 0 <= Inverse(p)[i] < |p| && p[Inverse(p)[i]] == i
  {
    PermutationIsOnto(p, i);
    assert p[IndexOf(p, p[i])] == p[i];
  }

  lemma InverseIsPermutation(p: seq<int>)
    requires IsPermutation(p)
    ensures IsPermutation(Inverse(p))
  {
    var q := Inverse(p);
    forall i | 0 <= i < |q| ensures 0 <= q[i] < |q| && p[q[i]] == i {
      InverseAt(p, i);
    }
  }

  lemma ChainIsPermutation(p: seq<int>, q: seq<int>)
    requires IsPermutation(p) && IsPermutation(q) && |p| == |q|
    ensures IsPermutation(Chain(p, q))
  {
    var r := Chain(p, q);
    forall i, j | 0 <= i < j < |r| ensures r[i] != r[j] {
      assert p[i] != p[j];
    }
  }

  /** inverse_permutation is an involution. */
  lemma InverseIsInvolution(p: seq<int>)
    requires IsPermutation(p)
    ensures Inverse(Inverse(p)) == p
  {
    InverseIsPermutation(p);
    forall i | 0 <= i < |p| ensures Inverse(Inverse(p))[i] == p[i] {
      InverseAt(p, i);
      InverseAt(Inverse(p), p[i]);
    }
  }

  /** The inverse is two-sided under chain_permutations. */
  lemma InverseIsTwoSided(p: seq<int>)
    requires IsPermutation(p)
    ensures IsPermutation(Inverse(p))
    ensures Chain(p, Inverse(p)) == Iota(|p|) == Chain(Inverse(p), p)
  {
    InverseIsPermutation(p);
    forall i | 0 <= i < |p|
      ensures Chain(p, Inverse(p))[i] == i && Chain(Inverse(p), p)[i] == i
    {
      InverseAt(p, i);
    }
  }

  /** chain_permutations is associative. */
  lemma ChainIsAssociative(p: seq<int>, q: seq<int>, r: seq<int>)
    requires IsPermutation(p) && IsPermutation(q) && |p| == |q| == |r|
    ensures IsPermutation(Chain(p, q))
    ensures Chain(Chain(p, q), r) == Chain(p, Chain(q, r))
  {
    ChainIsPermutation(p, q);
  }

  /** Inverting a chain reverses it. */
  lemma InverseOfChain(p: seq<int>, q: seq<int>)
    requires IsPermutation(p) && IsPermutation(q) && |p| == |q|
    ensures IsPermutation(Inverse(q))
    ensures Inverse(Chain(p, q)) == Chain(Inverse(q), Inverse(p))
  {
    ChainIsPermutation(p, q);
    InverseIsPermutation(q);
    forall v | 0 <= v < |p| ensures Inverse(Chain(p, q))[v] == Chain(Inverse(q), Inverse(p))[v] {
      InverseAt(q, v);
      var j := Inverse(q)[v];
      InverseAt(p, j);
      var i := Inverse(p)[j];
      assert Chain(p, q)[i] == v;
      InverseAt(Chain(p, q), i);
    }
  }
}
