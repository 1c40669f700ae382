// The copy oracle: logical elements are read through one strided, wrapping index map, cast, and
// written through another.
module Scatter {
  import opened Int64
  import opened Permutations
  import opened Strides

  //////////////////////////////////////////////////////////////////////////////
  // Index maps
  //////////////////////////////////////////////////////////////////////////////

  predicate NonNegative(s: seq<int>) {
    forall i :: 0 <= i < |s| ==> s[i] >= 0
  }

  // One logical index under _pointwise_logical_indices: every coordinate wraps at the tensor's
  // extent (broadcasting) and is scaled by the tensor's stride.
  function Linear(index: seq<int>, dims: seq<int>, strides: seq<int>): int
    requires |index| == |dims| == |strides| && Positive(dims)
  {
    if index == [] then 0
    else index[0] % dims[0] * strides[0] + Linear(index[1..], dims[1..], strides[1..])
  }

  // _buffer_length
  function BufferLength(dims: seq<int>, strides: seq<int>): int
    requires |dims| == |strides|
  {
    if dims == [] then 1 else (dims[0] - 1) * strides[0] + BufferLength(dims[1..], strides[1..])
  }

  /** Every wrapped index lies inside the buffer _buffer_length sizes for those extents. */
  lemma {:induction false} LinearInBuffer(index: seq<int>, dims: seq<int>, strides: seq<int>)
    requires |index| == |dims| == |strides| && Positive(dims) && NonNegative(strides)
    ensures 0 <= Linear(index, dims, strides) < BufferLength(dims, strides)
  {
    if index != [] {
      LinearInBuffer(index[1..], dims[1..], strides[1..]);
      MulMono(strides[0], 0, index[0] % dims[0]);
      MulMono(strides[0], index[0] % dims[0], dims[0] - 1);
    }
  }

  // The oracle's source buffer covers both the tensor's own extents and the common ones.
  function SourceLength(common: seq<int>, sourceDims: seq<int>, strides: seq<int>): int
    requires |common| == |sourceDims| == |strides|
  {
    var own, shared := BufferLength(sourceDims, strides), BufferLength(common, strides);
    if own > shared then own else shared
  }

  // A storage route indexes the source by the common extents, any other by its own.
  function SourceIndexDims(common: seq<int>, sourceDims: seq<int>, storage: bool): seq<int> {
    if storage then common else sourceDims
  }

  lemma SourceIndexInBuffer(index: seq<int>, common: seq<int>, sourceDims: seq<int>, strides: seq<int>, storage: bool)
    requires |index| == |common| == |sourceDims| == |strides|
    requires Positive(common) && Positive(sourceDims) && NonNegative(strides)
    ensures 0 <= Linear(index, SourceIndexDims(common, sourceDims, storage), strides)
    ensures Linear(index, SourceIndexDims(common, sourceDims, storage), strides)
          < SourceLength(common, sourceDims, strides)
  {
    LinearInBuffer(index, SourceIndexDims(common, sourceDims, storage), strides);
  }

  //////////////////////////////////////////////////////////////////////////////
  // The logical elements in numpy's order
  //////////////////////////////////////////////////////////////////////////////

  // The n-th index of the box, last axis fastest.
  function RowMajor(dims: seq<int>, n: int): (index: seq<int>)
    requires Positive(dims)
    ensures |index| == |dims|
  {
    if dims == [] then []
    else
      ProductIsPositive(dims[1..]);
      [n / Product(dims[1..])] + RowMajor(dims[1..], n % Product(dims[1..]))
  }

  function Rank(index: seq<int>, dims: seq<int>): int
    requires |index| == |dims|
  {
    if dims == [] then 0 else index[0] * Product(dims[1..]) + Rank(index[1..], dims[1..])
  }

  lemma {:induction false} RowMajorInBox(dims: seq<int>, n: int)
    requires Positive(dims) && 0 <= n < Product(dims)
    ensures InBox(RowMajor(dims, n), dims) && Rank(RowMajor(dims, n), dims) == n
  {
    if dims != [] {
      var size := Product(dims[1..]);
      ProductIsPositive(dims[1..]);
      HighDigit(size, n, dims[0]);
      RowMajorInBox(dims[1..], n % size);
    }
  }

  lemma {:induction false} RankInvertsRowMajor(dims: seq<int>, index: seq<int>)
    requires Positive(dims) && InBox(index, dims)
    ensures 0 <= Rank(index, dims) < Product(dims) && RowMajor(dims, Rank(index, dims)) == index
  {
    if dims != [] {
      RankInvertsRowMajor(dims[1..], index[1..]);
      SplitDigit(Product(dims[1..]), Rank(index[1..], dims[1..]), index[0], dims[0]);
      assert index == [index[0]] + index[1..];
    }
  }

  //////////////////////////////////////////////////////////////////////////////
  // The scatter
  //////////////////////////////////////////////////////////////////////////////

  datatype Plan = Plan(
    common: seq<int>,
    sourceDims: seq<int>, sourceStrides: seq<int>,
    targetDims: seq<int>, targetStrides: seq<int>,
    storage: bool)

  predicate ValidPlan(plan: Plan) {
    && |plan.common| == |plan.sourceDims| == |plan.sourceStrides| == |plan.targetDims| == |plan.targetStrides|
    && Positive(plan.common) && Positive(plan.sourceDims) && Positive(plan.targetDims)
    && NonNegative(plan.sourceStrides) && NonNegative(plan.targetStrides)
  }

  function SourceOf(plan: Plan, n: int): int
    requires ValidPlan(plan)
  {
    Linear(RowMajor(plan.common, n), SourceIndexDims(plan.common, plan.sourceDims, plan.storage), plan.sourceStrides)
  }

  function TargetOf(plan: Plan, n: int): int
    requires ValidPlan(plan)
  {
    Linear(RowMajor(plan.common, n), plan.targetDims, plan.targetStrides)
  }

  function SourceBuffer(plan: Plan): int
    requires ValidPlan(plan)
  {
    SourceLength(plan.common, plan.sourceDims, plan.sourceStrides)
  }

  function TargetBuffer(plan: Plan): int
    requires ValidPlan(plan)
  {
    BufferLength(plan.targetDims, plan.targetStrides)
  }

  lemma AccessesInBounds(plan: Plan, n: int)
    requires ValidPlan(plan)
    ensures 0 <= SourceOf(plan, n) < SourceBuffer(plan)
    ensures 0 <= TargetOf(plan, n) < TargetBuffer(plan)
  {
    SourceIndexInBuffer(RowMajor(plan.common, n), plan.common, plan.sourceDims, plan.sourceStrides, plan.storage);
    LinearInBuffer(RowMajor(plan.common, n), plan.targetDims, plan.targetStrides);
  }

  // After `n` writes a cell holds the last logical element that went there, or its initial value.
  function CellAfter<T, U>(plan: Plan, source: seq<T>, cast: T -> U, initial: U, cell: int, n: nat): U
    requires ValidPlan(plan) && |source| == SourceBuffer(plan)
  {
    if n == 0 then initial
    else if TargetOf(plan, n - 1) == cell then
      AccessesInBounds(plan, n - 1);
      cast(source[SourceOf(plan, n - 1)])
    else CellAfter(plan, source, cast, initial, cell, n - 1)
  }

  // The fancy-indexed assignment, one logical element after the other; the last one written wins.
  method CopyOracle<T, U(0)>(plan: Plan, source: seq<T>, cast: T -> U, initial: seq<U>) returns (expected: array<U>)
    requires ValidPlan(plan) && |source| == SourceBuffer(plan) && |initial| == TargetBuffer(plan)
    ensures fresh(expected) && expected.Length == |initial|
    ensures forall cell :: 0 <= cell < |initial| ==>
      expected[cell] == CellAfter(plan, source, cast, initial[cell], cell, LogicalCount(plan))
  {
    expected := new U[|initial|](i requires 0 <= i < |initial| => initial[i]);
    for n := 0 to LogicalCount(plan)
      invariant forall cell :: 0 <= cell < |initial| ==>
        expected[cell] == CellAfter(plan, source, cast, initial[cell], cell, n)
    {
      AccessesInBounds(plan, n);
      expected[TargetOf(plan, n)] := cast(source[SourceOf(plan, n)]);
    }
  }

  function LogicalCount(plan: Plan): nat
    requires ValidPlan(plan)
  {
    ProductIsPositive(plan.common);
    Product(plan.common)
  }

  // Distinct logical elements go to distinct cells.
  ghost predicate InjectiveTarget(plan: Plan)
    requires ValidPlan(plan)
  {
    forall m, n :: 0 <= m < n < LogicalCount(plan) ==> TargetOf(plan, m) != TargetOf(plan, n)
  }

  lemma {:induction false} UntouchedCell<T, U>(plan: Plan, source: seq<T>, cast: T -> U, initial: U, cell: int,
      first: nat, end: nat)
    requires ValidPlan(plan) && |source| == SourceBuffer(plan) && first <= end
    requires forall n :: first <= n < end ==> TargetOf(plan, n) != cell
    ensures CellAfter(plan, source, cast, initial, cell, end) == CellAfter(plan, source, cast, initial, cell, first)
    decreases end
  {
    if first < end { UntouchedCell(plan, source, cast, initial, cell, first, end - 1); }
  }

  /** The copy oracle is a correct strided scatter: when the target map is injective, every logical element
      ends up in its own cell with its cast source value, and every other cell keeps its initial value. */
  lemma ScatterIsCorrect<T, U>(plan: Plan, source: seq<T>, cast: T -> U, initial: seq<U>, n: nat, cell: nat)
    requires ValidPlan(plan) && |source| == SourceBuffer(plan) && |initial| == TargetBuffer(plan)
    requires InjectiveTarget(plan) && n < LogicalCount(plan) && cell < |initial|
    ensures 0 <= SourceOf(plan, n) < |source| && 0 <= TargetOf(plan, n) < |initial|
    ensures CellAfter(plan, source, cast, initial[TargetOf(plan, n)], TargetOf(plan, n), LogicalCount(plan))
         == cast(source[SourceOf(plan, n)])
    ensures !Filled(plan, cell) ==>
      CellAfter(plan, source, cast, initial[cell], cell, LogicalCount(plan)) == initial[cell]
  {
    AccessesInBounds(plan, n);
    var target := TargetOf(plan, n);
    UntouchedCell(plan, source, cast, initial[target], target, n + 1, LogicalCount(plan));
    if !Filled(plan, cell) {
      UntouchedCell(plan, source, cast, initial[cell], cell, 0, LogicalCount(plan));
    }
  }

  //////////////////////////////////////////////////////////////////////////////
  // Permuted contiguous targets
  //////////////////////////////////////////////////////////////////////////////

  lemma {:induction false} LinearWithoutWrap(index: seq<int>, dims: seq<int>, strides: seq<int>)
    requires |dims| == |strides| && InBox(index, dims) && Positive(dims)
    ensures Linear(index, dims, strides) == Offset(index, strides)
  {
    var terms := Terms(index, strides);
    if index != [] {
      LinearWithoutWrap(index[1..], dims[1..], strides[1..]);
      assert Terms(index[1..], strides[1..]) == terms[1..];
      SmallRemainder(index[0], dims[0]);
    }
  }

  lemma SmallRemainder(a: nat, b: nat)
    requires a < b
    ensures a % b == a
  {
  }

  ghost predicate Filled(plan: Plan, cell: int)
    requires ValidPlan(plan)
  {
    exists n :: 0 <= n < LogicalCount(plan) && TargetOf(plan, n) == cell
  }

  /** A target of the common extents with contiguous strides, permuted or not, is injective and its
      elements fill the first Product(dims) cells without gaps. */
  lemma PermutedContiguousTargetIsInjective(plan: Plan, p: seq<int>)
    requires ValidPlan(plan) && plan.targetDims == plan.common
    requires IsPermutation(p) && |p| == |plan.common| && plan.targetStrides == PermutedStrides(plan.common, p)
    ensures InjectiveTarget(plan)
    ensures forall cell :: 0 <= cell < LogicalCount(plan) ==> Filled(plan, cell)
  {
    PermutedLayoutIsDense(plan.common, p);
    forall n | 0 <= n < LogicalCount(plan)
      ensures InBox(RowMajor(plan.common, n), plan.common) && Rank(RowMajor(plan.common, n), plan.common) == n
      ensures TargetOf(plan, n) == Offset(RowMajor(plan.common, n), plan.targetStrides)
    {
      RowMajorInBox(plan.common, n);
      LinearWithoutWrap(RowMajor(plan.common, n), plan.common, plan.targetStrides);
    }
    forall cell | 0 <= cell < LogicalCount(plan)
      ensures Filled(plan, cell)
    {
      assert Reached(plan.common, plan.targetStrides, cell);
      var index :| InBox(index, plan.common) && Offset(index, plan.targetStrides) == cell;
      RankInvertsRowMajor(plan.common, index);
      assert TargetOf(plan, Rank(index, plan.common)) == cell;
    }
  }

  //////////////////////////////////////////////////////////////////////////////
  // Element by element
  //////////////////////////////////////////////////////////////////////////////

  // The sum of (index[i] % dims[i]) * strides[i] over the first n axes.
  function Wrapped(index: seq<int>, dims: seq<int>, strides: seq<int>, n: nat): int
    requires n <= |index| == |dims| == |strides| && Positive(dims)
  {
    if n == 0 then 0
    else Wrapped(index, dims, strides, n - 1) + index[n - 1] % dims[n - 1] * strides[n - 1]
  }

  function Position(index: seq<int>, dims: seq<int>, strides: seq<int>): int
    requires |index| == |dims| == |strides| && Positive(dims)
  {
    Wrapped(index, dims, strides, |index|)
  }

  lemma {:induction false} WrappedTail(index: seq<int>, dims: seq<int>, strides: seq<int>, n: nat)
    requires 0 < n <= |index| == |dims| == |strides| && Positive(dims)
    ensures Wrapped(index, dims, strides, n)
         == index[0] % dims[0] * strides[0] + Wrapped(index[1..], dims[1..], strides[1..], n - 1)
  {
    if n > 1 {
      WrappedTail(index, dims, strides, n - 1);
    }
  }

  lemma {:induction false} LinearIsPosition(index: seq<int>, dims: seq<int>, strides: seq<int>)
    requires |index| == |dims| == |strides| && Positive(dims)
    ensures Linear(index, dims, strides) == Position(index, dims, strides)
  {
    if index != [] {
      LinearIsPosition(index[1..], dims[1..], strides[1..]);
      WrappedTail(index, dims, strides, |index|);
    }
  }

  // The last cell a tensor of these extents reaches.
  function LastCell(dims: seq<int>, strides: seq<int>, n: nat): int
    requires n <= |dims| == |strides|
  {
    if n == 0 then 0 else LastCell(dims, strides, n - 1) + (dims[n - 1] - 1) * strides[n - 1]
  }

  lemma {:induction false} LastCellTail(dims: seq<int>, strides: seq<int>, n: nat)
    requires 0 < n <= |dims| == |strides|
    ensures LastCell(dims, strides, n) == (dims[0] - 1) * strides[0] + LastCell(dims[1..], strides[1..], n - 1)
  {
    if n > 1 {
      LastCellTail(dims, strides, n - 1);
    }
  }

  /** A buffer ends right behind the last cell its tensor reaches. */
  lemma {:induction false} BufferIsTight(dims: seq<int>, strides: seq<int>)
    requires |dims| == |strides|
    ensures BufferLength(dims, strides) == LastCell(dims, strides, |dims|) + 1
  {
    if dims != [] {
      BufferIsTight(dims[1..], strides[1..]);
      LastCellTail(dims, strides, |dims|);
    }
  }

  /** The source buffer is the longer of the two that the source's own and the common extents need, and the target
      buffer is the one the target's extents need. */
  lemma BuffersOfPlan(plan: Plan)
    requires ValidPlan(plan)
    ensures var own := LastCell(plan.sourceDims, plan.sourceStrides, |plan.common|) + 1;
            var shared := LastCell(plan.common, plan.sourceStrides, |plan.common|) + 1;
            SourceBuffer(plan) >= own && SourceBuffer(plan) >= shared && SourceBuffer(plan) in {own, shared}
    ensures TargetBuffer(plan) == LastCell(plan.targetDims, plan.targetStrides, |plan.common|) + 1
  {
    BufferIsTight(plan.sourceDims, plan.sourceStrides);
    BufferIsTight(plan.common, plan.sourceStrides);
    BufferIsTight(plan.targetDims, plan.targetStrides);
  }

  // Distinct logical indices have distinct target positions.
  ghost predicate DistinctPositions(plan: Plan)
    requires ValidPlan(plan)
  {
    forall a, b :: InBox(a, plan.common) && InBox(b, plan.common) && a != b ==>
      Position(a, plan.targetDims, plan.targetStrides) != Position(b, plan.targetDims, plan.targetStrides)
  }

  lemma DistinctPositionsAreInjective(plan: Plan)
    requires ValidPlan(plan) && DistinctPositions(plan)
    ensures InjectiveTarget(plan)
  {
    forall m, n | 0 <= m < n < LogicalCount(plan) ensures TargetOf(plan, m) != TargetOf(plan, n) {
      var a, b := RowMajor(plan.common, m), RowMajor(plan.common, n);
      RowMajorInBox(plan.common, m);
      RowMajorInBox(plan.common, n);
      LinearIsPosition(a, plan.targetDims, plan.targetStrides);
      LinearIsPosition(b, plan.targetDims, plan.targetStrides);
    }
  }

  /** Every logical index, its coordinates wrapped at the extents of source and target, takes the source
      element at its source position, cast, to its target position. A storage route wraps the source at
      the common extents. */
  lemma EveryElementLands<T, U>(plan: Plan, source: seq<T>, cast: T -> U, initial: seq<U>, index: seq<int>)
    requires ValidPlan(plan) && |source| == SourceBuffer(plan) && |initial| == TargetBuffer(plan)
    requires DistinctPositions(plan) && InBox(index, plan.common)
    ensures var from := Position(index, if plan.storage then plan.common else plan.sourceDims, plan.sourceStrides);
      var cell := Position(index, plan.targetDims, plan.targetStrides);
      && 0 <= from < |source| && 0 <= cell < |initial|
      && CellAfter(plan, source, cast, initial[cell], cell, LogicalCount(plan)) == cast(source[from])
  {
    var n := Rank(index, plan.common);
    RankInvertsRowMajor(plan.common, index);
    LinearIsPosition(index, plan.targetDims, plan.targetStrides);
    LinearIsPosition(index, SourceIndexDims(plan.common, plan.sourceDims, plan.storage), plan.sourceStrides);
    DistinctPositionsAreInjective(plan);
    AccessesInBounds(plan, n);
    ScatterIsCorrect(plan, source, cast, initial, n, TargetOf(plan, n));
  }

  /** A cell that is no logical index's target position keeps its initial value. */
  lemma OtherCellsStay<T, U>(plan: Plan, source: seq<T>, cast: T -> U, initial: seq<U>, cell: nat)
    requires ValidPlan(plan) && |source| == SourceBuffer(plan) && cell < |initial| == TargetBuffer(plan)
    requires forall index :: InBox(index, plan.common) ==> Position(index, plan.targetDims, plan.targetStrides) != cell
    ensures CellAfter(plan, source, cast, initial[cell], cell, LogicalCount(plan)) == initial[cell]
  {
    forall n | 0 <= n < LogicalCount(plan) ensures TargetOf(plan, n) != cell {
      RowMajorInBox(plan.common, n);
      LinearIsPosition(RowMajor(plan.common, n), plan.targetDims, plan.targetStrides);
    }
    UntouchedCell(plan, source, cast, initial[cell], cell, 0, LogicalCount(plan));
  }

  /** Whatever the target, a cell holds the last logical element in row-major order that goes there. */
  lemma LastElementWins<T, U>(plan: Plan, source: seq<T>, cast: T -> U, initial: U, index: seq<int>)
    requires ValidPlan(plan) && |source| == SourceBuffer(plan) && InBox(index, plan.common)
    requires forall later :: InBox(later, plan.common) && Rank(later, plan.common) > Rank(index, plan.common) ==>
      Position(later, plan.targetDims, plan.targetStrides) != Position(index, plan.targetDims, plan.targetStrides)
    ensures var from := Position(index, if plan.storage then plan.common else plan.sourceDims, plan.sourceStrides);
      && 0 <= from < |source|
      && CellAfter(plan, source, cast, initial, Position(index, plan.targetDims, plan.targetStrides),
        LogicalCount(plan))
         == cast(source[from])
  {
    var n, cell := Rank(index, plan.common), Position(index, plan.targetDims, plan.targetStrides);
    RankInvertsRowMajor(plan.common, index);
    LinearIsPosition(index, plan.targetDims, plan.targetStrides);
    LinearIsPosition(index, SourceIndexDims(plan.common, plan.sourceDims, plan.storage), plan.sourceStrides);
    AccessesInBounds(plan, n);
    forall m | n + 1 <= m < LogicalCount(plan) ensures TargetOf(plan, m) != cell {
      RowMajorInBox(plan.common, m);
      LinearIsPosition(RowMajor(plan.common, m), plan.targetDims, plan.targetStrides);
    }
    UntouchedCell(plan, source, cast, initial, cell, n + 1, LogicalCount(plan));
  }
}
