// _total_size_workgroup_count: folding a flat grid into two dimensions.
module Dispatch {
  import opened Wrappers
  import opened Int64

  // Python's (lhs + rhs - 1) // rhs for a positive divisor.
  function CeilDiv(lhs: int, rhs: int): int
    requires rhs > 0
  {
    (lhs + rhs - 1) / rhs
  }

  lemma CeilDivBounds(a: int, b: int)
    requires b > 0
    ensures a <= CeilDiv(a, b) * b < a + b
  {
    var n := a + b - 1;
    assert n == b * (n / b) + n % b;
  }

  // The least multiple count that covers: b * k >= a exactly from CeilDiv(a, b) on.
  lemma CeilDivIsLeast(a: int, b: int, k: int)
    requires b > 0
    ensures k * b >= a <==> k >= CeilDiv(a, b)
  {
    CeilDivBounds(a, b);
    if k >= CeilDiv(a, b) { MulMono(b, CeilDiv(a, b), k); } else { MulMono(b, k + 1, CeilDiv(a, b)); }
  }

  // The folded grid; a cap that is absent or not positive leaves the grid flat.
  function WorkgroupCount(totalSize: int, laneCount: int, maxX: Option<int>): (int, int, int)
    requires laneCount > 0
  {
    var flat := CeilDiv(totalSize, laneCount);
    if maxX.Some? && maxX.value > 0 && flat > maxX.value then
      CeilDivIsLeast(flat, maxX.value, 0);
      var y := CeilDiv(flat, maxX.value);
      (CeilDiv(flat, y), y, 1)
    else (flat, 1, 1)
  }

  predicate Covers(x: int, y: int, laneCount: int, totalSize: int) {
    x * y * laneCount >= totalSize
  }

  lemma CoversIffFlat(x: int, y: int, laneCount: int, totalSize: int)
    requires laneCount > 0
    ensures Covers(x, y, laneCount, totalSize) <==> x * y >= CeilDiv(totalSize, laneCount)
  {
    CeilDivIsLeast(totalSize, laneCount, x * y);
  }

  lemma ProductsInCap(x: int, y: nat, cap: int)
    requires 0 <= x <= cap
    ensures x * y <= cap * y
  {
    MulMono(y, x, cap);
  }

  /** Grid folding covers the work within the cap: x * y * lanes covers the total, x stays within the cap,
      no grid within the cap with fewer rows covers the total, and fewer than y of the
      workgroups are surplus. */
  lemma FoldingIsTight(totalSize: nat, laneCount: int, cap: int)
    requires laneCount > 0 && cap > 0
    ensures var (x, y, z) := WorkgroupCount(totalSize, laneCount, Some(cap));
      && z == 1 && y >= 1 && 0 <= x <= cap
      && Covers(x, y, laneCount, totalSize)
      && (forall x', y' :: 0 <= x' <= cap && 1 <= y' < y ==> !Covers(x', y', laneCount, totalSize))
      && 0 <= x * y - CeilDiv(totalSize, laneCount) < y
  {
    var flat := CeilDiv(totalSize, laneCount);
    CeilDivBounds(totalSize, laneCount);
    CeilDivIsLeast(totalSize, laneCount, -1);
    var (x, y, z) := WorkgroupCount(totalSize, laneCount, Some(cap));
    CoversIffFlat(x, y, laneCount, totalSize);
    if flat > cap {
      CeilDivIsLeast(flat, cap, 0);
      CeilDivBounds(flat, cap);
      CeilDivBounds(flat, y);
      assert cap * y == y * cap;
      CeilDivIsLeast(flat, y, cap);
      CeilDivIsLeast(flat, y, 0);
      forall x', y' | 0 <= x' <= cap && 1 <= y' < y ensures !Covers(x', y', laneCount, totalSize) {
        CoversIffFlat(x', y', laneCount, totalSize);
        CeilDivIsLeast(flat, cap, y');
        ProductsInCap(x', y', cap);
      }
    }
  }

  /** Without a cap, or with one that is not positive, the grid stays flat: one row and one layer of the
      least number of workgroups that cover the total. */
  lemma UncappedGridIsFlat(totalSize: nat, laneCount: int, maxX: Option<int>)
    requires laneCount > 0 && (maxX.Some? ==> maxX.value <= 0)
    ensures var (x, y, z) := WorkgroupCount(totalSize, laneCount, maxX);
      && y == 1 && z == 1 && x >= 0
      && x * laneCount >= totalSize
      && forall fewer :: 0 <= fewer < x ==> fewer * laneCount < totalSize
  {
    var (x, y, z) := WorkgroupCount(totalSize, laneCount, maxX);
    CeilDivIsLeast(totalSize, laneCount, x);
    CeilDivIsLeast(totalSize, laneCount, -1);
    forall fewer | 0 <= fewer < x ensures fewer * laneCount < totalSize {
      CeilDivIsLeast(totalSize, laneCount, fewer);
    }
  }
}
