// The column pairs the RoPE oracle reads and writes, for the normal and the NeoX layout.
module Rope {
  // idx0 and idx1 of the oracle for one pair.
  function First(neox: bool, dims: nat, pair: nat): int {
    var half := dims / 2;
    if !neox then 2 * pair
    else if pair < half then pair
    else dims + (pair - half) * 2
  }

  function Second(neox: bool, dims: nat, pair: nat): int {
    var half := dims / 2;
    if !neox then 2 * pair + 1
    else if pair < half then pair + half
    else First(neox, dims, pair) + 1
  }

  // Entry 2 * pair + side of the list of columns the oracle writes: first all idx0, then all idx1.
  datatype Write = Write(pair: nat, second: bool)

  function ColumnOf(neox: bool, dims: nat, write: Write): int {
    if write.second then Second(neox, dims, write.pair) else First(neox, dims, write.pair)
  }

  // Every column of the row is written exactly once.
  ghost predicate Partitions(neox: bool, dims: nat, columns: nat) {
    && (forall w: Write :: w.pair < columns / 2 ==> 0 <= ColumnOf(neox, dims, w) < columns)
    && (forall v: Write, w: Write ::
      v.pair < columns / 2 && w.pair < columns / 2 && ColumnOf(neox, dims, v) == ColumnOf(neox, dims, w) ==> v == w)
    && (forall c :: 0 <= c < columns ==> IsWritten(neox, dims, columns, c))
  }

  ghost predicate IsWritten(neox: bool, dims: nat, columns: nat, c: int) {
    exists w: Write :: w.pair < columns / 2 && ColumnOf(neox, dims, w) == c
  }

  // The write that reaches a column.
  function WriteFor(neox: bool, dims: nat, c: nat): Write {
    var half := dims / 2;
    if !neox then Write(c / 2, c % 2 == 1)
    else if c < half then Write(c, false)
    else if c < 2 * half then Write(c - half, true)
    else Write(half + (c - 2 * half) / 2, (c - 2 * half) % 2 == 1)
  }

  // The rotated part pairs columns up, and a tail, if there is one, starts right after it.
  predicate Pairable(neox: bool, dims: nat, columns: nat) {
    columns % 2 == 0 && (neox && columns > 0 ==> dims / 2 == columns / 2 || (dims % 2 == 0 && dims < columns))
  }

  lemma PairableIsEnough(neox: bool, dims: nat, columns: nat)
    requires Pairable(neox, dims, columns)
    ensures Partitions(neox, dims, columns)
  {
    forall w: Write | w.pair < columns / 2
      ensures 0 <= ColumnOf(neox, dims, w) < columns
      ensures WriteFor(neox, dims, ColumnOf(neox, dims, w)) == w
    {
    }
    forall c | 0 <= c < columns ensures IsWritten(neox, dims, columns, c) {
      var w := WriteFor(neox, dims, c);
      assert w.pair < columns / 2 && ColumnOf(neox, dims, w) == c;
    }
  }

  lemma OddColumnsAreNotCovered(neox: bool, dims: nat, columns: nat)
    requires columns % 2 == 1
    ensures !Partitions(neox, dims, columns)
  {
    var half, pairs := dims / 2, columns / 2;
    var missed :=
      if neox && half > pairs then pairs
      else if neox && dims % 2 == 1 && half < pairs then 2 * half
      else columns - 1;
    assert forall w: Write :: w.pair < pairs ==> ColumnOf(neox, dims, w) != missed;
    assert !IsWritten(neox, dims, columns, missed);
  }

  lemma NeoxNeedsPairable(dims: nat, columns: nat)
    requires columns % 2 == 0 && columns > 0 && Partitions(true, dims, columns)
    ensures Pairable(true, dims, columns)
  {
    assert 0 <= ColumnOf(true, dims, Write(columns / 2 - 1, true)) < columns;
  }

  /** Each layout writes every column of the row exactly once precisely when the row has an even number of
      columns and, for NeoX, the rotated dimensions are even and fit the row or their half already
      is half the row. */
  lemma ColumnsPartitionedIff(neox: bool, dims: nat, columns: nat)
    ensures Partitions(neox, dims, columns) <==> Pairable(neox, dims, columns)
  {
    if Pairable(neox, dims, columns) {
      PairableIsEnough(neox, dims, columns);
    } else if columns % 2 == 1 {
      OddColumnsAreNotCovered(neox, dims, columns);
    } else if Partitions(neox, dims, columns) {
      NeoxNeedsPairable(dims, columns);
    }
  }

  //////////////////////////////////////////////////////////////////////////////
  // One row
  //////////////////////////////////////////////////////////////////////////////

  // What happens to the values of a pair; the trigonometry is opaque.
  datatype Rotation<!T> = Rotation(first: (nat, T, T) -> T, second: (nat, T, T) -> T, tail: T -> T)

  // numpy raises unless every pair lies in the row.
  predicate PairsInRow(neox: bool, dims: nat, columns: nat) {
    forall pair :: 0 <= pair < columns / 2 ==> First(neox, dims, pair) < columns && Second(neox, dims, pair) < columns
  }

  lemma ColumnsAreNatural(neox: bool, dims: nat, pair: nat)
    ensures First(neox, dims, pair) >= 0 && Second(neox, dims, pair) >= 0
  {
  }

  // The value of a write: rotated for the first dims / 2 pairs, carried over for the tail.
  function Output<T>(neox: bool, dims: nat, source: seq<T>, rotation: Rotation<T>, write: Write): T
    requires PairsInRow(neox, dims, |source|) && write.pair < |source| / 2
  {
    ColumnsAreNatural(neox, dims, write.pair);
    var x0, x1 := source[First(neox, dims, write.pair)], source[Second(neox, dims, write.pair)];
    if write.pair >= dims / 2 then rotation.tail(if write.second then x1 else x0)
    else if write.second then rotation.second(write.pair, x0, x1)
    else rotation.first(write.pair, x0, x1)
  }

  // The n-th element written: all first columns of the pairs, then all second ones.
  function WriteNumber(columns: nat, n: nat): Write {
    if n < columns / 2 then Write(n, false) else Write(n - columns / 2, true)
  }

  // After `n` writes a column holds the last value that went there, or its initial one.
  function ColumnAfter<T>(neox: bool, dims: nat, source: seq<T>, rotation: Rotation<T>, initial: T, c: int, n: nat): T
    requires PairsInRow(neox, dims, |source|) && n <= |source| / 2 * 2
  {
    if n == 0 then initial
    else
      var write := WriteNumber(|source|, n - 1);
      if ColumnOf(neox, dims, write) == c then Output(neox, dims, source, rotation, write)
      else ColumnAfter(neox, dims, source, rotation, initial, c, n - 1)
  }

  lemma OneMoreWrite<T>(neox: bool, dims: nat, source: seq<T>, rotation: Rotation<T>, initial: T, c: int, n: nat)
    requires PairsInRow(neox, dims, |source|) && n < |source| / 2 * 2
    ensures var write := WriteNumber(|source|, n);
      ColumnAfter(neox, dims, source, rotation, initial, c, n + 1)
      == if ColumnOf(neox, dims, write) == c then Output(neox, dims, source, rotation, write)
         else ColumnAfter(neox, dims, source, rotation, initial, c, n)
  {
  }

  ghost predicate RowAfter<T>(row: array<T>, initial: seq<T>, neox: bool, dims: nat, source: seq<T>,
      rotation: Rotation<T>, n: nat)
    requires PairsInRow(neox, dims, |source|) && n <= |source| / 2 * 2
    reads row
  {
    && row.Length == |initial| == |source|
    && forall c :: 0 <= c < |source| ==> row[c] == ColumnAfter(neox, dims, source, rotation, initial[c], c, n)
  }

  // dst_view[:, :, idx] = out for one side of all pairs.
  method WriteSide<T>(row: array<T>, ghost initial: seq<T>, neox: bool, dims: nat, source: seq<T>,
      rotation: Rotation<T>, second: bool)
    requires PairsInRow(neox, dims, |source|)
    requires RowAfter(row, initial, neox, dims, source, rotation, if second then |source| / 2 else 0)
    modifies row
    ensures RowAfter(row, initial, neox, dims, source, rotation, if second then |source| / 2 * 2 else |source| / 2)
  {
    for pair := 0 to |source| / 2
      invariant RowAfter(row, initial, neox, dims, source, rotation, if second then |source| / 2 + pair else pair)
    {
      var write := Write(pair, second);
      ghost var n := if second then |source| / 2 + pair else pair;
      assert WriteNumber(|source|, n) == write;
      ColumnsAreNatural(neox, dims, pair);
      row[ColumnOf(neox, dims, write)] := Output(neox, dims, source, rotation, write);
      forall c | 0 <= c < |source|
        ensures row[c] == ColumnAfter(neox, dims, source, rotation, initial[c], c, n + 1)
      {
        OneMoreWrite(neox, dims, source, rotation, initial[c], c, n);
      }
    }
  }

  // One row of the oracle: it raises before writing unless all pairs lie in the row, and otherwise writes
  // all first and then all second columns, later writes winning.
  method RotateRow<T>(neox: bool, dims: nat, source: seq<T>, rotation: Rotation<T>, row: array<T>) returns (ok: bool)
    requires row.Length == |source|
    modifies row
    ensures ok <==> PairsInRow(neox, dims, |source|)
    ensures ok ==> RowAfter(row, old(row[..]), neox, dims, source, rotation, |source| / 2 * 2)
    ensures !ok ==> row[..] == old(row[..])
  {
    for pair := 0 to |source| / 2
      invariant forall p :: 0 <= p < pair ==> First(neox, dims, p) < |source| && Second(neox, dims, p) < |source|
      invariant row[..] == old(row[..])
    {
      if First(neox, dims, pair) >= |source| || Second(neox, dims, pair) >= |source| {
        return false;
      }
    }
    ghost var initial := row[..];
    WriteSide(row, initial, neox, dims, source, rotation, false);
    WriteSide(row, initial, neox, dims, source, rotation, true);
    ok := true;
  }

  lemma {:induction false} OnlyWriteCounts<T>(neox: bool, dims: nat, source: seq<T>, rotation: Rotation<T>, initial: T,
      write: Write, k: nat, n: nat)
    requires Pairable(neox, dims, |source|) && PairsInRow(neox, dims, |source|) && n <= |source| / 2 * 2
    requires write.pair < |source| / 2 && k < n && WriteNumber(|source|, k) == write
    ensures ColumnAfter(neox, dims, source, rotation, initial, ColumnOf(neox, dims, write), n)
         == Output(neox, dims, source, rotation, write)
  {
    var last := WriteNumber(|source|, n - 1);
    OneMoreWrite(neox, dims, source, rotation, initial, ColumnOf(neox, dims, write), n - 1);
    if last != write {
      ColumnsDiffer(neox, dims, |source|, last, write);
      OnlyWriteCounts(neox, dims, source, rotation, initial, write, k, n - 1);
    }
  }

  lemma ColumnsDiffer(neox: bool, dims: nat, columns: nat, v: Write, w: Write)
    requires Pairable(neox, dims, columns) && v.pair < columns / 2 && w.pair < columns / 2 && v != w
    ensures ColumnOf(neox, dims, v) != ColumnOf(neox, dims, w)
  {
    PairableIsEnough(neox, dims, columns);
  }

  /** On a row the pairs partition every column ends up with the output of the one pair and side it
      belongs to. */
  lemma EveryColumnGetsItsOutput<T>(neox: bool, dims: nat, source: seq<T>, rotation: Rotation<T>, initial: T, c: nat)
    requires Pairable(neox, dims, |source|) && c < |source|
    ensures PairsInRow(neox, dims, |source|)
    ensures var write := WriteFor(neox, dims, c);
      && write.pair < |source| / 2 && ColumnOf(neox, dims, write) == c
      && ColumnAfter(neox, dims, source, rotation, initial, c, |source| / 2 * 2)
         == Output(neox, dims, source, rotation, write)
  {
    var write := WriteFor(neox, dims, c);
    var n := if write.second then |source| / 2 + write.pair else write.pair;
    assert WriteNumber(|source|, n) == write;
    OnlyWriteCounts(neox, dims, source, rotation, initial, write, n, |source| / 2 * 2);
  }

  // A rotated pair: both columns hold the rotation of the source's values in the two.
  ghost predicate Rotated<T>(row: seq<T>, source: seq<T>, rotation: Rotation<T>, pair: nat, first: nat, second: nat)
    requires |row| == |source|
  {
    && first < |source| && second < |source|
    && row[first] == rotation.first(pair, source[first], source[second])
    && row[second] == rotation.second(pair, source[first], source[second])
  }

  // The columns of pair p: 2 * p and 2 * p + 1, or in the NeoX layout p and p + dims / 2.
  ghost predicate PairIsRotated<T>(row: seq<T>, source: seq<T>, rotation: Rotation<T>, neox: bool, dims: nat, p: nat)
    requires |row| == |source|
  {
    if neox then Rotated(row, source, rotation, p, p, p + dims / 2)
    else Rotated(row, source, rotation, p, 2 * p, 2 * p + 1)
  }

  // What a partitioned row is to hold, column by column.
  ghost predicate RotatedRow<T>(row: seq<T>, source: seq<T>, rotation: Rotation<T>, neox: bool, dims: nat)
    requires |row| == |source|
  {
    && (forall p: nat :: p < dims / 2 && p < |source| / 2 ==> PairIsRotated(row, source, rotation, neox, dims, p))
    && forall c :: dims / 2 * 2 <= c < |source| ==> row[c] == rotation.tail(source[c])
  }

  lemma PairRotates<T>(row: seq<T>, initial: seq<T>, neox: bool, dims: nat, source: seq<T>,
      rotation: Rotation<T>, p: nat)
    requires Pairable(neox, dims, |source|) && PairsInRow(neox, dims, |source|) && |row| == |initial| == |source|
    requires forall c :: 0 <= c < |source| ==>
      row[c] == ColumnAfter(neox, dims, source, rotation, initial[c], c, |source| / 2 * 2)
    requires p < dims / 2 && p < |source| / 2
    ensures PairIsRotated(row, source, rotation, neox, dims, p)
  {
    var a, b := if neox then p else 2 * p, if neox then p + dims / 2 else 2 * p + 1;
    assert First(neox, dims, p) == a && Second(neox, dims, p) == b;
    EveryColumnGetsItsOutput(neox, dims, source, rotation, initial[a], a);
    EveryColumnGetsItsOutput(neox, dims, source, rotation, initial[b], b);
    assert WriteFor(neox, dims, a) == Write(p, false) && WriteFor(neox, dims, b) == Write(p, true);
  }

  lemma TailIsCarriedOver<T>(row: seq<T>, initial: seq<T>, neox: bool, dims: nat, source: seq<T>,
      rotation: Rotation<T>, c: nat)
    requires Pairable(neox, dims, |source|) && PairsInRow(neox, dims, |source|) && |row| == |initial| == |source|
    requires forall c :: 0 <= c < |source| ==>
      row[c] == ColumnAfter(neox, dims, source, rotation, initial[c], c, |source| / 2 * 2)
    requires dims / 2 * 2 <= c < |source|
    ensures row[c] == rotation.tail(source[c])
  {
    EveryColumnGetsItsOutput(neox, dims, source, rotation, initial[c], c);
    var write := WriteFor(neox, dims, c);
    assert write.pair >= dims / 2;
  }

  /** A row that RotateRow has written and its pairs partition: in the normal layout columns 2 * p and 2
      * p + 1, in the NeoX layout columns p and p + dims / 2 hold the two rotations of their values, and
      all further columns are carried over. */
  lemma PartitionedRowIsRotated<T>(row: array<T>, initial: seq<T>, neox: bool, dims: nat, source: seq<T>,
      rotation: Rotation<T>)
    requires Pairable(neox, dims, |source|) && PairsInRow(neox, dims, |source|)
    requires RowAfter(row, initial, neox, dims, source, rotation, |source| / 2 * 2)
    ensures RotatedRow(row[..], source, rotation, neox, dims)
  {
    forall p: nat | p < dims / 2 && p < |source| / 2
      ensures PairIsRotated(row[..], source, rotation, neox, dims, p)
    {
      PairRotates(row[..], initial, neox, dims, source, rotation, p);
    }
    forall c | dims / 2 * 2 <= c < |source| ensures row[c] == rotation.tail(source[c]) {
      TailIsCarriedOver(row[..], initial, neox, dims, source, rotation, c);
    }
  }

  lemma PairableRowsFit(neox: bool, dims: nat, columns: nat)
    requires Pairable(neox, dims, columns)
    ensures PairsInRow(neox, dims, columns)
  {
  }

  // RotateRow on a row the pairs partition.
  method RotatePartitionedRow<T>(neox: bool, dims: nat, source: seq<T>, rotation: Rotation<T>, row: array<T>)
    requires Pairable(neox, dims, |source|) && row.Length == |source|
    modifies row
    ensures RotatedRow(row[..], source, rotation, neox, dims)
  {
    ghost var initial := row[..];
    PairableRowsFit(neox, dims, |source|);
    var ok := RotateRow(neox, dims, source, rotation, row);
    PartitionedRowIsRotated(row, initial, neox, dims, source, rotation);
  }
}
