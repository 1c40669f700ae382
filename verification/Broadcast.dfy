// Batch broadcasting in the matmul oracle: destination slice (i2, i3) reads source slice
// (i2 / scale2, i3 / scale3), where a scale is destination extent / source extent.
module Broadcast {
  import opened Wrappers
  import opened Int64
  import RouteModel

  // One lookup along an axis. Python raises on a zero scale and on a missing slice.
  predicate HitsSlice(source: nat, target: nat, i: nat)
    requires source > 0
  {
    target / source > 0 && i / (target / source) < source
  }

  ghost predicate EveryLookupHits(source: nat, target: nat)
    requires source > 0
  {
    forall i: nat :: i < target ==> HitsSlice(source, target, i)
  }

  lemma QuotientBelow(i: nat, scale: nat, limit: nat)
    requires scale > 0
    ensures i / scale < limit <==> i < limit * scale
  {
    var q := i / scale;
    assert i == q * scale + i % scale;
    if q < limit { MulMono(scale, q + 1, limit); } else { MulMono(scale, limit, q); }
  }

  /** The lookups along an axis all hit an existing slice exactly when the source extent divides the
      destination extent. */
  lemma LookupsHitIffDivides(source: nat, target: nat)
    requires source > 0 && target > 0
    ensures EveryLookupHits(source, target) <==> target % source == 0
  {
    var scale := target / source;
    assert target == scale * source + target % source;
    if target % source == 0 {
      assert scale > 0;
      forall i: nat | i < target ensures HitsSlice(source, target, i) {
        assert source * scale == target;
        QuotientBelow(i, scale, source);
      }
    } else if EveryLookupHits(source, target) {
      assert HitsSlice(source, target, target - 1);
      QuotientBelow(target - 1, scale, source);
      assert false;
    }
  }

  // The number of i below n that read slice a.
  function Uses(scale: nat, a: nat, n: nat): nat
    requires scale > 0
  {
    if n == 0 then 0 else Uses(scale, a, n - 1) + if (n - 1) / scale == a then 1 else 0
  }

  lemma SliceHolds(i: nat, scale: nat, a: nat)
    requires scale > 0
    ensures i / scale == a <==> a * scale <= i < a * scale + scale
  {
    QuotientBelow(i, scale, a);
    QuotientBelow(i, scale, a + 1);
    assert (a + 1) * scale == a * scale + scale;
  }

  lemma {:induction false} UsesCounted(scale: nat, a: nat, n: nat)
    requires scale > 0
    ensures Uses(scale, a, n) == if n <= a * scale then 0 else if n <= a * scale + scale then n - a * scale else scale
  {
    if n > 0 {
      UsesCounted(scale, a, n - 1);
      SliceHolds(n - 1, scale, a);
    }
  }

  lemma EachSliceUsedScaleTimes(source: nat, target: nat, a: nat)
    requires source > 0 && target > 0 && target % source == 0 && a < source
    ensures target / source > 0 && Uses(target / source, a, target) == target / source
  {
    var scale := target / source;
    assert target == scale * source;
    assert scale > 0;
    UsesCounted(scale, a, target);
    assert a * scale + scale <= source * scale by {
      MulMono(scale, a + 1, source);
      assert (a + 1) * scale == a * scale + scale;
    }
  }

  // How often each source slice is read; None when a lookup raises.
  type UseCounts = map<(nat, nat), nat>

  predicate Initial(uses: UseCounts, s2: nat, s3: nat) {
    forall a: nat, b: nat :: a < s2 && b < s3 ==> (a, b) in uses && uses[(a, b)] == 0
  }

  // uses[a, b] after i3 full rows and i2 entries of the next one.
  ghost predicate Counted(uses: UseCounts, s2: nat, s3: nat, scale2: nat, scale3: nat, d2: nat, i2: nat, i3: nat)
    requires scale2 > 0 && scale3 > 0
  {
    forall a: nat, b: nat :: a < s2 && b < s3 ==>
      (a, b) in uses && uses[(a, b)] == Uses(scale3, b, i3) * Uses(scale2, a, d2)
                                       + (if i3 / scale3 == b then Uses(scale2, a, i2) else 0)
  }

  method LoadSlices(s2: nat, s3: nat) returns (uses: UseCounts)
    ensures forall a: nat, b: nat :: (a, b) in uses <==> a < s2 && b < s3
    ensures Initial(uses, s2, s3)
  {
    uses := map[];
    for i03 := 0 to s3
      invariant forall a: nat, b: nat :: (a, b) in uses <==> a < s2 && b < i03
      invariant forall key :: key in uses ==> uses[key] == 0
    {
      for i02 := 0 to s2
        invariant forall a: nat, b: nat :: (a, b) in uses <==> a < s2 && (b < i03 || (b == i03 && a < i02))
        invariant forall key :: key in uses ==> uses[key] == 0
      {
        uses := uses[(i02, i03) := 0];
      }
    }
  }

  ghost predicate HoldsAllSlices(uses: UseCounts, s2: nat, s3: nat) {
    forall a: nat, b: nat :: (a, b) in uses <==> a < s2 && b < s3
  }

  // The source slice each destination slice reads.
  type Reads = map<(nat, nat), (nat, nat)>

  // The destination slices before i3, and those of row i3 before i2, read their slices.
  ghost predicate ReadUpTo(picked: Reads, scale2: nat, scale3: nat, d2: nat, i2: nat, i3: nat)
    requires scale2 > 0 && scale3 > 0
  {
    && (forall t2: nat, t3: nat :: (t2, t3) in picked <==> t2 < d2 && (t3 < i3 || (t3 == i3 && t2 < i2)))
    && (forall t2: nat, t3: nat :: (t2, t3) in picked ==> picked[(t2, t3)] == (t2 / scale2, t3 / scale3))
  }

  // Slice a of an axis is read by the run of `scale` destination slices from a * scale on.
  predicate InSlice(t: nat, a: nat, scale: nat) {
    a * scale <= t < a * scale + scale
  }

  lemma OneMoreRead(picked: Reads, scale2: nat, scale3: nat, d2: nat, i2: nat, i3: nat)
    requires scale2 > 0 && scale3 > 0 && i2 < d2 && ReadUpTo(picked, scale2, scale3, d2, i2, i3)
    ensures ReadUpTo(picked[(i2, i3) := (i2 / scale2, i3 / scale3)], scale2, scale3, d2, i2 + 1, i3)
  {
  }

  lemma OneMoreUse(uses: UseCounts, s2: nat, s3: nat, scale2: nat, scale3: nat, d2: nat, i2: nat, i3: nat)
    requires scale2 > 0 && scale3 > 0 && HoldsAllSlices(uses, s2, s3)
    requires Counted(uses, s2, s3, scale2, scale3, d2, i2, i3) && (i2 / scale2, i3 / scale3) in uses
    ensures var key := (i2 / scale2, i3 / scale3);
      && HoldsAllSlices(uses[key := uses[key] + 1], s2, s3)
      && Counted(uses[key := uses[key] + 1], s2, s3, scale2, scale3, d2, i2 + 1, i3)
  {
  }

  // What every destination slice reads: the source slice whose run of scale2 * scale3 slices it lies in.
  ghost predicate ReadsItsSlice(picked: Reads, s2: nat, s3: nat, d2: nat, d3: nat) {
    && s2 > 0 && s3 > 0
    && (forall t2: nat, t3: nat :: (t2, t3) in picked <==> t2 < d2 && t3 < d3)
    && (forall t2: nat, t3: nat :: (t2, t3) in picked ==>
         InSlice(t2, picked[(t2, t3)].0, d2 / s2) && InSlice(t3, picked[(t2, t3)].1, d3 / s3))
  }

  lemma RowRead(picked: Reads, scale2: nat, scale3: nat, d2: nat, i3: nat)
    requires scale2 > 0 && scale3 > 0 && ReadUpTo(picked, scale2, scale3, d2, d2, i3)
    ensures ReadUpTo(picked, scale2, scale3, d2, 0, i3 + 1)
  {
  }

  lemma AllReadTheirSlices(picked: Reads, s2: nat, s3: nat, d2: nat, d3: nat)
    requires s2 > 0 && s3 > 0 && d2 / s2 > 0 && d3 / s3 > 0 && ReadUpTo(picked, d2 / s2, d3 / s3, d2, 0, d3)
    ensures ReadsItsSlice(picked, s2, s3, d2, d3)
  {
    var scale2, scale3 := d2 / s2, d3 / s3;
    forall t2: nat, t3: nat | (t2, t3) in picked
      ensures InSlice(t2, picked[(t2, t3)].0, scale2) && InSlice(t3, picked[(t2, t3)].1, scale3)
    {
      SliceHolds(t2, scale2, t2 / scale2);
      SliceHolds(t3, scale3, t3 / scale3);
    }
  }

  lemma CountsAreBalanced(counts: UseCounts, s2: nat, s3: nat, d2: nat, d3: nat)
    requires s2 > 0 && s3 > 0 && d2 > 0 && d3 > 0 && d2 / s2 > 0 && d3 / s3 > 0
    requires EveryLookupHits(s2, d2) && EveryLookupHits(s3, d3)
    requires HoldsAllSlices(counts, s2, s3) && Counted(counts, s2, s3, d2 / s2, d3 / s3, d2, 0, d3)
    ensures forall a: nat, b: nat :: a < s2 && b < s3 ==>
      (a, b) in counts && counts[(a, b)] == (d2 / s2) * (d3 / s3)
  {
    LookupsHitIffDivides(s2, d2);
    LookupsHitIffDivides(s3, d3);
    forall a: nat, b: nat | a < s2 && b < s3
      ensures (a, b) in counts && counts[(a, b)] == (d2 / s2) * (d3 / s3)
    {
      EachSliceUsedScaleTimes(s2, d2, a);
      EachSliceUsedScaleTimes(s3, d3, b);
      assert Uses(d2 / s2, a, 0) == 0;
    }
  }

  predicate Within(i: nat, scale: nat, limit: nat)
    requires scale > 0
  {
    i / scale < limit
  }

  // How far the loops have come.
  ghost predicate Progress(uses: UseCounts, picked: Reads, s2: nat, s3: nat, scale2: nat, scale3: nat, d2: nat, i2: nat,
      i3: nat)
    requires scale2 > 0 && scale3 > 0
  {
    && HoldsAllSlices(uses, s2, s3)
    && Counted(uses, s2, s3, scale2, scale3, d2, i2, i3)
    && ReadUpTo(picked, scale2, scale3, d2, i2, i3)
  }

  lemma OneMoreSlice(uses: UseCounts, picked: Reads, s2: nat, s3: nat, scale2: nat, scale3: nat, d2: nat, i2: nat,
      i3: nat)
    requires scale2 > 0 && scale3 > 0 && i2 < d2 && Progress(uses, picked, s2, s3, scale2, scale3, d2, i2, i3)
    ensures (i2 / scale2, i3 / scale3) in uses <==> Within(i2, scale2, s2) && Within(i3, scale3, s3)
    ensures var key: (nat, nat) := (i2 / scale2, i3 / scale3);
      key in uses ==>
        Progress(uses[key := uses[key] + 1], picked[(i2, i3) := key], s2, s3, scale2, scale3, d2, i2 + 1, i3)
  {
    if (i2 / scale2, i3 / scale3) in uses {
      OneMoreUse(uses, s2, s3, scale2, scale3, d2, i2, i3);
      OneMoreRead(picked, scale2, scale3, d2, i2, i3);
    }
  }

  lemma NextRow(uses: UseCounts, picked: Reads, s2: nat, s3: nat, scale2: nat, scale3: nat, d2: nat, i3: nat)
    requires scale2 > 0 && scale3 > 0 && Progress(uses, picked, s2, s3, scale2, scale3, d2, d2, i3)
    ensures Progress(uses, picked, s2, s3, scale2, scale3, d2, 0, i3 + 1)
  {
    RowDone(uses, s2, s3, scale2, scale3, d2, i3);
    RowRead(picked, scale2, scale3, d2, i3);
  }

  // One destination slice.
  method ReadSlice(s2: nat, s3: nat, scale2: nat, scale3: nat, d2: nat, i2: nat, i3: nat, before: UseCounts,
      readBefore: Reads) returns (ok: bool, uses: UseCounts, picked: Reads)
    requires scale2 > 0 && scale3 > 0 && i2 < d2
    requires Progress(before, readBefore, s2, s3, scale2, scale3, d2, i2, i3)
    ensures ok <==> Within(i2, scale2, s2) && Within(i3, scale3, s3)
    ensures ok ==> Progress(uses, picked, s2, s3, scale2, scale3, d2, i2 + 1, i3)
  {
    OneMoreSlice(before, readBefore, s2, s3, scale2, scale3, d2, i2, i3);
    var key: (nat, nat) := (i2 / scale2, i3 / scale3);
    ok, uses, picked := key in before, before, readBefore;
    if ok {
      uses, picked := before[key := before[key] + 1], readBefore[(i2, i3) := key];
    }
  }

  // The inner loop: one row of destination slices. A missing source slice raises.
  method ReadRow(s2: nat, s3: nat, scale2: nat, scale3: nat, d2: nat, i3: nat, before: UseCounts, readBefore: Reads)
    returns (ok: bool, uses: UseCounts, picked: Reads)
    requires scale2 > 0 && scale3 > 0 && d2 > 0
    requires Progress(before, readBefore, s2, s3, scale2, scale3, d2, 0, i3)
    ensures ok <==> (forall i: nat :: i < d2 ==> Within(i, scale2, s2)) && Within(i3, scale3, s3)
    ensures ok ==> Progress(uses, picked, s2, s3, scale2, scale3, d2, 0, i3 + 1)
  {
    ok, uses, picked := true, before, readBefore;
    for i2 := 0 to d2
      invariant ok && Progress(uses, picked, s2, s3, scale2, scale3, d2, i2, i3)
      invariant forall i: nat :: i < i2 ==> Within(i, scale2, s2)
      invariant i2 > 0 ==> Within(i3, scale3, s3)
    {
      ok, uses, picked := ReadSlice(s2, s3, scale2, scale3, d2, i2, i3, uses, picked);
      if !ok {
        return;
      }
    }
    NextRow(uses, picked, s2, s3, scale2, scale3, d2, i3);
  }

  // All rows, for positive scales.
  method ReadRows(s2: nat, s3: nat, scale2: nat, scale3: nat, d2: nat, d3: nat)
    returns (ok: bool, uses: UseCounts, picked: Reads)
    requires scale2 > 0 && scale3 > 0 && d2 > 0 && d3 > 0
    ensures ok <==>
      (forall i: nat :: i < d2 ==> Within(i, scale2, s2)) && (forall i: nat :: i < d3 ==> Within(i, scale3, s3))
    ensures ok ==> Progress(uses, picked, s2, s3, scale2, scale3, d2, 0, d3)
  {
    ok, picked := true, map[];
    uses := LoadSlices(s2, s3);
    for i3 := 0 to d3
      invariant ok && Progress(uses, picked, s2, s3, scale2, scale3, d2, 0, i3)
      invariant forall i: nat :: i < i3 ==> Within(i, scale3, s3)
      invariant i3 > 0 ==> forall i: nat :: i < d2 ==> Within(i, scale2, s2)
    {
      ok, uses, picked := ReadRow(s2, s3, scale2, scale3, d2, i3, uses, picked);
      if !ok {
        return;
      }
    }
  }

  lemma HitsEverySlice(source: nat, target: nat)
    requires source > 0 && target / source > 0
    ensures EveryLookupHits(source, target) <==> forall i: nat :: i < target ==> Within(i, target / source, source)
  {
    forall i: nat | i < target ensures HitsSlice(source, target, i) <==> Within(i, target / source, source) {
    }
  }

  lemma DividesIffHits(s2: nat, s3: nat, d2: nat, d3: nat)
    requires d2 > 0 && d3 > 0 && s2 > 0 && s3 > 0
    ensures RouteModel.AllDivide([s2, s3], [d2, d3]) <==> EveryLookupHits(s2, d2) && EveryLookupHits(s3, d3)
  {
    LookupsHitIffDivides(s2, d2);
    LookupsHitIffDivides(s3, d3);
    var divisors, extents := [s2, s3], [d2, d3];
    assert divisors[0] == s2 && divisors[1] == s3 && extents[0] == d2 && extents[1] == d3;
  }

  // The slice loops of _matmul_f32_kernel_abi_arrays, recording which source slice every destination
  // slice reads and counting the reads of each. None stands for the exception a zero divisor or a
  // missing slice raises. The `divides` check is exactly what rules it out, and then every slice is
  // read equally often.
  method BroadcastSlices(s2: nat, s3: nat, d2: nat, d3: nat) returns (uses: Option<UseCounts>, picked: Reads)
    requires d2 > 0 && d3 > 0
    ensures uses.Some? <==> RouteModel.AllDivide([s2, s3], [d2, d3])
    ensures uses.Some? ==> forall a: nat, b: nat :: a < s2 && b < s3 ==>
      (a, b) in uses.value && uses.value[(a, b)] == (d2 / s2) * (d3 / s3)
    ensures uses.Some? ==> ReadsItsSlice(picked, s2, s3, d2, d3)
  {
    if s2 == 0 || s3 == 0 {
      assert [s2, s3][0] == s2 && [s2, s3][1] == s3;
      return None, map[];
    }
    DividesIffHits(s2, s3, d2, d3);
    var scale2, scale3 := d2 / s2, d3 / s3;
    if scale2 == 0 || scale3 == 0 {
      assert !HitsSlice(s2, d2, 0) || !HitsSlice(s3, d3, 0);
      return None, map[];
    }
    var ok, counts;
    ok, counts, picked := ReadRows(s2, s3, scale2, scale3, d2, d3);
    HitsEverySlice(s2, d2);
    HitsEverySlice(s3, d3);
    if !ok {
      return None, picked;
    }
    CountsAreBalanced(counts, s2, s3, d2, d3);
    AllReadTheirSlices(picked, s2, s3, d2, d3);
    uses := Some(counts);
  }

  // One more full row for slice b, or none.
  lemma RowAdds(scale: nat, b: nat, i3: nat, row: nat)
    requires scale > 0
    ensures Uses(scale, b, i3 + 1) * row == Uses(scale, b, i3) * row + (if i3 / scale == b then row else 0)
  {
    var before := Uses(scale, b, i3);
    if i3 / scale == b {
      assert (before + 1) * row == before * row + row;
    }
  }

  lemma RowDone(uses: UseCounts, s2: nat, s3: nat, scale2: nat, scale3: nat, d2: nat, i3: nat)
    requires scale2 > 0 && scale3 > 0 && Counted(uses, s2, s3, scale2, scale3, d2, d2, i3)
    ensures Counted(uses, s2, s3, scale2, scale3, d2, 0, i3 + 1)
  {
    forall a: nat, b: nat | a < s2 && b < s3
      ensures (a, b) in uses && uses[(a, b)] == Uses(scale3, b, i3 + 1) * Uses(scale2, a, d2)
    {
      RowAdds(scale3, b, i3, Uses(scale2, a, d2));
    }
  }
}
