// The names a shape dictionary uses: d<i>, <tensor>_d<i>, <tensor>_d<i>_stride, <tensor>_perm<i>.
module ShapeKeys {
  import opened Text

  datatype Key =
    | Dim(index: nat)
    | Size(tensor: string, index: nat)
    | Stride(tensor: string, index: nat)
    | Perm(tensor: string, index: nat)

  function DimensionName(index: nat): string {
    "d" + Decimal(index)
  }

  const STRIDE_SUFFIX := "_stride"

  function Render(key: Key): string {
    match key
    case Dim(i) => DimensionName(i)
    case Size(t, i) => t + "_" + DimensionName(i)
    case Stride(t, i) => t + "_" + DimensionName(i) + STRIDE_SUFFIX
    case Perm(t, i) => t + "_perm" + Decimal(i)
  }

  lemma DecimalHasNoUnderscore(i: nat)
    ensures '_' !in Decimal(i)
  {
    DecimalRoundTrip(i);
  }

  // The part of a tensor key after its last underscore.
  function LastSegment(key: Key): string
    requires !key.Dim?
  {
    match key
    case Size(_, i) => DimensionName(i)
    case Stride(_, _) => "stride"
    case Perm(_, i) => "perm" + Decimal(i)
  }

  function BeforeLastSegment(key: Key): string
    requires !key.Dim?
  {
    match key
    case Size(t, _) => t
    case Stride(t, i) => t + "_" + DimensionName(i)
    case Perm(t, _) => t
  }

  lemma Segments(key: Key)
    requires !key.Dim?
    ensures Render(key) == BeforeLastSegment(key) + ['_'] + LastSegment(key)
    ensures '_' !in LastSegment(key)
  {
    DecimalHasNoUnderscore(key.index);
    match key
    case Size(t, i) =>
    case Stride(t, i) =>
      assert STRIDE_SUFFIX == ['_'] + "stride";
    case Perm(t, i) =>
      assert "_perm" == ['_'] + "perm";
      assert t + "_perm" + Decimal(i) == t + ['_'] + ("perm" + Decimal(i));
  }

  lemma DimensionNameInjective(i: nat, j: nat)
    requires DimensionName(i) == DimensionName(j)
    ensures i == j
  {
    assert DimensionName(i)[1..] == Decimal(i) && DimensionName(j)[1..] == Decimal(j);
    DecimalRoundTrip(i);
    DecimalRoundTrip(j);
  }

  lemma DimensionNameHasNoUnderscore(i: nat)
    ensures '_' !in DimensionName(i)
  {
    DecimalHasNoUnderscore(i);
  }

  // name.startswith("d") and name[1:].isdigit()
  predicate IsDimensionName(name: string) {
    |name| > 0 && name[0] == 'd' && IsDecimal(name[1..])
  }

  function DimensionIndex(name: string): nat
    requires IsDimensionName(name)
  {
    ParseDecimal(name[1..])
  }

  lemma DimensionNames(key: Key)
    ensures IsDimensionName(Render(key)) <==> key.Dim?
    ensures key.Dim? ==> DimensionIndex(Render(key)) == key.index
  {
    DecimalRoundTrip(key.index);
    if key.Dim? {
      assert Render(key)[1..] == Decimal(key.index);
    } else {
      Segments(key);
      var at := |BeforeLastSegment(key)|;
      assert Render(key)[at] == '_';
      if at > 0 { assert Render(key)[1..][at - 1] == '_'; }
    }
  }

  /** No two keys share a name, whatever the tensors are called: d0 and a tensor named "a_d0" included. */
  lemma RenderIsInjective(a: Key, b: Key)
    requires Render(a) == Render(b)
    ensures a == b
  {
    DimensionNames(a);
    DimensionNames(b);
    if a.Dim? {
      DimensionNameInjective(a.index, b.index);
    } else {
      Segments(a);
      Segments(b);
      SplitAtLast(BeforeLastSegment(a), BeforeLastSegment(b), '_', LastSegment(a), LastSegment(b));
      SameSegments(a, b);
    }
  }

  lemma SameSegments(a: Key, b: Key)
    requires !a.Dim? && !b.Dim?
    requires BeforeLastSegment(a) == BeforeLastSegment(b) && LastSegment(a) == LastSegment(b)
    ensures a == b
  {
    assert LastSegment(a)[0] == LastSegment(b)[0];
    match a
    case Size(t, i) => DimensionNameInjective(i, b.index);
    case Perm(t, i) =>
      assert LastSegment(a)[4..] == Decimal(i) && LastSegment(b)[4..] == Decimal(b.index);
      DecimalRoundTrip(i);
      DecimalRoundTrip(b.index);
    case Stride(t, i) =>
      DimensionNameHasNoUnderscore(i);
      DimensionNameHasNoUnderscore(b.index);
      SplitAtLast(t, b.tensor, '_', DimensionName(i), DimensionName(b.index));
      DimensionNameInjective(i, b.index);
  }
}
