// benchmarking/compare.py: the comparison keeps the ten worst regressions, and the acceptance gate
// looks only at those. Times and ratios are reals.
module RegressionGate {
  import opened Wrappers

  datatype Row = Row(caseId: string, ratio: real)

  // A measurement row; None is a missing or non-numeric mean.
  type Measurements = map<string, Option<real>>

  //////////////////////////////////////////////////////////////////////////////
  // _compare_measurement_maps
  //////////////////////////////////////////////////////////////////////////////

  predicate Timed(baseline: Measurements, candidate: Measurements, id: string) {
    && id in baseline && id in candidate
    && baseline[id].Some? && candidate[id].Some? && baseline[id].value > 0.0
  }

  function RatioOf(baseline: Measurements, candidate: Measurements, id: string): real
    requires Timed(baseline, candidate, id)
  {
    candidate[id].value / baseline[id].value
  }

  predicate Distinct(ids: seq<string>) {
    forall i, j :: 0 <= i < j < |ids| ==> ids[i] != ids[j]
  }

  predicate DistinctRows(rows: seq<Row>) {
    forall i, j :: 0 <= i < j < |rows| ==> rows[i].caseId != rows[j].caseId
  }

  // The baseline ids in sorted order, split into compared, missing and untimed cases: nothing is
  // lost and nothing is counted twice.
  method CompareMaps(ids: seq<string>, baseline: Measurements, candidate: Measurements)
    returns (rows: seq<Row>, missing: seq<string>, untimed: seq<string>)
    requires Distinct(ids) && (forall id :: id in ids <==> id in baseline)
    ensures DistinctRows(rows)
    ensures forall row :: row in rows <==>
      Timed(baseline, candidate, row.caseId) && row.ratio == RatioOf(baseline, candidate, row.caseId)
    ensures forall id :: id in missing <==> id in baseline && id !in candidate
    ensures forall id :: id in untimed <==> id in baseline && id in candidate && !Timed(baseline, candidate, id)
    ensures |rows| + |missing| + |untimed| == |ids|
  {
    rows, missing, untimed := [], [], [];
    for k := 0 to |ids|
      invariant DistinctRows(rows)
      invariant forall row :: row in rows <==>
        && row.caseId in ids[..k]
        && Timed(baseline, candidate, row.caseId)
        && row.ratio == RatioOf(baseline, candidate, row.caseId)
      invariant forall id :: id in missing <==> id in ids[..k] && id !in candidate
      invariant forall id :: id in untimed <==> id in ids[..k] && id in candidate && !Timed(baseline, candidate, id)
      invariant |rows| + |missing| + |untimed| == k
    {
      var id := ids[k];
      assert ids[..k + 1] == ids[..k] + [id];
      assert id !in ids[..k];
      if id !in candidate {
        missing := missing + [id];
      } else if baseline[id].None? || candidate[id].None? || baseline[id].value <= 0.0 {
        untimed := untimed + [id];
      } else {
        var row := Row(id, candidate[id].value / baseline[id].value);
        assert forall i :: 0 <= i < |rows| ==> rows[i] in rows && rows[i].caseId != id;
        rows := rows + [row];
      }
    }
    assert ids[..|ids|] == ids;
  }

  //////////////////////////////////////////////////////////////////////////////
  // The ten worst rows
  //////////////////////////////////////////////////////////////////////////////

  // A stable insertion, larger ratios first.
  function InsertRow(row: Row, sorted: seq<Row>): (r: seq<Row>)
    ensures multiset(r) == multiset(sorted) + multiset{row}
  {
    if sorted == [] then [row]
    else if row.ratio >= sorted[0].ratio then [row] + sorted
    else
      assert sorted == [sorted[0]] + sorted[1..];
      [sorted[0]] + InsertRow(row, sorted[1..])
  }

  // sorted(case_rows, key=time_ratio, reverse=True)
  function WorstFirst(rows: seq<Row>): (r: seq<Row>)
    ensures multiset(r) == multiset(rows)
  {
    if rows == [] then []
    else
      assert rows == [rows[0]] + rows[1..];
      InsertRow(rows[0], WorstFirst(rows[1..]))
  }

  predicate Descending(rows: seq<Row>) {
    forall i, j :: 0 <= i < j < |rows| ==> rows[i].ratio >= rows[j].ratio
  }

  lemma {:induction false} InsertKeepsDescending(row: Row, sorted: seq<Row>)
    requires Descending(sorted)
    ensures Descending(InsertRow(row, sorted))
  {
    if sorted != [] && row.ratio < sorted[0].ratio {
      var rest := InsertRow(row, sorted[1..]);
      InsertKeepsDescending(row, sorted[1..]);
      forall i | 0 <= i < |rest| ensures sorted[0].ratio >= rest[i].ratio {
        assert rest[i] in multiset(rest);
        assert rest[i] == row || rest[i] in sorted[1..];
      }
    }
  }

  lemma {:induction false} WorstFirstDescends(rows: seq<Row>)
    ensures Descending(WorstFirst(rows))
  {
    if rows != [] {
      WorstFirstDescends(rows[1..]);
      InsertKeepsDescending(rows[0], WorstFirst(rows[1..]));
    }
  }

  const WINDOW := 10

  function WorstRegressions(rows: seq<Row>): seq<Row> {
    var sorted := WorstFirst(rows);
    if |sorted| <= WINDOW then sorted else sorted[..WINDOW]
  }

  //////////////////////////////////////////////////////////////////////////////
  // _apply_acceptance_policy
  //////////////////////////////////////////////////////////////////////////////

  predicate Violates(row: Row, allowed: set<string>, limit: real) {
    row.caseId !in allowed && row.ratio > 1.0 + limit
  }

  // The rows the case_regression failure lists; it is reported when there is one.
  method CaseRegressions(rows: seq<Row>, allowed: set<string>, limit: real) returns (regressions: seq<Row>)
    ensures regressions != [] <==> GateReports(rows, allowed, limit)
    ensures forall row :: row in regressions <==> row in WorstRegressions(rows) && Violates(row, allowed, limit)
  {
    regressions := [];
    var window := WorstRegressions(rows);
    for k := 0 to |window|
      invariant forall row :: row in regressions <==> row in window[..k] && Violates(row, allowed, limit)
    {
      assert window[..k + 1] == window[..k] + [window[k]];
      if Violates(window[k], allowed, limit) {
        regressions := regressions + [window[k]];
      }
    }
    assert window[..|window|] == window;
    assert regressions != [] ==> regressions[0] in regressions;
  }

  predicate GateReports(rows: seq<Row>, allowed: set<string>, limit: real) {
    exists row :: row in WorstRegressions(rows) && Violates(row, allowed, limit)
  }

  predicate HasViolation(rows: seq<Row>, allowed: set<string>, limit: real) {
    exists row :: row in rows && Violates(row, allowed, limit)
  }

  lemma RearrangedRowsStayDistinct(a: seq<Row>, b: seq<Row>)
    requires DistinctRows(a) && multiset(a) == multiset(b)
    ensures DistinctRows(b)
  {
    forall i, j | 0 <= i < j < |b| ensures b[i].caseId != b[j].caseId {
      assert b[i] in multiset(b) && b[j] in multiset(b);
      assert b[i] in a && b[j] in a;
      if b[i].caseId == b[j].caseId {
        assert b[i] == b[j];
        RowOccursOnce(a, b[i]);
        RowOccursTwice(b, i, j);
      }
    }
  }

  lemma RowOccursTwice(rows: seq<Row>, i: nat, j: nat)
    requires i < j < |rows| && rows[i] == rows[j]
    ensures multiset(rows)[rows[i]] >= 2
  {
    assert rows == rows[..j] + [rows[j]] + rows[j + 1..];
    assert rows[i] in rows[..j];
  }

  lemma {:induction false} RowOccursOnce(rows: seq<Row>, row: Row)
    requires DistinctRows(rows)
    ensures multiset(rows)[row] <= 1
  {
    if rows != [] {
      RowOccursOnce(rows[1..], row);
      assert rows == [rows[0]] + rows[1..];
      assert rows[0] !in rows[1..];
    }
  }

  lemma {:induction false} AllowedRowsAreFew(rows: seq<Row>, allowed: set<string>)
    requires DistinctRows(rows) && forall row :: row in rows ==> row.caseId in allowed
    ensures |rows| <= |allowed|
  {
    if rows != [] {
      var n := |rows| - 1;
      assert rows[n] in rows;
      assert forall row :: row in rows[..n] ==> row.caseId in allowed - {rows[n].caseId};
      AllowedRowsAreFew(rows[..n], allowed - {rows[n].caseId});
    }
  }

  // What the window is: the front of a rearrangement in descending order.
  lemma WindowIsFront(rows: seq<Row>)
    ensures Descending(WorstFirst(rows)) && |WorstFirst(rows)| == |rows|
    ensures forall row :: row in WorstFirst(rows) <==> row in rows
    ensures WorstRegressions(rows) <= WorstFirst(rows)
  {
    var sorted := WorstFirst(rows);
    WorstFirstDescends(rows);
    assert |multiset(sorted)| == |sorted| && |multiset(rows)| == |rows|;
    assert forall row :: row in sorted <==> row in multiset(sorted);
    assert forall row :: row in rows <==> row in multiset(rows);
  }

  // A row outside the window is no worse than any in it, and leaves no room there.
  lemma OutsideTheWindow(rows: seq<Row>, row: Row)
    requires row in rows && row !in WorstRegressions(rows)
    ensures |WorstRegressions(rows)| == WINDOW
    ensures forall other :: other in WorstRegressions(rows) ==> other.ratio >= row.ratio
  {
    var sorted := WorstFirst(rows);
    WindowIsFront(rows);
    var i :| 0 <= i < |sorted| && sorted[i] == row;
    assert |sorted| > WINDOW;
    assert forall k :: 0 <= k < WINDOW ==> sorted[k] in sorted[..WINDOW];
  }

  // With fewer than ten allowed cases the window cannot be filled by them.
  lemma GateIsCompleteForFewAllowed(rows: seq<Row>, allowed: set<string>, limit: real)
    requires DistinctRows(rows) && |allowed| < WINDOW
    ensures GateReports(rows, allowed, limit) <==> HasViolation(rows, allowed, limit)
  {
    var window := WorstRegressions(rows);
    WindowIsFront(rows);
    if HasViolation(rows, allowed, limit) && !GateReports(rows, allowed, limit) {
      var row :| row in rows && Violates(row, allowed, limit);
      OutsideTheWindow(rows, row);
      assert forall other :: other in window ==> other.caseId in allowed;
      RearrangedRowsStayDistinct(rows, WorstFirst(rows));
      AllowedRowsAreFew(window, allowed);
    }
  }

  //////////////////////////////////////////////////////////////////////////////
  // Ten allowed cases are too many
  //////////////////////////////////////////////////////////////////////////////

  function Repeat(n: nat): string {
    seq(n, _ => 'x')
  }

  lemma {:induction false} FreshId(allowed: set<string>, n: nat) returns (id: string)
    requires forall k :: 0 <= k < n ==> Repeat(k) in allowed
    ensures id !in allowed
    decreases |allowed| + 1 - n
  {
    if Repeat(n) !in allowed {
      id := Repeat(n);
    } else {
      RepeatsAreMany(allowed, n + 1);
      id := FreshId(allowed, n + 1);
    }
  }

  lemma {:induction false} RepeatsAreMany(s: set<string>, n: nat)
    requires forall k :: 0 <= k < n ==> Repeat(k) in s
    ensures |s| >= n
  {
    if n > 0 {
      assert forall k :: 0 <= k < n - 1 ==> |Repeat(k)| < |Repeat(n - 1)|;
      RepeatsAreMany(s - {Repeat(n - 1)}, n - 1);
    }
  }

  // n rows with distinct allowed ids.
  lemma {:induction false} RowsFromIds(allowed: set<string>, n: nat, ratio: real) returns (rows: seq<Row>)
    requires |allowed| >= n
    ensures |rows| == n && DistinctRows(rows)
    ensures forall row :: row in rows ==> row.caseId in allowed && row.ratio == ratio
  {
    rows := [];
    if n > 0 {
      var id :| id in allowed;
      rows := RowsFromIds(allowed - {id}, n - 1, ratio);
      assert forall i :: 0 <= i < |rows| ==> rows[i] in rows && rows[i].caseId != id;
      rows := rows + [Row(id, ratio)];
    }
  }

  lemma GateMissesBehindTenAllowed(allowed: set<string>, limit: real) returns (rows: seq<Row>)
    requires |allowed| >= WINDOW
    ensures DistinctRows(rows) && HasViolation(rows, allowed, limit) && !GateReports(rows, allowed, limit)
  {
    var id := FreshId(allowed, 0);
    var worst := RowsFromIds(allowed, WINDOW, limit + 3.0);
    var hidden := Row(id, limit + 2.0);
    rows := worst + [hidden];
    assert forall i :: 0 <= i < |worst| ==> worst[i] in worst;
    assert hidden in rows && Violates(hidden, allowed, limit);
    WindowHidesLowest(rows, hidden, allowed);
  }

  lemma WindowHidesLowest(rows: seq<Row>, hidden: Row, allowed: set<string>)
    requires |rows| == WINDOW + 1 && DistinctRows(rows) && hidden in rows && hidden.caseId !in allowed
    requires forall row :: row in rows && row != hidden ==> row.ratio > hidden.ratio && row.caseId in allowed
    ensures forall row :: row in WorstRegressions(rows) ==> row.caseId in allowed
  {
    var sorted := WorstFirst(rows);
    WorstFirstDescends(rows);
    RearrangedRowsStayDistinct(rows, sorted);
    assert |sorted| == |multiset(sorted)| == |multiset(rows)| == |rows|;
    forall i | 0 <= i < WINDOW ensures sorted[i].caseId in allowed {
      assert sorted[i] in multiset(sorted) && sorted[WINDOW] in multiset(sorted);
      assert sorted[i] in rows && sorted[WINDOW] in rows;
      assert sorted[WINDOW].caseId != sorted[i].caseId && sorted[WINDOW].ratio <= sorted[i].ratio;
    }
  }

  ghost predicate CompleteGate(allowed: set<string>, limit: real) {
    forall rows :: DistinctRows(rows) ==> (GateReports(rows, allowed, limit) <==> HasViolation(rows, allowed, limit))
  }

  /** The ten-row gate reports a case regression exactly when some compared case outside the allowed set
      exceeds the limit, on every comparison, if and only if fewer than ten cases are allowed. */
  lemma GateIsCompleteIff(allowed: set<string>, limit: real)
    ensures CompleteGate(allowed, limit) <==> |allowed| < 10
  {
    if |allowed| < WINDOW {
      forall rows | DistinctRows(rows)
        ensures GateReports(rows, allowed, limit) <==> HasViolation(rows, allowed, limit)
      {
        GateIsCompleteForFewAllowed(rows, allowed, limit);
      }
    } else {
      var rows := GateMissesBehindTenAllowed(allowed, limit);
    }
  }

  //////////////////////////////////////////////////////////////////////////////
  // Comparison and gate together
  //////////////////////////////////////////////////////////////////////////////

  // A case timed on both sides that is slower by more than the limit, and not excused.
  ghost predicate IsRegression(baseline: Measurements, candidate: Measurements, allowed: set<string>, limit: real,
      id: string) {
    && id in baseline && id in candidate && id !in allowed
    && baseline[id].Some? && candidate[id].Some? && baseline[id].value > 0.0
    && candidate[id].value > (1.0 + limit) * baseline[id].value
  }

  lemma ExceedsIff(mean: real, base: real, limit: real)
    requires base > 0.0
    ensures mean / base > 1.0 + limit <==> mean > (1.0 + limit) * base
  {
    var ratio := mean / base;
    assert ratio * base == mean;
    assert ratio * base - (1.0 + limit) * base == (ratio - (1.0 + limit)) * base;
    SignOfProduct(ratio - (1.0 + limit), base);
  }

  lemma SignOfProduct(x: real, base: real)
    requires base > 0.0
    ensures x * base > 0.0 <==> x > 0.0
  {
  }

  lemma ViolationIsRegression(baseline: Measurements, candidate: Measurements, allowed: set<string>, limit: real,
      row: Row)
    requires Timed(baseline, candidate, row.caseId) && row.ratio == RatioOf(baseline, candidate, row.caseId)
    ensures Violates(row, allowed, limit) <==> IsRegression(baseline, candidate, allowed, limit, row.caseId)
  {
    ExceedsIff(candidate[row.caseId].value, baseline[row.caseId].value, limit);
  }

  // Compares and applies a case limit with fewer than ten excused cases: it fails exactly when some
  // case timed on both sides is slower by more than the limit and not excused.
  method CompareAndGate(ids: seq<string>, baseline: Measurements, candidate: Measurements, allowed: set<string>,
      limit: real)
    returns (failed: bool)
    requires Distinct(ids) && (forall id :: id in ids <==> id in baseline)
    requires |allowed| < 10
    ensures failed <==> exists id :: IsRegression(baseline, candidate, allowed, limit, id)
  {
    var rows, missing, untimed := CompareMaps(ids, baseline, candidate);
    var regressions := CaseRegressions(rows, allowed, limit);
    failed := regressions != [];
    GateIsCompleteForFewAllowed(rows, allowed, limit);
    ViolationsAreRegressions(rows, baseline, candidate, allowed, limit);
  }

  lemma ViolationsAreRegressions(rows: seq<Row>, baseline: Measurements, candidate: Measurements, allowed: set<string>,
      limit: real)
    requires forall row :: row in rows <==>
      Timed(baseline, candidate, row.caseId) && row.ratio == RatioOf(baseline, candidate, row.caseId)
    ensures HasViolation(rows, allowed, limit) <==> exists id :: IsRegression(baseline, candidate, allowed, limit, id)
  {
    if HasViolation(rows, allowed, limit) {
      var row :| row in rows && Violates(row, allowed, limit);
      ViolationIsRegression(baseline, candidate, allowed, limit, row);
    }
    if exists id :: IsRegression(baseline, candidate, allowed, limit, id) {
      var id :| IsRegression(baseline, candidate, allowed, limit, id);
      assert Timed(baseline, candidate, id);
      var row := Row(id, RatioOf(baseline, candidate, id));
      ViolationIsRegression(baseline, candidate, allowed, limit, row);
      assert row in rows;
    }
  }
}
