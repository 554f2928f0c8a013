/** CPU usage from cumulative counters: a streaming fold over log rows, against its batch definition. */
module CpuUsage {
  import opened Wrappers

  /** A row of the log: a timestamp in milliseconds and one of the two CPU counters. */
  datatype Row = Row(ts: int, value: real)

  datatype Point = Point(timestamp: int, value: real)

  /** All rows of one timestamp that follow each other: the timestamp and the sum of their counters. */
  datatype Group = Group(ts: int, total: real)

  // ----- the batch definition -----

  /** Where the last run of rows with one timestamp begins. */
  function RunStart(rows: seq<Row>): (n: nat)
    requires rows != []
    ensures n < |rows|
  {
    var m := |rows| - 1;
    if m > 0 && rows[m - 1].ts == rows[m].ts then RunStart(rows[..m]) else m
  }

  /** The run is of one timestamp, and the row before it has another: it is maximal. */
  lemma {:induction false} RunIsMaximal(rows: seq<Row>)
    requires rows != []
    ensures forall i :: RunStart(rows) <= i < |rows| ==> rows[i].ts == rows[|rows| - 1].ts
    ensures RunStart(rows) > 0 ==> rows[RunStart(rows) - 1].ts != rows[|rows| - 1].ts
  {
    var m := |rows| - 1;
    if m > 0 && rows[m - 1].ts == rows[m].ts { RunIsMaximal(rows[..m]); }
  }

  function Sum(rows: seq<Row>): real {
    if rows == [] then 0.0 else Sum(rows[..|rows| - 1]) + rows[|rows| - 1].value
  }

  /** The maximal runs of equal timestamps. */
  function Groups(rows: seq<Row>): seq<Group>
    decreases |rows|
  {
    if rows == [] then []
    else Groups(rows[..RunStart(rows)]) + [Group(rows[|rows| - 1].ts, Sum(rows[RunStart(rows)..]))]
  }

  /** CPU seconds over wall seconds, in percent, between two groups. */
  function Percent(a: Group, b: Group): real
    requires a.ts != b.ts
  {
    (b.total - a.total) / ((b.ts - a.ts) as real / 1000.0) * 100.0
  }

  /** Two groups give a point when time went on and the counters did not fall. */
  predicate GivesPoint(a: Group, b: Group) {
    b.ts > a.ts && b.total >= a.total
  }

  /** The points of all adjacent groups. */
  function Deltas(groups: seq<Group>): seq<Point> {
    if |groups| <= 1 then []
    else
      var a, b := groups[|groups| - 2], groups[|groups| - 1];
      Deltas(groups[..|groups| - 1]) + if GivesPoint(a, b) then [Point(b.ts, Percent(a, b))] else []
  }

  /** Group `j` gives a point: time went on since the group before it, and the counters did not fall. */
  predicate Advances(groups: seq<Group>, j: nat) {
    0 < j < |groups| && groups[j - 1].ts < groups[j].ts && groups[j - 1].total <= groups[j].total
  }

  /** The point of group `j`: its time, and the CPU time since the group before it, in percent of the wall time. */
  predicate IsPointOf(p: Point, groups: seq<Group>, j: nat)
    requires Advances(groups, j)
  {
    && p.timestamp == groups[j].ts
    && p.value / 100.0 * ((groups[j].ts - groups[j - 1].ts) as real / 1000.0) == groups[j].total - groups[j - 1].total
  }

  /** How many of the first `n` groups give a point. */
  function Advancing(groups: seq<Group>, n: nat): nat {
    if n == 0 then 0 else Advancing(groups, n - 1) + if Advances(groups, n - 1) then 1 else 0
  }

  /** There is one point for each group that advances, in order, and none for a group whose counters fell. */
  lemma {:induction false} PointsOfAdvances(groups: seq<Group>, n: nat)
    requires n <= |groups|
    ensures |Deltas(groups[..n])| == Advancing(groups, n)
    ensures forall j: nat :: j < n && Advances(groups, j) ==>
              Advancing(groups, j) < |Deltas(groups[..n])| && IsPointOf(Deltas(groups[..n])[Advancing(groups, j)], groups, j)
  {
    if n > 0 {
      PointsOfAdvances(groups, n - 1);
      assert groups[..n][..n - 1] == groups[..n - 1];
      if Advances(groups, n - 1) { PercentTimesInterval(groups[n - 2], groups[n - 1]); }
    }
  }

  /** No value is negative. */
  lemma {:induction false} ValuesAreNotNegative(groups: seq<Group>)
    ensures forall p :: p in Deltas(groups) ==> p.value >= 0.0
  {
    if |groups| > 1 {
      var a, b := groups[|groups| - 2], groups[|groups| - 1];
      ValuesAreNotNegative(groups[..|groups| - 1]);
      if GivesPoint(a, b) { PercentIsNotNegative(a, b); }
    }
  }

  lemma PercentIsNotNegative(a: Group, b: Group)
    requires GivesPoint(a, b)
    ensures Percent(a, b) >= 0.0
  {
    var wall, x := (b.ts - a.ts) as real / 1000.0, b.total - a.total;
    assert wall > 0.0 && x >= 0.0;
    assert x / wall >= 0.0;
  }

  // ----- thinning by a relative tolerance -----

  function Abs(x: real): real { if x < 0.0 then -x else x }

  predicate ShouldEmitPoint(prevValue: Option<real>, currValue: real, tolerance: real) {
    || tolerance == 0.0
    || prevValue.None?
    || (prevValue.value == 0.0 && currValue != 0.0)
    || (prevValue.value != 0.0 && currValue == 0.0)
    || (prevValue.value != 0.0 && Abs((currValue - prevValue.value) / prevValue.value) > tolerance)
  }

  function LastValue(out: seq<Point>): Option<real> {
    if out == [] then None else Some(out[|out| - 1].value)
  }

  /** The points that differ enough from the last one kept. */
  function Thinned(points: seq<Point>, tolerance: real): seq<Point> {
    if points == [] then []
    else
      var kept, last := Thinned(points[..|points| - 1], tolerance), points[|points| - 1];
      if ShouldEmitPoint(LastValue(kept), last.value, tolerance) then kept + [last] else kept
  }

  lemma {:induction false} NoToleranceKeepsAll(points: seq<Point>)
    ensures Thinned(points, 0.0) == points
  {
    if points != [] {
      NoToleranceKeepsAll(points[..|points| - 1]);
    }
  }

  /** Two values no further apart than the tolerance, relative to the first; zero is only near zero. */
  predicate Near(kept: real, value: real, tolerance: real) {
    if kept == 0.0 then value == 0.0 else value != 0.0 && Abs((value - kept) / kept) <= tolerance
  }

  /** `a` is `b` with some points left out. */
  predicate Subsequence(a: seq<Point>, b: seq<Point>) {
    if a == [] then true
    else if b == [] then false
    else
      || (a[|a| - 1] == b[|b| - 1] && Subsequence(a[..|a| - 1], b[..|b| - 1]))
      || Subsequence(a, b[..|b| - 1])
  }

  lemma {:induction false} ThinnedIsSubsequence(points: seq<Point>, tolerance: real)
    ensures Subsequence(Thinned(points, tolerance), points)
    ensures points != [] ==> Thinned(points, tolerance) != [] && Thinned(points, tolerance)[0] == points[0]
  {
    if points != [] {
      var front := points[..|points| - 1];
      ThinnedIsSubsequence(front, tolerance);
      var kept := Thinned(front, tolerance);
      assert (kept + [points[|points| - 1]])[..|kept|] == kept;
    }
  }

  /** A kept point is not near the one kept before it. */
  predicate DiffersAt(kept: seq<Point>, i: nat, tolerance: real) {
    0 < i < |kept| ==> !Near(kept[i - 1].value, kept[i].value, tolerance)
  }

  lemma {:induction false} KeptPointsDiffer(points: seq<Point>, tolerance: real)
    requires tolerance != 0.0
    ensures forall i: nat :: DiffersAt(Thinned(points, tolerance), i, tolerance)
  {
    if points != [] {
      var front, last := Thinned(points[..|points| - 1], tolerance), points[|points| - 1];
      KeptPointsDiffer(points[..|points| - 1], tolerance);
      forall i: nat
        ensures DiffersAt(Thinned(points, tolerance), i, tolerance)
      {
        assert DiffersAt(front, i, tolerance);
        if front != [] { EmittedIsNotNear(front[|front| - 1].value, last.value, tolerance); }
      }
    }
  }

  lemma EmittedIsNotNear(kept: real, value: real, tolerance: real)
    requires tolerance != 0.0
    ensures ShouldEmitPoint(Some(kept), value, tolerance) <==> !Near(kept, value, tolerance)
  {
  }

  /** What is kept of the first points stays kept. */
  lemma {:induction false} ThinnedGrows(points: seq<Point>, n: nat, tolerance: real)
    requires n <= |points|
    ensures Thinned(points[..n], tolerance) <= Thinned(points, tolerance)
    decreases |points|
  {
    if n < |points| {
      var front := points[..|points| - 1];
      assert front[..n] == points[..n];
      ThinnedGrows(front, n, tolerance);
    } else {
      assert points[..n] == points;
    }
  }

  /** Every point is kept, or is near the last point kept before it. */
  lemma DroppedPointsAreNear(points: seq<Point>, d: nat, tolerance: real)
    requires d < |points|
    ensures var kept := Thinned(points[..d], tolerance);
            || kept + [points[d]] <= Thinned(points, tolerance)
            || (kept != [] && kept <= Thinned(points, tolerance) && Thinned(points[..d + 1], tolerance) == kept
                && Near(kept[|kept| - 1].value, points[d].value, tolerance))
  {
    assert points[..d + 1][..d] == points[..d];
    ThinnedGrows(points, d, tolerance);
    ThinnedGrows(points, d + 1, tolerance);
  }

  // ----- one more row -----

  /** A row joins the last group when it has its timestamp, and else begins a group. */
  function GroupsWith(groups: seq<Group>, r: Row): seq<Group> {
    if groups != [] && groups[|groups| - 1].ts == r.ts then
      groups[|groups| - 1 := Group(r.ts, groups[|groups| - 1].total + r.value)]
    else groups + [Group(r.ts, r.value)]
  }

  lemma {:induction false} SumSnoc(rows: seq<Row>, r: Row)
    ensures Sum(rows + [r]) == Sum(rows) + r.value
  {
    assert (rows + [r])[..|rows|] == rows;
  }

  lemma {:induction false} GroupsSnoc(rows: seq<Row>, r: Row)
    ensures Groups(rows + [r]) == GroupsWith(Groups(rows), r)
  {
    if rows != [] && rows[|rows| - 1].ts == r.ts {
      RowJoinsGroup(rows, r);
    } else {
      RowBeginsGroup(rows, r);
    }
  }

  lemma {:induction false} RowJoinsGroup(rows: seq<Row>, r: Row)
    requires rows != [] && rows[|rows| - 1].ts == r.ts
    ensures var earlier := Groups(rows[..RunStart(rows)]); var total := Sum(rows[RunStart(rows)..]);
            Groups(rows) == earlier + [Group(r.ts, total)] && Groups(rows + [r]) == earlier + [Group(r.ts, total + r.value)]
  {
    var all := rows + [r];
    assert all[..|rows|] == rows;
    var n := RunStart(rows);
    assert RunStart(all) == n;
    assert all[..n] == rows[..n] && all[n..] == rows[n..] + [r];
    SumSnoc(rows[n..], r);
  }

  lemma {:induction false} RowBeginsGroup(rows: seq<Row>, r: Row)
    requires rows != [] ==> rows[|rows| - 1].ts != r.ts
    ensures Groups(rows + [r]) == Groups(rows) + [Group(r.ts, r.value)]
    ensures Groups(rows) != [] ==> Groups(rows)[|Groups(rows)| - 1].ts != r.ts
  {
    var all := rows + [r];
    assert all[..|rows|] == rows && RunStart(all) == |rows|;
    assert all[|rows|..] == [] + [r];
    SumSnoc([], r);
  }

  lemma DeltasSnoc(groups: seq<Group>, b: Group)
    requires groups != []
    ensures var a := groups[|groups| - 1];
            Deltas(groups + [b]) == Deltas(groups) + if GivesPoint(a, b) then [Point(b.ts, Percent(a, b))] else []
  {
    assert (groups + [b])[..|groups|] == groups;
  }

  lemma ThinnedSnoc(points: seq<Point>, p: Point, tolerance: real)
    ensures Thinned(points + [p], tolerance)
         == if ShouldEmitPoint(LastValue(Thinned(points, tolerance)), p.value, tolerance)
            then Thinned(points, tolerance) + [p] else Thinned(points, tolerance)
  {
    assert (points + [p])[..|points|] == points;
  }

  // ----- the streaming fold -----

  class CpuFold {
    const tolerance: real
    var out: seq<Point>
    var prevTs: Option<int>
    var prevTotal: real
    var curTs: Option<int>
    var curTotal: Option<real>
    /** The rows folded so far. */
    ghost var rows: seq<Row>

    /** The last two groups are kept, and the points up to the last but one are out. */
    ghost predicate Holds(groups: seq<Group>)
      reads this
    {
      if groups == [] then out == [] && prevTs == None && curTs == None && curTotal == None
      else
        var n := |groups|;
        && curTs == Some(groups[n - 1].ts) && curTotal == Some(groups[n - 1].total)
        && out == Thinned(Deltas(groups[..n - 1]), tolerance)
        && (if n == 1 then prevTs == None
            else prevTs == Some(groups[n - 2].ts) && prevTotal == groups[n - 2].total)
    }

    ghost predicate Valid()
      reads this
    {
      Holds(Groups(rows))
    }

    constructor (tolerance: real)
      ensures Valid() && rows == [] && this.tolerance == tolerance
    {
      this.tolerance := tolerance;
      out, prevTs, prevTotal, curTs, curTotal, rows := [], None, 0.0, None, None, [];
    }

    /** Emit the point of the last two groups, if they give one that differs enough. */
    method EmitLast(ghost groups: seq<Group>)
      requires Holds(groups) && groups != []
      modifies this`out
      ensures out == Thinned(Deltas(groups), tolerance)
    {
      ghost var n := |groups|;
      assert groups == groups[..n - 1] + [groups[n - 1]];
      if prevTs.Some? {
        ghost var a, b := groups[n - 2], groups[n - 1];
        DeltasSnoc(groups[..n - 1], b);
        var wallSecondsElapsed := (curTs.value - prevTs.value) as real / 1000.0;
        var cpuSecondsElapsed := curTotal.value - prevTotal;
        if wallSecondsElapsed > 0.0 && cpuSecondsElapsed >= 0.0 {
          var cpuPercent := cpuSecondsElapsed / wallSecondsElapsed * 100.0;
          var prevValue := LastValue(out);
          assert GivesPoint(a, b) && cpuPercent == Percent(a, b);
          ThinnedSnoc(Deltas(groups[..n - 1]), Point(b.ts, cpuPercent), tolerance);
          if ShouldEmitPoint(prevValue, cpuPercent, tolerance) {
            out := out + [Point(curTs.value, cpuPercent)];
          }
        } else {
          assert !GivesPoint(a, b);
          assert Deltas(groups) == Deltas(groups[..n - 1]);
        }
      } else {
        assert Deltas(groups) == [] && Deltas(groups[..n - 1]) == [];
      }
    }

    /** The timestamp changed: emit, and move to the next group. */
    method NextBucket(ts: int, ghost groups: seq<Group>)
      requires Holds(groups) && groups != []
      modifies this`out, this`prevTs, this`prevTotal, this`curTs, this`curTotal
      ensures out == Thinned(Deltas(groups), tolerance)
      ensures prevTs == Some(groups[|groups| - 1].ts) && prevTotal == groups[|groups| - 1].total
      ensures curTs == Some(ts) && curTotal == Some(0.0)
    {
      EmitLast(groups);
      prevTs, prevTotal := curTs, curTotal.value;
      curTs, curTotal := Some(ts), Some(0.0);
    }

    /** Add a row to the open group, or to a new one. */
    method Add(row: Row, ghost groups: seq<Group>)
      requires Holds(groups)
      modifies this`out, this`prevTs, this`prevTotal, this`curTs, this`curTotal
      ensures Holds(GroupsWith(groups, row))
    {
      ghost var next := GroupsWith(groups, row);
      if curTs.None? { curTs := Some(row.ts); }
      if curTotal.None? { curTotal := Some(0.0); }
      if row.ts != curTs.value {
        NextBucket(row.ts, groups);
      }
      curTotal := Some(curTotal.value + row.value);
      assert groups != [] ==> next[..|next| - 1] == if groups[|groups| - 1].ts == row.ts then groups[..|groups| - 1] else groups;
    }

    method Reduce(row: Row)
      requires Valid()
      modifies this
      ensures Valid() && rows == old(rows) + [row]
    {
      GroupsSnoc(rows, row);
      Add(row, Groups(rows));
      rows := rows + [row];
    }

    /** The point of the last two groups is still to come when the rows end. */
    method Finalize() returns (points: seq<Point>)
      requires Valid()
      modifies this`out
      ensures points == out == Thinned(Deltas(Groups(rows)), tolerance)
    {
      if prevTs.Some? && curTs.Some? {
        EmitLast(Groups(rows));
      } else {
        assert |Groups(rows)| <= 1;
        assert Groups(rows) != [] ==> Groups(rows)[..0] == [];
      }
      points := out;
    }
  }

  /** The streaming fold gives the batch points thinned by the tolerance, and all of them without one. */
  method FoldCpuUsage(rows: seq<Row>, tolerance: real) returns (points: seq<Point>)
    ensures points == Thinned(Deltas(Groups(rows)), tolerance)
    ensures tolerance == 0.0 ==> points == Deltas(Groups(rows))
  {
    var acc := new CpuFold(tolerance);
    for i := 0 to |rows|
      invariant acc.Valid() && acc.rows == rows[..i] && acc.tolerance == tolerance
    {
      acc.Reduce(rows[i]);
      assert rows[..i + 1] == rows[..i] + [rows[i]];
    }
    assert rows[..|rows|] == rows;
    points := acc.Finalize();
    if tolerance == 0.0 { NoToleranceKeepsAll(Deltas(Groups(rows))); }
  }

  // ----- conservation -----

  /** Times strictly rise and counters never fall. */
  predicate Steady(groups: seq<Group>) {
    |groups| <= 1 || (groups[|groups| - 2].ts < groups[|groups| - 1].ts
                      && groups[|groups| - 2].total <= groups[|groups| - 1].total
                      && Steady(groups[..|groups| - 1]))
  }

  /** The CPU seconds a list of points stands for, from a start time on. */
  function CpuSeconds(points: seq<Point>, start: int): real {
    if points == [] then 0.0
    else
      var front, last := points[..|points| - 1], points[|points| - 1];
      var since := if front == [] then start else front[|front| - 1].timestamp;
      CpuSeconds(front, start) + last.value / 100.0 * ((last.timestamp - since) as real / 1000.0)
  }

  lemma PercentTimesInterval(a: Group, b: Group)
    requires a.ts < b.ts
    ensures Percent(a, b) / 100.0 * ((b.ts - a.ts) as real / 1000.0) == b.total - a.total
  {
    var wall := (b.ts - a.ts) as real / 1000.0;
    var x := b.total - a.total;
    assert wall > 0.0;
    assert Percent(a, b) == x / wall * 100.0;
    assert Percent(a, b) / 100.0 == x / wall;
    assert x / wall * wall == x;
  }

  /** With steady counters the points add up to exactly the CPU time spent. */
  lemma {:induction false} PointsConserveCpuTime(groups: seq<Group>)
    requires Steady(groups) && groups != []
    ensures |Deltas(groups)| == |groups| - 1
    ensures |groups| > 1 ==> Deltas(groups)[|groups| - 2].timestamp == groups[|groups| - 1].ts
    ensures CpuSeconds(Deltas(groups), groups[0].ts) == groups[|groups| - 1].total - groups[0].total
  {
    if |groups| > 1 {
      var front, a, b := groups[..|groups| - 1], groups[|groups| - 2], groups[|groups| - 1];
      PointsConserveCpuTime(front);
      PercentTimesInterval(a, b);
      var points := Deltas(groups);
      assert points[..|points| - 1] == Deltas(front);
    }
  }
}
