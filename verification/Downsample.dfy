/** Min-max downsampling of a time series into equal time buckets. */
module Downsample {
  import opened Wrappers
  import opened Arithmetic

  /** A data point; the value of an invalid point is missing. */
  datatype Point = Point(timestamp: int, value: Option<real>)

  predicate ValidPoint(p: Point) { p.timestamp != 0 && p.value.Some? }

  /** The buckets: where the series starts, how long it lasts, and how many buckets there are. */
  datatype Grid = Grid(start: int, timespan: int, bucketCount: nat)

  ghost predicate ValidGrid(g: Grid) { g.timespan != 0 && g.bucketCount > 0 }

  function FloorDiv(a: int, b: int): int
    requires b != 0
  {
    if b > 0 then a / b else (-a) / (-b)
  }

  /** The bucket of a point, or a negative number for a point before the start. */
  function BucketIndex(g: Grid, p: Point): int
    requires ValidGrid(g)
  {
    var i := FloorDiv((p.timestamp - g.start) * g.bucketCount, g.timespan);
    if i < g.bucketCount then i else g.bucketCount - 1
  }

  lemma QuotientGrows(a: int, b: int, d: nat)
    requires a <= b && d > 0
    ensures a / d <= b / d
  {
    var q, r := a / d, b / d;
    assert a == q * d + a % d && b == r * d + b % d;
    if r + 1 <= q {
      ProductGrows(r + 1, q, d);
    }
  }

  /** In a series that does not run backwards a later point is never in an earlier bucket. */
  lemma LaterPointsAreInLaterBuckets(g: Grid, p: Point, q: Point)
    requires ValidGrid(g) && g.timespan > 0 && p.timestamp <= q.timestamp
    ensures BucketIndex(g, p) <= BucketIndex(g, q)
    ensures g.start <= p.timestamp ==> 0 <= BucketIndex(g, p)
  {
    ProductGrows(p.timestamp - g.start, q.timestamp - g.start, g.bucketCount);
    QuotientGrows((p.timestamp - g.start) * g.bucketCount, (q.timestamp - g.start) * g.bucketCount, g.timespan);
    if g.start <= p.timestamp {
      ProductGrows(0, p.timestamp - g.start, g.bucketCount);
      QuotientGrows(0, (p.timestamp - g.start) * g.bucketCount, g.timespan);
    }
  }

  /** The buckets are equal intervals: bucket `k` of `n` begins `k` n-ths into the time of the series; the last has the end too. */
  lemma BucketsAreIntervals(g: Grid, p: Point, k: nat)
    requires ValidGrid(g) && g.timespan > 0 && g.start <= p.timestamp && k < g.bucketCount
    ensures BucketIndex(g, p) == k <==>
              && k * g.timespan <= (p.timestamp - g.start) * g.bucketCount
              && (k == g.bucketCount - 1 || (p.timestamp - g.start) * g.bucketCount < (k + 1) * g.timespan)
  {
    var x, d := (p.timestamp - g.start) * g.bucketCount, g.timespan;
    FloorIsExact(x, d, k);
    FloorIsExact(x, d, g.bucketCount - 1);
    FloorIsAtLeast(x, d, k);
    FloorIsAtLeast(x, d, g.bucketCount - 1);
  }

  lemma FloorIsAtLeast(x: int, d: nat, k: int)
    requires d > 0
    ensures x / d >= k <==> k * d <= x
  {
    var q := x / d;
    assert x == q * d + x % d;
    if q >= k { ProductGrows(k, q, d); } else { ProductGrows(q + 1, k, d); }
  }

  lemma FloorIsExact(x: int, d: nat, k: int)
    requires d > 0
    ensures x / d == k <==> k * d <= x < (k + 1) * d
  {
    FloorIsAtLeast(x, d, k);
    FloorIsAtLeast(x, d, k + 1);
  }

  /** The smallest and the largest point of a bucket, missing together while it is empty. */
  datatype Bucket = Bucket(min: Option<Point>, max: Option<Point>)

  predicate InBucket(g: Grid, p: Point, k: int)
    requires ValidGrid(g)
  {
    ValidPoint(p) && BucketIndex(g, p) == k
  }

  /** Among the first `n` points, `low` is the first with the smallest value of bucket `k`. */
  ghost predicate FirstLowest(g: Grid, low: Point, series: seq<Point>, n: nat, k: int)
    requires ValidGrid(g) && n <= |series|
  {
    exists i: nat :: IsFirstLowest(g, low, series, n, k, i)
  }

  ghost predicate IsFirstLowest(g: Grid, low: Point, series: seq<Point>, n: nat, k: int, i: nat)
    requires ValidGrid(g) && n <= |series|
  {
    && i < n && series[i] == low && InBucket(g, low, k)
    && (forall j :: 0 <= j < i && InBucket(g, series[j], k) ==> low.value.value < series[j].value.value)
    && (forall j :: i <= j < n && InBucket(g, series[j], k) ==> low.value.value <= series[j].value.value)
  }

  /** Among the first `n` points, `high` is the first with the largest value of bucket `k`. */
  ghost predicate FirstHighest(g: Grid, high: Point, series: seq<Point>, n: nat, k: int)
    requires ValidGrid(g) && n <= |series|
  {
    exists i: nat :: IsFirstHighest(g, high, series, n, k, i)
  }

  ghost predicate IsFirstHighest(g: Grid, high: Point, series: seq<Point>, n: nat, k: int, i: nat)
    requires ValidGrid(g) && n <= |series|
  {
    && i < n && series[i] == high && InBucket(g, high, k)
    && (forall j :: 0 <= j < i && InBucket(g, series[j], k) ==> series[j].value.value < high.value.value)
    && (forall j :: i <= j < n && InBucket(g, series[j], k) ==> series[j].value.value <= high.value.value)
  }

  /** `b` holds the first extremes of the points of bucket `k` among the first `n`. */
  ghost predicate HoldsExtremes(g: Grid, b: Bucket, series: seq<Point>, n: nat, k: int)
    requires ValidGrid(g) && n <= |series|
  {
    && (b.min.Some? <==> b.max.Some?)
    && (b.min.Some? ==> FirstLowest(g, b.min.value, series, n, k) && FirstHighest(g, b.max.value, series, n, k))
    && (b.min.Some? ==> b.min.value in series && b.max.value in series
                        && InBucket(g, b.min.value, k) && InBucket(g, b.max.value, k)
                        && b.min.value.value.value <= b.max.value.value.value)
    && (forall i :: 0 <= i < n && InBucket(g, series[i], k) ==>
          b.min.Some? && b.min.value.value.value <= series[i].value.value <= b.max.value.value.value)
  }

  /** A bucket after one more of its points. */
  function WithPoint(b: Bucket, p: Point): Bucket
    requires p.value.Some? && (b.min.Some? ==> b.min.value.value.Some?) && (b.max.Some? ==> b.max.value.value.Some?)
  {
    Bucket(if b.min.None? || p.value.value < b.min.value.value.value then Some(p) else b.min,
           if b.max.None? || p.value.value > b.max.value.value.value then Some(p) else b.max)
  }

  lemma AddPoint(g: Grid, b: Bucket, series: seq<Point>, n: nat, k: int)
    requires ValidGrid(g) && n < |series| && HoldsExtremes(g, b, series, n, k) && InBucket(g, series[n], k)
    ensures HoldsExtremes(g, WithPoint(b, series[n]), series, n + 1, k)
  {
    var p, after := series[n], WithPoint(b, series[n]);
    if b.min.Some? {
      var i: nat :| IsFirstLowest(g, b.min.value, series, n, k, i);
      var j: nat :| IsFirstHighest(g, b.max.value, series, n, k, j);
      assert IsFirstLowest(g, after.min.value, series, n + 1, k, if p.value.value < b.min.value.value.value then n else i);
      assert IsFirstHighest(g, after.max.value, series, n + 1, k, if p.value.value > b.max.value.value.value then n else j);
    } else {
      assert IsFirstLowest(g, p, series, n + 1, k, n) && IsFirstHighest(g, p, series, n + 1, k, n);
    }
  }

  lemma SkipPoint(g: Grid, b: Bucket, series: seq<Point>, n: nat, k: int)
    requires ValidGrid(g) && n < |series| && HoldsExtremes(g, b, series, n, k) && !InBucket(g, series[n], k)
    ensures HoldsExtremes(g, b, series, n + 1, k)
  {
    if b.min.Some? {
      var i: nat :| IsFirstLowest(g, b.min.value, series, n, k, i);
      var j: nat :| IsFirstHighest(g, b.max.value, series, n, k, j);
      assert IsFirstLowest(g, b.min.value, series, n + 1, k, i) && IsFirstHighest(g, b.max.value, series, n + 1, k, j);
    }
  }

  method FillBuckets(g: Grid, series: seq<Point>) returns (buckets: array<Bucket>)
    requires ValidGrid(g)
    ensures fresh(buckets) && buckets.Length == g.bucketCount
    ensures forall k :: 0 <= k < buckets.Length ==> HoldsExtremes(g, buckets[k], series, |series|, k)
  {
    buckets := new Bucket[g.bucketCount](_ => Bucket(None, None));
    for n := 0 to |series|
      invariant forall k :: 0 <= k < buckets.Length ==> HoldsExtremes(g, buckets[k], series, n, k)
    {
      var p := series[n];
      var bucketIndex := BucketIndex(g, p);
      forall k | 0 <= k < buckets.Length && !InBucket(g, p, k) {
        SkipPoint(g, buckets[k], series, n, k);
      }
      if ValidPoint(p) && bucketIndex >= 0 {
        AddPoint(g, buckets[bucketIndex], series, n, bucketIndex);
        buckets[bucketIndex] := WithPoint(buckets[bucketIndex], p);
      }
    }
  }

  // ----- the output -----

  /** What a bucket contributes: nothing, its one extreme, or both in time order. */
  function EmitBucket(b: Bucket): seq<Point> {
    if b.min.None? || b.max.None? then []
    else if b.min == b.max then [b.min.value]
    else if b.min.value.timestamp <= b.max.value.timestamp then [b.min.value, b.max.value]
    else [b.max.value, b.min.value]
  }

  ghost predicate RisesAt(s: seq<Point>, i: int, j: int) {
    0 <= i <= j < |s| ==> s[i].timestamp <= s[j].timestamp
  }

  /** Timestamps never fall. */
  ghost predicate Rising(s: seq<Point>) {
    forall i, j :: RisesAt(s, i, j)
  }

  lemma RisingConcat(a: seq<Point>, b: seq<Point>)
    requires Rising(a) && Rising(b)
    requires forall p, q :: p in a && q in b ==> p.timestamp <= q.timestamp
    ensures Rising(a + b)
  {
    forall i, j
      ensures RisesAt(a + b, i, j)
    {
      assert RisesAt(a, i, j) && RisesAt(b, i - |a|, j - |a|);
    }
  }

  lemma EmitIsRising(b: Bucket)
    ensures Rising(EmitBucket(b))
  {
  }

  /** The points before bucket `k`, or the first point of the series. */
  ghost predicate BeforeBucket(g: Grid, p: Point, k: int)
    requires ValidGrid(g)
  {
    p.timestamp == g.start || (ValidPoint(p) && 0 <= BucketIndex(g, p) < k)
  }

  /** Everything of earlier buckets comes no later than what bucket `k` contributes. */
  lemma BucketFollows(g: Grid, b: Bucket, series: seq<Point>, k: nat, out: seq<Point>)
    requires ValidGrid(g) && g.timespan > 0 && HoldsExtremes(g, b, series, |series|, k)
    requires forall p :: p in series ==> g.start <= p.timestamp
    requires Rising(out) && forall p :: p in out ==> BeforeBucket(g, p, k)
    ensures Rising(out + EmitBucket(b))
    ensures forall p :: p in out + EmitBucket(b) ==> BeforeBucket(g, p, k + 1)
  {
    forall p, q | p in out && q in EmitBucket(b)
      ensures p.timestamp <= q.timestamp
    {
      assert q in series && InBucket(g, q, k);
      if q.timestamp < p.timestamp {
        LaterPointsAreInLaterBuckets(g, q, p);
      }
    }
    EmitIsRising(b);
    RisingConcat(out, EmitBucket(b));
  }

  /** Extremes of the buckets are in the output so far. */
  ghost predicate Shows(out: seq<Point>, b: Bucket) {
    b.min.Some? && b.max.Some? ==> b.min.value in out && b.max.value in out
  }

  method EmitBuckets(g: Grid, series: seq<Point>, buckets: seq<Bucket>) returns (out: seq<Point>)
    requires ValidGrid(g) && |buckets| == g.bucketCount && series != [] && g.start == series[0].timestamp
    requires forall k :: 0 <= k < |buckets| ==> HoldsExtremes(g, buckets[k], series, |series|, k)
    ensures 1 <= |out| <= 1 + 2 * g.bucketCount && out[0] == series[0]
    ensures forall p :: p in out ==> p in series
    ensures forall p :: p in out[1..] ==> p.timestamp != 0 && p.value.Some?
    ensures forall k :: 0 <= k < |buckets| ==> Shows(out, buckets[k])
    ensures g.timespan > 0 && (forall p :: p in series ==> g.start <= p.timestamp) ==> Rising(out)
  {
    out := [series[0]];
    for k := 0 to |buckets|
      invariant 1 <= |out| <= 1 + 2 * k && out[0] == series[0]
      invariant forall p :: p in out ==> p in series
      invariant forall p :: p in out[1..] ==> p.timestamp != 0 && p.value.Some?
      invariant forall l :: 0 <= l < k ==> Shows(out, buckets[l])
      invariant g.timespan > 0 && (forall p :: p in series ==> g.start <= p.timestamp) ==>
                  Rising(out) && forall p :: p in out ==> BeforeBucket(g, p, k)
    {
      if g.timespan > 0 && (forall p :: p in series ==> g.start <= p.timestamp) {
        BucketFollows(g, buckets[k], series, k, out);
      }
      assert (out + EmitBucket(buckets[k]))[1..] == out[1..] + EmitBucket(buckets[k]);
      out := out + EmitBucket(buckets[k]);
    }
  }

  lemma RisingBounds(series: seq<Point>)
    requires Rising(series) && series != []
    ensures forall p :: p in series ==> series[0].timestamp <= p.timestamp <= series[|series| - 1].timestamp
  {
    forall p | p in series
      ensures series[0].timestamp <= p.timestamp <= series[|series| - 1].timestamp
    {
      var i :| 0 <= i < |series| && series[i] == p;
      assert RisesAt(series, 0, i) && RisesAt(series, i, |series| - 1);
    }
  }

  ghost predicate SameBucket(g: Grid, p: Point, q: Point) {
    ValidGrid(g) && BucketIndex(g, p) == BucketIndex(g, q)
  }

  /** Within the bucket of a point the result reaches at least as low and at least as high. */
  ghost predicate Covers(g: Grid, out: seq<Point>, p: Point)
    requires p.value.Some?
  {
    && (exists q :: q in out && SameBucket(g, p, q) && q.value.Some? && q.value.value <= p.value.value)
    && (exists q :: q in out && SameBucket(g, p, q) && q.value.Some? && p.value.value <= q.value.value)
  }

  lemma BucketCovers(g: Grid, series: seq<Point>, buckets: seq<Bucket>, out: seq<Point>, p: Point)
    requires ValidGrid(g) && g.timespan > 0 && |buckets| == g.bucketCount && p in series && ValidPoint(p)
    requires g.start <= p.timestamp
    requires forall k :: 0 <= k < |buckets| ==> HoldsExtremes(g, buckets[k], series, |series|, k)
    requires forall k :: 0 <= k < |buckets| ==> Shows(out, buckets[k])
    ensures Covers(g, out, p)
  {
    LaterPointsAreInLaterBuckets(g, p, p);
    var k := BucketIndex(g, p);
    var i :| 0 <= i < |series| && series[i] == p;
    assert InBucket(g, series[i], k) && HoldsExtremes(g, buckets[k], series, |series|, k) && Shows(out, buckets[k]);
    var q, r := buckets[k].min.value, buckets[k].max.value;
    assert q in out && r in out && SameBucket(g, p, q) && SameBucket(g, p, r);
  }

  lemma CoversMore(g: Grid, out: seq<Point>, last: Point)
    ensures forall p: Point :: p.value.Some? && Covers(g, out, p) ==> Covers(g, out + [last], p)
  {
    forall p: Point | p.value.Some? && Covers(g, out, p)
      ensures Covers(g, out + [last], p)
    {
      var q :| q in out && SameBucket(g, p, q) && q.value.Some? && q.value.value <= p.value.value;
      var r :| r in out && SameBucket(g, p, r) && r.value.Some? && p.value.value <= r.value.value;
      assert q in out + [last] && r in out + [last];
    }
  }

  predicate Usable(series: seq<Point>) {
    series != [] && series[0].timestamp != 0 && series[|series| - 1].timestamp != 0
  }

  /** The time of a series, in as many intervals as give two points each besides the ends, and at least one. */
  function IntervalsOf(series: seq<Point>, maxPoints: int): Grid
    requires series != []
  {
    var span := series[|series| - 1].timestamp - series[0].timestamp;
    Grid(series[0].timestamp, if span == 0 then 1 else span, if maxPoints >= 4 then (maxPoints - 2) / 2 else 1)
  }

  /** There are as many intervals as the result has room for. */
  lemma IntervalsFillResult(series: seq<Point>, maxPoints: int)
    requires series != []
    ensures var g := IntervalsOf(series, maxPoints);
            && g.start == series[0].timestamp && g.bucketCount >= 1 && g.timespan != 0
            && (series[|series| - 1].timestamp != g.start ==> g.start + g.timespan == series[|series| - 1].timestamp)
            && (maxPoints >= 4 ==> 2 * g.bucketCount + 2 <= maxPoints < 2 * (g.bucketCount + 1) + 2)
  {
  }

  /**
   * Reduce a series to few points. All of them are points of the series, beginning with its first
   * and ending with its last. When timestamps never fall, neither do those of the result, and with
   * the time of the series divided into half as many equal intervals as there are points between the
   * ends, no point is below or above everything in the result that is in its interval.
   */
  method DownsampleMinMaxOrdered(series: seq<Point>, maxPoints: int) returns (out: seq<Point>)
    ensures |series| <= maxPoints || !Usable(series) ==> out == series
    ensures forall p :: p in out ==> p in series
    ensures series != [] ==> out != [] && out[0] == series[0] && out[|out| - 1] == series[|series| - 1]
    ensures maxPoints >= 4 && Usable(series) ==> |out| <= maxPoints
    ensures Usable(series) && |series| > maxPoints ==>
              |out| >= 2 && forall p :: p in out[1..|out| - 1] ==> p.timestamp != 0 && p.value.Some?
    ensures Rising(series) ==> Rising(out)
    ensures Rising(series) && Usable(series) && |series| > maxPoints ==>
              forall p :: p in series && ValidPoint(p) ==> Covers(IntervalsOf(series, maxPoints), out, p)
  {
    if series == [] || |series| <= maxPoints || !Usable(series) {
      out := series;
      return;
    }
    var first, last := series[0], series[|series| - 1];
    var timespan := if last.timestamp - first.timestamp != 0 then last.timestamp - first.timestamp else 1;
    var bucketCount := if (maxPoints - 2) / 2 > 1 then (maxPoints - 2) / 2 else 1;
    var g := Grid(first.timestamp, timespan, bucketCount);
    IntervalsFillResult(series, maxPoints);
    assert g == IntervalsOf(series, maxPoints);
    var buckets := FillBuckets(g, series);
    ghost var contents := buckets[..];
    if Rising(series) { RisingBounds(series); }
    out := EmitBuckets(g, series, buckets[..]);
    if Rising(series) { SeriesIsCovered(g, series, contents, out); }
    assert (out + [last])[1..|out|] == out[1..];
    out := out + [last];
  }

  /** Adding the last point keeps the result in order, and every bucket shows its extremes. */
  lemma SeriesIsCovered(g: Grid, series: seq<Point>, buckets: seq<Bucket>, out: seq<Point>)
    requires series != [] && Rising(series) && Rising(out) && forall p :: p in out ==> p in series
    requires ValidGrid(g) && g.timespan > 0 && g.start == series[0].timestamp && |buckets| == g.bucketCount
    requires forall k :: 0 <= k < |buckets| ==> HoldsExtremes(g, buckets[k], series, |series|, k)
    requires forall k :: 0 <= k < |buckets| ==> Shows(out, buckets[k])
    ensures Rising(out + [series[|series| - 1]])
    ensures forall p :: p in series && ValidPoint(p) ==> Covers(g, out + [series[|series| - 1]], p)
  {
    RisingBounds(series);
    RisingConcat(out, [series[|series| - 1]]);
    forall p | p in series && ValidPoint(p)
      ensures Covers(g, out, p)
    {
      BucketCovers(g, series, buckets, out, p);
    }
    CoversMore(g, out, series[|series| - 1]);
  }
}
