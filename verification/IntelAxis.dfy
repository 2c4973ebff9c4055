/** The adaptive time axis: its step, its buckets and what they cover. */
module IntelAxis {
  import opened Telemetry

  const MAX_SERIES_POINTS: nat := 400
  const SPARK_MAX_BUCKETS: nat := 30
  const DAILY_STEP_THRESHOLD: int := 72 * HOUR
  /** The largest time.Duration; Time.Sub saturates here. */
  const MAX_DURATION: int := 0x7FFF_FFFF_FFFF_FFFF

  datatype Axis = Axis(buckets: seq<int>, step: int)

  function Span(start: int, end: int): int {
    if end - start > MAX_DURATION then MAX_DURATION else end - start
  }

  /** The step in whole hours, rounded up so that maxPoints steps reach past the span. */
  function StepHours(span: int, maxPoints: int): (h: int)
    requires span >= 0 && maxPoints >= 1
    ensures h >= 1
  {
    var base := if span > DAILY_STEP_THRESHOLD then 24 else 1;
    var count := span / (HOUR * base) + 1;
    if count > maxPoints then
      RoundUpIsPositive(count, maxPoints);
      base * ((count + maxPoints - 1) / maxPoints)
    else base
  }

  /**
   * Whole hours up to 72 hours, whole days above: the least number of them for which maxPoints steps hold
   * every hour or day of the span.
   */
  lemma StepMeans(span: int, maxPoints: int) returns (k: int)
    requires span >= 0 && maxPoints >= 1
    ensures var unit := if span > 259_200_000_000_000 then 24 else 1;
      var count := span / (unit * 3_600_000_000_000) + 1;
      StepHours(span, maxPoints) == unit * k && k >= 1 && k * maxPoints >= count && (k - 1) * maxPoints < count
  {
    var unit := if span > 259_200_000_000_000 then 24 else 1;
    var count := span / (unit * 3_600_000_000_000) + 1;
    if count <= maxPoints {
      return 1;
    }
    k := (count + maxPoints - 1) / maxPoints;
    TruncateBounds(count + maxPoints - 1, maxPoints);
    RoundUpIsPositive(count, maxPoints);
  }

  lemma RoundUpIsPositive(count: int, n: int)
    requires n >= 1 && count > n
    ensures (count + n - 1) / n >= 1
  {
    QuotientMonotone(n, count + n - 1, n);
    TruncateUnique(n, n, 1);
  }

  predicate Empty(start: int, end: int) {
    start == ZERO_TIME || end == ZERO_TIME || end < start
  }

  /** Everything but a single point over 106751 days or more, where the rounded-up step wraps around. */
  predicate StepFits(start: int, end: int, maxPoints: int) {
    !(maxPoints == 1 && Span(start, end) >= 106751 * DAY)
  }

  /** The axis of a non-empty range: consecutive multiples of the step up to end. */
  function AxisOf(start: int, end: int, maxPoints: int): Axis
    requires maxPoints >= 1
  {
    if Empty(start, end) then Axis([], 0)
    else
      var step := HOUR * StepHours(Span(start, end), maxPoints);
      Axis(Steps(start / step, end / step, step), step)
  }

  /** first * step, (first + 1) * step, ..., last * step. */
  function Steps(first: int, last: int, step: int): (r: seq<int>)
    ensures |r| == if last < first then 0 else last - first + 1
    ensures forall i :: 0 <= i < |r| ==> r[i] == step * (first + i)
    decreases last - first
  {
    if last < first then [] else Steps(first, last - 1, step) + [step * last]
  }

  /** The loop over the buckets, for a step that fits a time.Duration. */
  method BuildAxis(start: int, end: int, maxPoints: int) returns (axis: Axis)
    requires maxPoints >= 1 && StepFits(start, end, maxPoints)
    ensures axis == AxisOf(start, end, maxPoints)
    ensures axis.step <= MAX_DURATION
  {
    axis := Axis([], 0);
    if start == ZERO_TIME || end == ZERO_TIME || end < start {
      return;
    }
    var span := Span(start, end);
    var base := if span > DAILY_STEP_THRESHOLD then 24 else 1;
    var hours := base;
    var count := span / (HOUR * base) + 1;
    if count > maxPoints {
      hours := base * ((count + maxPoints - 1) / maxPoints);
    }
    assert hours == StepHours(span, maxPoints);
    hide StepHours, Steps;
    StepFitsIff(span, maxPoints);
    var step := HOUR * hours;
    var buckets: seq<int> := [];
    var bucket := Truncate(start, step);
    ghost var k := start / step;
    NoSteps(k, step);
    QuotientMonotone(start, end, step);
    TruncateBounds(end, step);
    while bucket <= end
      invariant bucket == step * k && start / step <= k <= end / step + 1
      invariant buckets == Steps(start / step, k - 1, step)
      decreases end - bucket
    {
      buckets := buckets + [bucket];
      MoreSteps(start / step, k, step);
      AtMostQuotient(k, end, step);
      bucket := bucket + step;
      k := k + 1;
    }
    if k <= end / step {
      MulMonotone(step, k, end / step);
    }
    axis := Axis(buckets, step);
  }

  lemma NoSteps(first: int, step: int)
    ensures Steps(first, first - 1, step) == []
  {
  }

  lemma MoreSteps(first: int, last: int, step: int)
    requires first <= last
    ensures Steps(first, last, step) == Steps(first, last - 1, step) + [step * last]
  {
  }

  lemma AtMostQuotient(k: int, t: int, step: int)
    requires step > 0 && step * k <= t
    ensures k <= t / step
  {
    QuotientMonotone(step * k, t, step);
    TruncateUnique(step * k, step, k);
  }

  // ---------- what the axis covers ----------

  /** Buckets ascend by exactly the step, and each is its own truncation. */
  ghost predicate Ascends(b: seq<int>, step: int) {
    && step > 0
    && (forall i :: 0 <= i < |b| - 1 ==> b[i + 1] == b[i] + step)
    && (forall i, j :: 0 <= i < j < |b| ==> b[i] < b[j])
    && (forall i :: 0 <= i < |b| ==> Truncate(b[i], step) == b[i])
  }

  lemma StepsAscend(first: int, last: int, step: int)
    requires step > 0
    ensures Ascends(Steps(first, last, step), step)
  {
    var b := Steps(first, last, step);
    forall i | 0 <= i < |b| - 1 ensures b[i + 1] == b[i] + step {
      assert b[i + 1] == step * (first + i + 1);
    }
    forall i, j | 0 <= i < j < |b| ensures b[i] < b[j] {
      MulMonotone(step, first + i + 1, first + j);
      assert b[i] == step * (first + i) && b[j] == step * (first + j);
    }
    forall i | 0 <= i < |b| ensures Truncate(b[i], step) == b[i] {
      TruncateUnique(b[i], step, first + i);
    }
  }

  lemma BucketsAscend(start: int, end: int, maxPoints: int)
    requires maxPoints >= 1 && !Empty(start, end)
    ensures Ascends(AxisOf(start, end, maxPoints).buckets, AxisOf(start, end, maxPoints).step)
  {
    var a := AxisOf(start, end, maxPoints);
    StepsAscend(start / a.step, end / a.step, a.step);
  }

  /** Every instant of the range falls, truncated to the step, on a bucket. */
  lemma AxisCovers(start: int, end: int, maxPoints: int, t: int)
    requires maxPoints >= 1 && !Empty(start, end) && start <= t <= end
    ensures var a := AxisOf(start, end, maxPoints);
      a.step > 0 && Truncate(t, a.step) in a.buckets
  {
    var a := AxisOf(start, end, maxPoints);
    QuotientMonotone(start, t, a.step);
    QuotientMonotone(t, end, a.step);
    assert a.buckets[t / a.step - start / a.step] == Truncate(t, a.step);
  }

  /** Truncating an hour to the axis is truncating any instant within that hour. */
  lemma AxisRefinesHours(start: int, end: int, maxPoints: int, t: int)
    requires maxPoints >= 1 && !Empty(start, end)
    ensures var step := AxisOf(start, end, maxPoints).step;
      step > 0 && Truncate(Truncate(t, HOUR), step) == Truncate(t, step)
  {
    TruncateNested(t, HOUR, StepHours(Span(start, end), maxPoints));
  }

  lemma RoundUp(count: int, n: int)
    requires n >= 1 && count >= 1
    ensures n * ((count + n - 1) / n) >= count
  {
    TruncateBounds(count + n - 1, n);
  }

  /** maxPoints steps reach past the span. */
  lemma StepsReach(span: int, maxPoints: int)
    requires span >= 0 && maxPoints >= 1
    ensures span < HOUR * StepHours(span, maxPoints) * maxPoints
  {
    var base := if span > DAILY_STEP_THRESHOLD then 24 else 1;
    var unit := HOUR * base;
    var count := span / unit + 1;
    TruncateBounds(span, unit);
    assert span < unit * count;
    if count > maxPoints {
      var factor := (count + maxPoints - 1) / maxPoints;
      RoundUp(count, maxPoints);
      MulMonotone(unit, count, maxPoints * factor);
      assert HOUR * StepHours(span, maxPoints) * maxPoints == unit * (maxPoints * factor);
    } else {
      MulMonotone(unit, count, maxPoints);
    }
  }

  /** Unless Time.Sub saturates, there is at most one bucket more than asked for. */
  lemma AxisIsBounded(start: int, end: int, maxPoints: int)
    requires maxPoints >= 1 && end - start <= MAX_DURATION && StepFits(start, end, maxPoints)
    ensures |AxisOf(start, end, maxPoints).buckets| <= maxPoints + 1
  {
    if !Empty(start, end) {
      StepsReach(end - start, maxPoints);
      QuotientsApart(start, end, HOUR * StepHours(end - start, maxPoints), maxPoints);
    }
  }

  lemma QuotientsApart(start: int, end: int, step: int, n: int)
    requires step > 0 && end - start < step * n
    ensures end / step - start / step <= n
  {
    TruncateBounds(start, step);
    TruncateBounds(end, step);
    var p, q := start / step, end / step;
    if q - p > n {
      MulMonotone(step, p + n + 1, q);
    }
  }

  /** The extra bucket can occur: 1h30 to 3h15 in two points gives the hours 1, 2 and 3. */
  lemma ExtraBucketOccurs()
    ensures |AxisOf(3 * HOUR / 2, 13 * HOUR / 4, 2).buckets| == 3
  {
    var start, end := 3 * HOUR / 2, 13 * HOUR / 4;
    assert StepHours(end - start, 2) == 1 by {
      TruncateUnique(end - start, HOUR, 1);
    }
    TruncateUnique(start, HOUR, 1);
    TruncateUnique(end, HOUR, 3);
  }

  /** The condition of the loop is exact: on a range that is not empty it holds iff the step is a time.Duration. */
  lemma FitsIff(start: int, end: int, maxPoints: int)
    requires maxPoints >= 1 && !Empty(start, end)
    ensures StepFits(start, end, maxPoints)
       <==> HOUR * StepHours(Span(start, end), maxPoints) <= 0x7FFF_FFFF_FFFF_FFFF
  {
    StepFitsIff(Span(start, end), maxPoints);
  }

  /** The rounded-up step fits a time.Duration except for a single point over 106751 days or more. */
  lemma StepFitsIff(span: int, maxPoints: int)
    requires 0 <= span <= MAX_DURATION && maxPoints >= 1
    ensures HOUR * StepHours(span, maxPoints) <= MAX_DURATION <==> !(maxPoints == 1 && span >= 106751 * DAY)
  {
    var base := if span > DAILY_STEP_THRESHOLD then 24 else 1;
    var unit := HOUR * base;
    var count := span / unit + 1;
    TruncateBounds(span, unit);
    if count > maxPoints {
      var factor := (count + maxPoints - 1) / maxPoints;
      if maxPoints == 1 {
        assert factor == count;
        assert HOUR * StepHours(span, maxPoints) == unit * count;
        if span >= 106751 * DAY {
          QuotientMonotone(106751 * DAY, span, DAY);
        } else if span > DAILY_STEP_THRESHOLD {
          QuotientMonotone(span, 106751 * DAY - 1, DAY);
          MulMonotone(DAY, count, 106751);
        }
      } else {
        HalvedAtLeast(count, maxPoints);
        MulMonotone(unit, 2 * factor, count + 1);
        assert HOUR * StepHours(span, maxPoints) == unit * factor;
      }
    }
  }

  lemma HalvedAtLeast(count: int, n: int)
    requires n >= 2 && count > n
    ensures 2 * ((count + n - 1) / n) <= count + 1
  {
    var f := (count + n - 1) / n;
    TruncateBounds(count + n - 1, n);
    RoundUpIsPositive(count, n);
    MulMonotone(n - 2, 1, f);
  }

  // ---------- the spark axis ----------

  /** The last buckets, up to thirty. */
  function SparkBuckets(buckets: seq<int>): seq<int> {
    if |buckets| > SPARK_MAX_BUCKETS then buckets[|buckets| - SPARK_MAX_BUCKETS..] else buckets
  }
}
