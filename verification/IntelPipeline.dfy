/** From log entries to the hourly series: window filter, hour buckets, axis choice, re-bucketing. */
module IntelPipeline {
  import opened EntryFilter
  import opened Sequences
  import opened Telemetry
  import opened Text
  import opened IntelAxis

  function Parsed(es: seq<LogEntry>): seq<LogEntry> {
    Select(es, e => IsParsed(e))
  }

  function HourOf(e: LogEntry): int {
    Truncate(e.time, HOUR)
  }

  /** hourly has one bucket per hour with a parsed entry, holding the total of that hour. */
  ghost predicate IsHourly(hourly: map<int, Tally>, es: seq<LogEntry>) {
    Tallies(hourly, Parsed(es), HourOf)
  }

  // ---------- hour buckets ----------

  method HourBuckets(entries: seq<LogEntry>) returns (hourly: map<int, Tally>)
    ensures IsHourly(hourly, entries)
  {
    hourly := map[];
    for i := 0 to |entries|
      invariant IsHourly(hourly, entries[..i])
    {
      var e := entries[i];
      assert entries[..i + 1] == entries[..i] + [e];
      SelectAppend(entries[..i], e, x => IsParsed(x));
      if e.time != ZERO_TIME {
        TalliesStep(hourly, Parsed(entries[..i]), e, HourOf);
        hourly := Bump(hourly, HourOf(e), One(e));
      }
    }
    assert entries[..|entries|] == entries;
  }

  /** Go visits a map in any order: some listing of the keys. */
  method Iterate(keys: set<int>) returns (order: seq<int>)
    ensures Lists(order, keys)
  {
    order := [];
    var rest := keys;
    while rest != {}
      invariant rest <= keys && Lists(order, keys - rest)
    {
      var k := Pick(rest);
      order := order + [k];
      rest := rest - {k};
    }
  }

  // ---------- the bounds of the data ----------

  /** The minimum as the loop keeps it: the zero time doubles as "nothing seen yet". */
  function MinSeen(order: seq<int>): int {
    if order == [] then ZERO_TIME
    else
      var m, h := MinSeen(order[..|order| - 1]), order[|order| - 1];
      if m == ZERO_TIME || h < m then h else m
  }

  function MaxSeen(order: seq<int>): int {
    if order == [] then ZERO_TIME
    else
      var m, h := MaxSeen(order[..|order| - 1]), order[|order| - 1];
      if m == ZERO_TIME || m < h then h else m
  }

  method HourlyBounds(order: seq<int>) returns (min: int, max: int)
    ensures min == MinSeen(order) && max == MaxSeen(order)
  {
    min, max := ZERO_TIME, ZERO_TIME;
    for i := 0 to |order|
      invariant min == MinSeen(order[..i]) && max == MaxSeen(order[..i])
    {
      var hour := order[i];
      assert order[..i + 1][..i] == order[..i];
      if min == ZERO_TIME || hour < min {
        min := hour;
      }
      if max == ZERO_TIME || max < hour {
        max := hour;
      }
    }
    assert order[..|order|] == order;
  }

  ghost predicate IsLeast(x: int, s: set<int>) {
    x in s && forall y :: y in s ==> x <= y
  }

  ghost predicate IsGreatest(x: int, s: set<int>) {
    x in s && forall y :: y in s ==> y <= x
  }

  /** Whatever has been seen, the result is the zero time or one of the hours. */
  lemma {:induction false} SeenIsSome(order: seq<int>)
    ensures MinSeen(order) == ZERO_TIME || MinSeen(order) in order
    ensures MaxSeen(order) == ZERO_TIME || MaxSeen(order) in order
  {
    if order != [] {
      SeenIsSome(order[..|order| - 1]);
    }
  }

  /** A least hour other than the zero time is found in every order. */
  lemma {:induction false} MinSeenIsLeast(order: seq<int>, x: int)
    requires x in order && x != ZERO_TIME && forall y :: y in order ==> x <= y
    ensures MinSeen(order) == x
  {
    var init, h := order[..|order| - 1], order[|order| - 1];
    InitOrLast(order, x);
    InitOrLast(order, h);
    InitOrLast(order, MinSeen(init));
    SeenIsSome(init);
    if x in init {
      forall y | y in init ensures y in order {
        InitOrLast(order, y);
      }
      MinSeenIsLeast(init, x);
    }
  }

  lemma {:induction false} MaxSeenIsGreatest(order: seq<int>, x: int)
    requires x in order && x != ZERO_TIME && forall y :: y in order ==> y <= x
    ensures MaxSeen(order) == x
  {
    var init, h := order[..|order| - 1], order[|order| - 1];
    InitOrLast(order, x);
    InitOrLast(order, h);
    InitOrLast(order, MaxSeen(init));
    SeenIsSome(init);
    if x in init {
      forall y | y in init ensures y in order {
        InitOrLast(order, y);
      }
      MaxSeenIsGreatest(init, x);
    }
  }

  function ChosenStart(w: Window, order: seq<int>): int {
    if w.start == ZERO_TIME then MinSeen(order) else w.start
  }

  function ChosenEnd(w: Window, order: seq<int>): int {
    if w.end != ZERO_TIME then w.end
    else if MaxSeen(order) == ZERO_TIME then ZERO_TIME
    else MaxSeen(order) + HOUR
  }

  // ---------- re-bucketing ----------

  /** Truncation to the step, as the key of a bucket. */
  function At(step: int): int -> int
    requires step > 0
  {
    t => Truncate(t, step)
  }

  /** For each bucket, what the hours that fall on it add up to. */
  function SeriesOf(order: seq<int>, hourly: map<int, Tally>, buckets: seq<int>, at: int -> int): (r: seq<Tally>)
    ensures |r| == |buckets|
    ensures forall i :: 0 <= i < |r| ==> r[i] == Gathered(hourly, order, at, buckets[i])
  {
    if buckets == [] then []
    else SeriesOf(order, hourly, buckets[..|buckets| - 1], at) + [Gathered(hourly, order, at, buckets[|buckets| - 1])]
  }

  function AddAll(series: seq<Tally>): Tally {
    if series == [] then NOTHING else AddAll(series[..|series| - 1]).Plus(series[|series| - 1])
  }

  /** The middle loop of intelHourlySeries: every hour is added to its bucket, if it has one. */
  method Rebucket(hourly: map<int, Tally>, buckets: seq<int>, at: int -> int, order: seq<int>)
      returns (aggregated: map<int, Tally>)
    requires Lists(order, hourly.Keys)
    ensures forall b :: b in buckets ==> b in aggregated && aggregated[b] == Gathered(hourly, order, at, b)
  {
    aggregated := map b | b in buckets :: NOTHING;
    for i := 0 to |order|
      invariant aggregated.Keys == set b | b in buckets
      invariant forall b :: b in aggregated ==> aggregated[b] == Gathered(hourly, order[..i], at, b)
    {
      var hour := order[i];
      var bucket := at(hour);
      assert order[..i + 1] == order[..i] + [hour];
      forall b | b in aggregated ensures Gathered(hourly, order[..i + 1], at, b)
        == Gathered(hourly, order[..i], at, b).Plus(if bucket == b then hourly[hour] else NOTHING)
      {
        GatheredAppend(hourly, order[..i], hour, at, b);
      }
      if bucket in aggregated {
        aggregated := aggregated[bucket := aggregated[bucket].Plus(hourly[hour])];
      }
    }
    assert order[..|order|] == order;
  }

  method HourlySeries(hourly: map<int, Tally>, buckets: seq<int>, at: int -> int, order: seq<int>)
      returns (result: seq<Tally>)
    requires Lists(order, hourly.Keys)
    ensures result == SeriesOf(order, hourly, buckets, at)
  {
    result := [];
    if |buckets| == 0 {
      return;
    }
    var aggregated := Rebucket(hourly, buckets, at, order);
    for i := 0 to |buckets|
      invariant result == SeriesOf(order, hourly, buckets[..i], at)
    {
      ghost var bs := buckets[..i + 1];
      assert bs[..|bs| - 1] == buckets[..i] && bs[|bs| - 1] == buckets[i];
      assert buckets[i] in buckets;
      result := result + [aggregated[buckets[i]]];
    }
    assert buckets[..|buckets|] == buckets;
  }

  /** intelSpark: the connections that fall on each bucket of a (shortened) axis, labelled by day or by time of day. */
  method Spark(hourly: map<int, Tally>, buckets: seq<int>, at: int -> int, order: seq<int>,
               step: int, format: (int, bool) -> Str) returns (values: seq<int>, labels: seq<Str>)
    requires Lists(order, hourly.Keys)
    ensures |values| == |labels| == |buckets|
    ensures forall i :: 0 <= i < |values| ==> values[i] == Gathered(hourly, order, at, buckets[i]).connections
    ensures forall i :: 0 <= i < |labels| ==> labels[i] == format(buckets[i], step >= DAY)
  {
    values, labels := [], [];
    if |buckets| == 0 {
      return;
    }
    var counts: map<int, int> := map[];
    for i := 0 to |order|
      invariant forall b :: (if b in counts then counts[b] else 0)
                         == Gathered(hourly, order[..i], at, b).connections
    {
      var hour := order[i];
      var bucket := at(hour);
      assert order[..i + 1] == order[..i] + [hour];
      forall b ensures Gathered(hourly, order[..i + 1], at, b)
        == Gathered(hourly, order[..i], at, b).Plus(if bucket == b then hourly[hour] else NOTHING)
      {
        GatheredAppend(hourly, order[..i], hour, at, b);
      }
      counts := counts[bucket := (if bucket in counts then counts[bucket] else 0) + hourly[hour].connections];
    }
    assert order[..|order|] == order;
    for i := 0 to |buckets|
      invariant |values| == |labels| == i
      invariant forall j :: 0 <= j < i ==> values[j] == Gathered(hourly, order, at, buckets[j]).connections
      invariant forall j :: 0 <= j < i ==> labels[j] == format(buckets[j], step >= DAY)
    {
      var b := buckets[i];
      labels := labels + [format(b, step >= DAY)];
      values := values + [if b in counts then counts[b] else 0];
    }
  }

  // ---------- a bucket is exactly its entries ----------

  /** The key that sees only whole hours. */
  ghost predicate SeesHours(at: int -> int) {
    forall t :: at(Truncate(t, HOUR)) == at(t)
  }

  lemma AxisSeesHours(start: int, end: int, maxPoints: int)
    requires maxPoints >= 1 && !Empty(start, end)
    ensures AxisOf(start, end, maxPoints).step > 0 && SeesHours(At(AxisOf(start, end, maxPoints).step))
  {
    var step := AxisOf(start, end, maxPoints).step;
    forall t ensures At(step)(Truncate(t, HOUR)) == At(step)(t) {
      AxisRefinesHours(start, end, maxPoints, t);
    }
  }

  /** Summing whole hours per bucket gives the entries of the bucket, whatever the visiting order. */
  lemma BucketIsItsEntries(es: seq<LogEntry>, hourly: map<int, Tally>, order: seq<int>, at: int -> int, b: int)
    requires IsHourly(hourly, es) && Lists(order, hourly.Keys) && SeesHours(at)
    ensures Gathered(hourly, order, at, b) == Total(Group(Parsed(es), (e: LogEntry) => at(e.time), b))
  {
    GatheredIsGroup(hourly, Parsed(es), HourOf, order, at, (e: LogEntry) => at(e.time), b);
  }

  /** So the spark shows the connections of the last points of the series, up to thirty of them. */
  lemma SparkIsTheTailOfTheSeries(es: seq<LogEntry>, hourly: map<int, Tally>, o1: seq<int>, o2: seq<int>,
                                  buckets: seq<int>, at: int -> int, i: nat)
    requires IsHourly(hourly, es) && Lists(o1, hourly.Keys) && Lists(o2, hourly.Keys) && SeesHours(at)
    requires i < |SparkBuckets(buckets)|
    ensures |SparkBuckets(buckets)| == (if |buckets| < SPARK_MAX_BUCKETS then |buckets| else SPARK_MAX_BUCKETS)
    ensures Gathered(hourly, o1, at, SparkBuckets(buckets)[i])
         == SeriesOf(o2, hourly, buckets, at)[|buckets| - |SparkBuckets(buckets)| + i]
  {
    var b := SparkBuckets(buckets)[i];
    assert b == buckets[|buckets| - |SparkBuckets(buckets)| + i];
    BucketIsItsEntries(es, hourly, o1, at, b);
    BucketIsItsEntries(es, hourly, o2, at, b);
  }

  lemma {:induction false} AddAllIsSum(buckets: seq<int>, series: seq<Tally>, f: int -> Tally)
    requires |series| == |buckets| && forall i :: 0 <= i < |series| ==> series[i] == f(buckets[i])
    ensures AddAll(series) == Sum(buckets, f)
  {
    if series != [] {
      AddAllIsSum(buckets[..|buckets| - 1], series[..|series| - 1], f);
    }
  }

  /** On distinct buckets that catch every parsed entry, the series adds up to exactly those entries. */
  lemma SeriesConserves(es: seq<LogEntry>, hourly: map<int, Tally>, order: seq<int>, buckets: seq<int>, at: int -> int)
    requires IsHourly(hourly, es) && Lists(order, hourly.Keys) && SeesHours(at) && Distinct(buckets)
    requires forall e :: e in Parsed(es) ==> at(e.time) in buckets
    ensures AddAll(SeriesOf(order, hourly, buckets, at)) == Total(Parsed(es))
  {
    var series := SeriesOf(order, hourly, buckets, at);
    var coarse: LogEntry -> int := (e: LogEntry) => at(e.time);
    var f: int -> Tally := b => Total(Group(Parsed(es), coarse, b));
    forall i | 0 <= i < |series| ensures series[i] == f(buckets[i]) {
      BucketIsItsEntries(es, hourly, order, at, buckets[i]);
    }
    AddAllIsSum(buckets, series, f);
    BucketsAddUp(Parsed(es), coarse, buckets);
  }

  /** The series of the axis from start to end; an empty axis has an empty series. */
  function AxisSeries(order: seq<int>, hourly: map<int, Tally>, start: int, end: int, maxPoints: int): seq<Tally>
    requires maxPoints >= 1
  {
    var axis := AxisOf(start, end, maxPoints);
    if axis.step <= 0 then [] else SeriesOf(order, hourly, axis.buckets, At(axis.step))
  }

  lemma SpanConserves(es: seq<LogEntry>, hourly: map<int, Tally>, order: seq<int>,
                      start: int, end: int, maxPoints: int)
    requires IsHourly(hourly, es) && Lists(order, hourly.Keys) && maxPoints >= 1 && !Empty(start, end)
    requires forall e :: e in Parsed(es) ==> start <= e.time <= end
    ensures AddAll(AxisSeries(order, hourly, start, end, maxPoints)) == Total(Parsed(es))
  {
    var axis := AxisOf(start, end, maxPoints);
    AxisSeesHours(start, end, maxPoints);
    BucketsAscend(start, end, maxPoints);
    forall e | e in Parsed(es) ensures At(axis.step)(e.time) in axis.buckets {
      AxisCovers(start, end, maxPoints, e.time);
    }
    SeriesConserves(es, hourly, order, axis.buckets, At(axis.step));
  }

  // ---------- exactly when the pipeline conserves ----------

  /**
   * The guard: no parsed entry at all, or the sentinel zero time cannot be mistaken for a bound.
   * It fails only for data whose first hour is the zero time (when no start is given), or whose
   * last hour is the zero time or the hour before it (when no end is given).
   */
  ghost predicate BoundsAreClear(w: Window, hours: set<int>) {
    || hours == {}
    || (&& (w.start == ZERO_TIME ==> !IsLeast(ZERO_TIME, hours))
        && (w.end == ZERO_TIME ==> !IsGreatest(ZERO_TIME, hours) && !IsGreatest(-HOUR, hours)))
  }

  function SeriesFor(w: Window, hourly: map<int, Tally>, o1: seq<int>, o2: seq<int>, maxPoints: int): seq<Tally>
    requires maxPoints >= 1
  {
    AxisSeries(o2, hourly, ChosenStart(w, o1), ChosenEnd(w, o1), maxPoints)
  }

  /** The series equals the parsed entries for every order of the two map iterations. */
  ghost predicate AlwaysConserves(w: Window, es: seq<LogEntry>, hourly: map<int, Tally>, maxPoints: int)
    requires maxPoints >= 1
  {
    forall o1, o2 :: Lists(o1, hourly.Keys) && Lists(o2, hourly.Keys) ==>
      AddAll(SeriesFor(w, hourly, o1, o2, maxPoints)) == Total(Parsed(es))
  }

  lemma {:induction false} LeastHourExists(s: set<int>) returns (x: int)
    requires s != {}
    ensures IsLeast(x, s)
    decreases s
  {
    x := Any(s);
    assert s == (s - {x}) + {x};
    if s - {x} != {} {
      var y := LeastHourExists(s - {x});
      if y < x {
        x := y;
      }
    }
  }

  lemma {:induction false} GreatestHourExists(s: set<int>) returns (x: int)
    requires s != {}
    ensures IsGreatest(x, s)
    decreases s
  {
    x := Any(s);
    assert s == (s - {x}) + {x};
    if s - {x} != {} {
      var y := GreatestHourExists(s - {x});
      if x < y {
        x := y;
      }
    }
  }

  lemma {:induction false} ListingExists(s: set<int>) returns (order: seq<int>)
    ensures Lists(order, s)
    decreases s
  {
    order := [];
    if s != {} {
      var x: int := Any(s);
      order := ListingExists(s - {x});
      order := order + [x];
    }
  }

  lemma ParsedHourIsListed(es: seq<LogEntry>, hourly: map<int, Tally>, e: LogEntry)
    requires IsHourly(hourly, es) && e in es && IsParsed(e)
    ensures HourOf(e) in hourly
  {
    KeyOccurs(Parsed(es), HourOf, e);
  }

  lemma ListedHourHasEntry(es: seq<LogEntry>, hourly: map<int, Tally>, h: int) returns (e: LogEntry)
    requires IsHourly(hourly, es) && h in hourly
    ensures e in es && IsParsed(e) && HourOf(e) == h
  {
    var ps := Parsed(es);
    var i :| 0 <= i < |ps| && HourOf(ps[i]) == h;
    e := ps[i];
  }

  lemma ClearBoundsSpan(w: Window, es: seq<LogEntry>, hourly: map<int, Tally>, order: seq<int>)
    requires IsHourly(hourly, es) && Lists(order, hourly.Keys) && hourly.Keys != {}
    requires forall e :: e in es ==> InWindow(w, e)
    requires BoundsAreClear(w, hourly.Keys)
    ensures !Empty(ChosenStart(w, order), ChosenEnd(w, order))
    ensures forall e :: e in es && IsParsed(e) ==> ChosenStart(w, order) <= e.time <= ChosenEnd(w, order)
  {
    var lo := LeastHourExists(hourly.Keys);
    var hi := GreatestHourExists(hourly.Keys);
    if w.start == ZERO_TIME {
      MinSeenIsLeast(order, lo);
    }
    if w.end == ZERO_TIME {
      MaxSeenIsGreatest(order, hi);
    }
    forall e | e in es && IsParsed(e) ensures ChosenStart(w, order) <= e.time <= ChosenEnd(w, order) {
      ParsedHourIsListed(es, hourly, e);
      TruncateBounds(e.time, HOUR);
    }
    var e := ListedHourHasEntry(es, hourly, lo);
  }

  lemma ClearBoundsConserve(w: Window, es: seq<LogEntry>, hourly: map<int, Tally>, o1: seq<int>, o2: seq<int>,
                            maxPoints: int)
    requires IsHourly(hourly, es) && Lists(o1, hourly.Keys) && Lists(o2, hourly.Keys)
    requires maxPoints >= 1 && forall e :: e in es ==> InWindow(w, e)
    requires BoundsAreClear(w, hourly.Keys)
    ensures AddAll(SeriesFor(w, hourly, o1, o2, maxPoints)) == Total(Parsed(es))
  {
    var start, end := ChosenStart(w, o1), ChosenEnd(w, o1);
    if hourly.Keys != {} {
      ClearBoundsSpan(w, es, hourly, o1);
      SpanConserves(es, hourly, o2, start, end, maxPoints);
    } else {
      NoHoursNoEntries(es, hourly);
      if !Empty(start, end) {
        SpanConserves(es, hourly, o2, start, end, maxPoints);
      }
    }
  }

  lemma NoHoursNoEntries(es: seq<LogEntry>, hourly: map<int, Tally>)
    requires IsHourly(hourly, es) && hourly.Keys == {}
    ensures Parsed(es) == []
  {
    var ps := Parsed(es);
    if ps != [] {
      KeyOccurs(ps, HourOf, ps[0]);
    }
  }

  lemma {:induction false} TotalCounts(es: seq<LogEntry>)
    ensures Total(es).connections == |es|
  {
    if es != [] {
      TotalCounts(es[..|es| - 1]);
    }
  }

  /** Where the guard fails, some visiting order leaves the axis empty and drops every entry. */
  lemma UnclearBoundsDrop(w: Window, es: seq<LogEntry>, hourly: map<int, Tally>, maxPoints: int)
      returns (order: seq<int>)
    requires IsHourly(hourly, es) && maxPoints >= 1 && !BoundsAreClear(w, hourly.Keys)
    ensures Lists(order, hourly.Keys)
    ensures Empty(ChosenStart(w, order), ChosenEnd(w, order))
    ensures AddAll(SeriesFor(w, hourly, order, order, maxPoints)) == NOTHING != Total(Parsed(es))
  {
    var hours := hourly.Keys;
    if ZERO_TIME in hours {
      var init := ListingExists(hours - {ZERO_TIME});
      order := init + [ZERO_TIME];
      assert order[..|order| - 1] == init;
      SeenIsSome(init);
    } else {
      order := ListingExists(hours);
    }
    if w.end == ZERO_TIME && IsGreatest(-HOUR, hours) {
      MaxSeenIsGreatest(order, -HOUR);
    }
    var h :| h in hours;
    var e := ListedHourHasEntry(es, hourly, h);
    TotalCounts(Parsed(es));
  }

  /**
   * A single entry in the first hour after the zero time, and no window: its hour is the zero time, the
   * axis stays empty, and the entry is in no point of the series.
   */
  lemma FirstHourIsDropped(e: LogEntry)
    requires 0 < e.time < HOUR
    ensures var hourly := map[ZERO_TIME := One(e)];
      && IsHourly(hourly, [e]) && Lists([ZERO_TIME], hourly.Keys)
      && AxisOf(ChosenStart(NO_WINDOW, [ZERO_TIME]), ChosenEnd(NO_WINDOW, [ZERO_TIME]), MAX_SERIES_POINTS).buckets == []
      && AddAll(SeriesFor(NO_WINDOW, hourly, [ZERO_TIME], [ZERO_TIME], MAX_SERIES_POINTS)) == NOTHING
      && Total(Parsed([e])) == One(e) != NOTHING
  {
    hide Tallies, AxisOf, Group;
    FirstHourBuckets(e);
    assert [ZERO_TIME][..0] == [] && MinSeen([ZERO_TIME]) == ZERO_TIME;
    EmptyAxis(ChosenEnd(NO_WINDOW, [ZERO_TIME]));
    SelectAll([e], x => IsParsed(x));
    assert [] + [e] == [e];
    TotalAppend([], e);
  }

  lemma FirstHourBuckets(e: LogEntry)
    requires 0 < e.time < HOUR
    ensures IsHourly(map[ZERO_TIME := One(e)], [e])
  {
    TruncateUnique(e.time, HOUR, 0);
    SelectAll([e], x => IsParsed(x));
    TalliesStep(map[], [], e, HourOf);
    assert Bump(map[], HourOf(e), One(e)) == map[ZERO_TIME := One(e)];
    assert [] + [e] == [e];
  }

  lemma EmptyAxis(end: int)
    ensures AxisOf(ZERO_TIME, end, MAX_SERIES_POINTS).buckets == []
  {
  }

  /**
   * For windowed entries, the hourly series adds up to the parsed entries in every visiting order
   * exactly when the guard holds.
   */
  lemma ConservesIff(w: Window, es: seq<LogEntry>, hourly: map<int, Tally>, maxPoints: int)
    requires IsHourly(hourly, es) && maxPoints >= 1
    requires forall e :: e in es ==> InWindow(w, e)
    ensures AlwaysConserves(w, es, hourly, maxPoints) <==> BoundsAreClear(w, hourly.Keys)
  {
    if BoundsAreClear(w, hourly.Keys) {
      forall o1, o2 | Lists(o1, hourly.Keys) && Lists(o2, hourly.Keys)
        ensures AddAll(SeriesFor(w, hourly, o1, o2, maxPoints)) == Total(Parsed(es))
      {
        ClearBoundsConserve(w, es, hourly, o1, o2, maxPoints);
      }
    } else {
      var order := UnclearBoundsDrop(w, es, hourly, maxPoints);
    }
  }

  /** The stages of the handler in sequence, for the overview series. */
  method OverviewSeries(entries: seq<LogEntry>, w: Window, f: Filters, m: Matchers)
      returns (filtered: seq<LogEntry>, hourly: map<int, Tally>, series: seq<Tally>)
    ensures filtered == Select(entries, Passes(w, f, m))
    ensures IsHourly(hourly, filtered)
    ensures BoundsAreClear(w, hourly.Keys) ==> AddAll(series) == Total(Parsed(filtered))
  {
    filtered := FilterEntries(entries, w, f, m);
    hourly := HourBuckets(filtered);
    var order := Iterate(hourly.Keys);
    var axis := ChooseAxis(w, order);
    var again := Iterate(hourly.Keys);
    series := [];
    if axis.step > 0 {
      series := HourlySeries(hourly, axis.buckets, At(axis.step), again);
    }
    if BoundsAreClear(w, hourly.Keys) {
      ClearBoundsConserve(w, filtered, hourly, order, again, MAX_SERIES_POINTS);
    }
  }

  /** The axis selection of the handler: the window where it is given, the data's hours where not. */
  method ChooseAxis(w: Window, order: seq<int>) returns (axis: Axis)
    ensures axis == AxisOf(ChosenStart(w, order), ChosenEnd(w, order), MAX_SERIES_POINTS)
  {
    var dataStart, dataEnd := HourlyBounds(order);
    var axisStart, axisEnd := w.start, w.end;
    if axisStart == ZERO_TIME {
      axisStart := dataStart;
    }
    if axisEnd == ZERO_TIME {
      axisEnd := dataEnd;
      if dataEnd != ZERO_TIME {
        axisEnd := dataEnd + HOUR;
      }
    }
    axis := BuildAxis(axisStart, axisEnd, MAX_SERIES_POINTS);
  }
}
