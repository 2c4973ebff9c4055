/** aggregateStreamAnalytics: paths, destinations, timeline, breakdowns and the selected sources. */
module StreamAnalytics {
  import opened EntryFilter
  import opened Options
  import opened Sequences
  import opened Text
  import opened Telemetry
  import opened Metrics
  import opened JoinedKeys
  import opened IntelPipeline
  import opened Sorting
  import opened SourceDimensions
  import SourcePage

  datatype PathAgg = PathAgg(
    key: Str, source: Str, listener: Str, destination: Str, protocol: Str, country: Str, metrics: Metrics)

  datatype DestinationAgg = DestinationAgg(
    metrics: Metrics, sources: set<Str>, listeners: set<Str>, protocols: set<Str>, countries: set<Str>)

  datatype PointAgg = PointAgg(metrics: Metrics, sources: set<Str>, destinations: set<Str>)

  datatype SourceAgg = SourceAgg(metrics: Metrics, protocols: set<Str>, countries: set<Str>)

  datatype Summary = Summary(
    total: int, successful: int, failed: int, bytesSent: int, bytesReceived: int, totalBytes: int,
    sessionSum: real, maxSession: real, firstSeen: Option<int>, lastSeen: Option<int>)

  datatype Seen = Seen(sources: set<Str>, listeners: set<Str>, destinations: set<Str>, countries: set<Str>)

  const NOTHING_SEEN := Seen({}, {}, {}, {})
  const NO_SUMMARY := Summary(0, 0, 0, 0, 0, 0, 0.0, 0.0, None, None)
  const UNKNOWN: Str := [85, 110, 107, 110, 111, 119, 110]
  const DIMENSIONS: nat := 7

  // ---------- the seven breakdown dimensions ----------

  /** protocol, country, port, outcome, status, source scope, destination scope. */
  function DimensionKey(f: Strings, i: nat): LogEntry -> Str {
    (e: LogEntry) =>
      if i == 0 then f.upper(e.protocol)
      else if i == 1 then f.country(e.country)
      else if i == 2 then f.port(e.upstreamAddr)
      else if i == 3 then f.outcome(e.status)
      else if i == 4 then f.decimal(e.status)
      else if i == 5 then f.scope(e.clientIP)
      else f.scope(e.upstreamAddr)
  }

  // ---------- what each row describes ----------

  ghost predicate IsPath(f: Strings, a: PathAgg, g: seq<LogEntry>) {
    && (g != [] ==>
        && a.key == PathKey(f)(g[0])
        && [a.source, a.listener, a.destination, a.protocol] == PathFields(f, g[0])
        && a.country == f.country(g[0].country))
    && a.metrics == Fold(g)
  }

  ghost predicate IsDestination(f: Strings, a: DestinationAgg, g: seq<LogEntry>) {
    && a.metrics == Fold(g)
    && a.sources == Keys(g, SourceKey(f))
    && a.listeners == Keys(g, ListenerKey())
    && a.protocols == Keys(g, ProtocolKey(f))
    && a.countries == Keys(g, CountryKey(f))
  }

  ghost predicate IsPoint(f: Strings, a: PointAgg, g: seq<LogEntry>) {
    && a.metrics == Fold(g)
    && a.sources == Keys(g, SourceKey(f))
    && a.destinations == Keys(g, DestinationKey())
  }

  ghost predicate IsSelected(f: Strings, a: SourceAgg, g: seq<LogEntry>) {
    && a.metrics == Fold(g)
    && a.protocols == Keys(g, ProtocolKey(f))
    && a.countries == Keys(g, CountryKey(f))
  }

  ghost predicate IsSummary(s: Summary, es: seq<LogEntry>) {
    && s.total == |es|
    && s.successful + s.failed == s.total
    && Tally(s.total, s.failed, s.totalBytes) == Total(es)
    && s.bytesSent == Fold(es).bytesSent && s.bytesReceived == Fold(es).bytesReceived
    && s.sessionSum == Fold(es).sessionSum
    && LongestSession(es, s.maxSession)
    && s.firstSeen == Written(Fold(es).firstSeen)
    && s.lastSeen == Written(Fold(es).lastSeen)
  }

  /** An instant as the date range writes it: in whole seconds, and not at all for the zero time. */
  function Written(t: int): Option<int> {
    if t == ZERO_TIME then None else Some(Truncate(t, SECOND))
  }

  /** The different sources, listeners, destinations and known countries. */
  ghost predicate IsSeen(f: Strings, s: Seen, es: seq<LogEntry>) {
    && s.sources == Keys(es, SourceKey(f))
    && s.listeners == Keys(es, ListenerKey())
    && s.destinations == Keys(es, DestinationKey())
    && s.countries == Keys(es, CountryKey(f)) - {UNKNOWN}
  }

  ghost function PathIs(f: Strings): (PathAgg, seq<LogEntry>) -> bool {
    (a: PathAgg, g: seq<LogEntry>) => IsPath(f, a, g)
  }

  ghost function DestinationIs(f: Strings): (DestinationAgg, seq<LogEntry>) -> bool {
    (a: DestinationAgg, g: seq<LogEntry>) => IsDestination(f, a, g)
  }

  ghost function PointIs(f: Strings): (PointAgg, seq<LogEntry>) -> bool {
    (a: PointAgg, g: seq<LogEntry>) => IsPoint(f, a, g)
  }

  // ---------- one entry added to a row ----------

  function NewPath(f: Strings, e: LogEntry): PathAgg {
    PathAgg(PathKey(f)(e), f.identity(e.clientIP), e.proxyAddr, e.upstreamAddr, f.upper(e.protocol),
            f.country(e.country), EMPTY)
  }

  function AddToPath(a: PathAgg, e: LogEntry): PathAgg {
    a.(metrics := Add(a.metrics, e))
  }

  function AddToDestination(f: Strings, a: DestinationAgg, e: LogEntry): DestinationAgg {
    DestinationAgg(Add(a.metrics, e), a.sources + {f.identity(e.clientIP)}, a.listeners + {e.proxyAddr},
                   a.protocols + {f.upper(e.protocol)}, a.countries + {f.country(e.country)})
  }

  function AddToPoint(f: Strings, a: PointAgg, e: LogEntry): PointAgg {
    PointAgg(Add(a.metrics, e), a.sources + {f.identity(e.clientIP)}, a.destinations + {e.upstreamAddr})
  }

  function AddToSelected(f: Strings, a: SourceAgg, e: LogEntry): SourceAgg {
    SourceAgg(Add(a.metrics, e), a.protocols + {f.upper(e.protocol)}, a.countries + {f.country(e.country)})
  }

  /** addAnalyticsSummary: the date range is compared with what was written, not with the instant itself. */
  function AddToSummary(s: Summary, e: LogEntry): Summary {
    Summary(
      s.total + 1,
      if e.status == STATUS_OK then s.successful + 1 else s.successful,
      if e.status == STATUS_OK then s.failed else s.failed + 1,
      s.bytesSent + e.bytesSent,
      s.bytesReceived + e.bytesReceived,
      s.totalBytes + (e.bytesSent + e.bytesReceived),
      s.sessionSum + e.sessionTime,
      if e.sessionTime > s.maxSession then e.sessionTime else s.maxSession,
      if e.time != ZERO_TIME && (s.firstSeen.None? || e.time < s.firstSeen.value) then Written(e.time) else s.firstSeen,
      if e.time != ZERO_TIME && (s.lastSeen.None? || s.lastSeen.value < e.time) then Written(e.time) else s.lastSeen)
  }

  function AddToSeen(f: Strings, s: Seen, e: LogEntry): Seen {
    var country := f.country(e.country);
    Seen(s.sources + {f.identity(e.clientIP)}, s.listeners + {e.proxyAddr}, s.destinations + {e.upstreamAddr},
         if country != UNKNOWN then s.countries + {country} else s.countries)
  }

  const NO_DESTINATION := DestinationAgg(EMPTY, {}, {}, {}, {})
  const NO_POINT := PointAgg(EMPTY, {}, {})
  const NO_SOURCE := SourceAgg(EMPTY, {}, {})

  lemma PathStep(f: Strings, a: PathAgg, g: seq<LogEntry>, e: LogEntry)
    requires IsPath(f, a, g) && (g == [] ==> a == NewPath(f, e))
    ensures IsPath(f, AddToPath(a, e), g + [e])
  {
    FoldAppend(g, e);
  }

  lemma DestinationStep(f: Strings, a: DestinationAgg, g: seq<LogEntry>, e: LogEntry)
    requires IsDestination(f, a, g)
    ensures IsDestination(f, AddToDestination(f, a, e), g + [e])
  {
    FoldAppend(g, e);
    KeysAppend(g, e, SourceKey(f));
    KeysAppend(g, e, ListenerKey());
    KeysAppend(g, e, ProtocolKey(f));
    KeysAppend(g, e, CountryKey(f));
  }

  lemma PointStep(f: Strings, a: PointAgg, g: seq<LogEntry>, e: LogEntry)
    requires IsPoint(f, a, g)
    ensures IsPoint(f, AddToPoint(f, a, e), g + [e])
  {
    FoldAppend(g, e);
    KeysAppend(g, e, SourceKey(f));
    KeysAppend(g, e, DestinationKey());
  }

  lemma SelectedStep(f: Strings, a: SourceAgg, g: seq<LogEntry>, e: LogEntry)
    requires IsSelected(f, a, g)
    ensures IsSelected(f, AddToSelected(f, a, e), g + [e])
  {
    FoldAppend(g, e);
    KeysAppend(g, e, ProtocolKey(f));
    KeysAppend(g, e, CountryKey(f));
  }

  /** Instants in the same second are written alike, so the comparison with the written one is enough. */
  lemma WrittenBounds(seen: int, t: int)
    requires t != ZERO_TIME && seen != ZERO_TIME
    ensures Written(seen).value <= t < seen ==> Written(t) == Written(seen)
    ensures seen < t ==> Written(seen).value < t
    ensures Written(seen).value < t <= seen ==> Written(t) == Written(seen)
    ensures t < Written(seen).value ==> t < seen
  {
    TruncateBounds(seen, SECOND);
    if Written(seen).value <= t <= seen {
      TruncateUnique(t, SECOND, seen / SECOND);
    }
  }

  lemma SummaryStep(s: Summary, es: seq<LogEntry>, e: LogEntry)
    requires IsSummary(s, es)
    ensures IsSummary(AddToSummary(s, e), es + [e])
  {
    FoldAppend(es, e);
    TotalAppend(es, e);
    LongestSessionStep(es, e, EMPTY.(maxSession := s.maxSession));
    DateRangeStep(s, es, e);
  }

  lemma DateRangeStep(s: Summary, es: seq<LogEntry>, e: LogEntry)
    requires s.firstSeen == Written(Fold(es).firstSeen) && s.lastSeen == Written(Fold(es).lastSeen)
    ensures AddToSummary(s, e).firstSeen == Written(Add(Fold(es), e).firstSeen)
    ensures AddToSummary(s, e).lastSeen == Written(Add(Fold(es), e).lastSeen)
  {
    hide Written, Fold;
    WrittenNone();
    var first, last := Fold(es).firstSeen, Fold(es).lastSeen;
    if e.time != ZERO_TIME && first != ZERO_TIME {
      WrittenSome(first);
      WrittenBounds(first, e.time);
    }
    if e.time != ZERO_TIME && last != ZERO_TIME {
      WrittenSome(last);
      WrittenBounds(last, e.time);
    }
  }

  lemma WrittenNone()
    ensures Written(ZERO_TIME) == None
  {
  }

  lemma WrittenSome(t: int)
    requires t != ZERO_TIME
    ensures Written(t).Some?
  {
  }

  lemma SeenStep(f: Strings, s: Seen, es: seq<LogEntry>, e: LogEntry)
    requires IsSeen(f, s, es)
    ensures IsSeen(f, AddToSeen(f, s, e), es + [e])
  {
    KeysAppend(es, e, SourceKey(f));
    KeysAppend(es, e, ListenerKey());
    KeysAppend(es, e, DestinationKey());
    KeysAppend(es, e, CountryKey(f));
  }

  // ---------- the aggregation ----------

  datatype Tables = Tables(
    paths: map<Str, PathAgg>, destinations: map<Str, DestinationAgg>, timeline: map<int, PointAgg>,
    breakdowns: seq<map<Str, Tally>>, summary: Summary, seen: Seen)

  /** The first i breakdowns tabulate es by their dimension. */
  ghost predicate BreaksDown(f: Strings, breakdowns: seq<map<Str, Tally>>, es: seq<LogEntry>, from: nat, to: nat) {
    |breakdowns| == DIMENSIONS
    && forall i :: from <= i < to && i < DIMENSIONS ==> Tallies(breakdowns[i], es, DimensionKey(f, i))
  }

  /** Every table describes exactly the entries es. */
  ghost predicate Tabulates(f: Strings, t: Tables, es: seq<LogEntry>) {
    && Grouped(t.paths, es, PathKey(f), PathIs(f))
    && Grouped(t.destinations, es, DestinationKey(), DestinationIs(f))
    && Grouped(t.timeline, Parsed(es), HourOf, PointIs(f))
    && BreaksDown(f, t.breakdowns, es, 0, DIMENSIONS)
    && IsSummary(t.summary, es)
    && IsSeen(f, t.seen, es)
  }

  lemma NoRows<K(!new), A(!new)>(m: map<K, A>, key: LogEntry -> K, describes: (A, seq<LogEntry>) -> bool)
    requires m == map[]
    ensures Grouped(m, [], key, describes)
  {
  }

  lemma NoBreakdowns(f: Strings, breakdowns: seq<map<Str, Tally>>)
    requires |breakdowns| == DIMENSIONS && forall i :: 0 <= i < DIMENSIONS ==> breakdowns[i] == map[]
    ensures BreaksDown(f, breakdowns, [], 0, DIMENSIONS)
  {
  }

  lemma NothingTabulated(f: Strings, t: Tables)
    requires t.paths == map[] && t.destinations == map[] && t.timeline == map[]
    requires t.summary == NO_SUMMARY && t.seen == NOTHING_SEEN
    requires |t.breakdowns| == DIMENSIONS && forall i :: 0 <= i < DIMENSIONS ==> t.breakdowns[i] == map[]
    ensures Tabulates(f, t, [])
  {
    hide IsSeen, IsSummary, BreaksDown, Grouped;
    NoRows(t.paths, PathKey(f), PathIs(f));
    NoRows(t.destinations, DestinationKey(), DestinationIs(f));
    NoRows(t.timeline, HourOf, PointIs(f));
    NoBreakdowns(f, t.breakdowns);
    NothingSummed();
    NothingSeen(f);
  }

  lemma NothingSummed()
    ensures IsSummary(NO_SUMMARY, [])
  {
  }

  lemma NothingSeen(f: Strings)
    ensures IsSeen(f, NOTHING_SEEN, [])
  {
  }

  class Aggregation {
    const f: Strings
    var paths: map<Str, PathAgg>
    var destinations: map<Str, DestinationAgg>
    var timeline: map<int, PointAgg>
    var breakdowns: seq<map<Str, Tally>>
    var summary: Summary
    var seen: Seen

    constructor (f: Strings)
      ensures this.f == f && Describes([])
    {
      this.f := f;
      paths, destinations, timeline := map[], map[], map[];
      breakdowns := seq(DIMENSIONS, i => map[]);
      summary := NO_SUMMARY;
      seen := NOTHING_SEEN;
      new;
      NothingTabulated(f, Contents());
    }

    ghost function Contents(): Tables
      reads this
    {
      Tables(paths, destinations, timeline, breakdowns, summary, seen)
    }

    ghost predicate Describes(es: seq<LogEntry>)
      reads this
    {
      Tabulates(f, Contents(), es)
    }

    method AddPath(e: LogEntry, ghost es: seq<LogEntry>)
      requires Grouped(paths, es, PathKey(f), PathIs(f))
      modifies this`paths
      ensures Grouped(paths, es + [e], PathKey(f), PathIs(f))
    {
      var k := PathKey(f)(e);
      var a := Row(paths, k, NewPath(f, e));
      RowSoFar(paths, es, PathKey(f), k, NewPath(f, e), PathIs(f));
      if k in paths {
        GroupOccurs(es, PathKey(f), k);
      }
      PathStep(f, a, Group(es, PathKey(f), k), e);
      GroupedStep(paths, es, PathKey(f), e, AddToPath(a, e), PathIs(f));
      paths := paths[k := AddToPath(a, e)];
    }

    method AddDestination(e: LogEntry, ghost es: seq<LogEntry>)
      requires Grouped(destinations, es, DestinationKey(), DestinationIs(f))
      modifies this`destinations
      ensures Grouped(destinations, es + [e], DestinationKey(), DestinationIs(f))
    {
      var k := e.upstreamAddr;
      var a := Row(destinations, k, NO_DESTINATION);
      RowSoFar(destinations, es, DestinationKey(), k, NO_DESTINATION, DestinationIs(f));
      DestinationStep(f, a, Group(es, DestinationKey(), k), e);
      GroupedStep(destinations, es, DestinationKey(), e, AddToDestination(f, a, e), DestinationIs(f));
      destinations := destinations[k := AddToDestination(f, a, e)];
    }

    method AddPoint(e: LogEntry, ghost es: seq<LogEntry>)
      requires Grouped(timeline, Parsed(es), HourOf, PointIs(f))
      modifies this`timeline
      ensures Grouped(timeline, Parsed(es + [e]), HourOf, PointIs(f))
    {
      SelectAppend(es, e, x => IsParsed(x));
      if e.time != ZERO_TIME {
        var k := HourOf(e);
        var a := Row(timeline, k, NO_POINT);
        RowSoFar(timeline, Parsed(es), HourOf, k, NO_POINT, PointIs(f));
        PointStep(f, a, Group(Parsed(es), HourOf, k), e);
        GroupedStep(timeline, Parsed(es), HourOf, e, AddToPoint(f, a, e), PointIs(f));
        timeline := timeline[k := AddToPoint(f, a, e)];
      }
    }

    method AddBreakdowns(e: LogEntry, ghost es: seq<LogEntry>)
      requires BreaksDown(f, breakdowns, es, 0, DIMENSIONS)
      modifies this`breakdowns
      ensures BreaksDown(f, breakdowns, es + [e], 0, DIMENSIONS)
    {
      for i := 0 to DIMENSIONS
        invariant BreaksDown(f, breakdowns, es + [e], 0, i)
        invariant BreaksDown(f, breakdowns, es, i, DIMENSIONS)
      {
        var value := DimensionKey(f, i)(e);
        TalliesStep(breakdowns[i], es, e, DimensionKey(f, i));
        breakdowns := breakdowns[i := Bump(breakdowns[i], value, One(e))];
      }
    }

    method AddEntry(e: LogEntry, ghost es: seq<LogEntry>)
      requires Describes(es)
      modifies this
      ensures Describes(es + [e])
    {
      hide IsSeen, IsSummary, BreaksDown, Grouped;
      SummaryStep(summary, es, e);
      SeenStep(f, seen, es, e);
      AddPath(e, es);
      AddDestination(e, es);
      AddPoint(e, es);
      AddBreakdowns(e, es);
      summary := AddToSummary(summary, e);
      seen := AddToSeen(f, seen, e);
    }

    method Run(entries: seq<LogEntry>)
      requires Describes([])
      modifies this
      ensures Describes(entries)
    {
      hide Tabulates;
      for i := 0 to |entries|
        invariant Describes(entries[..i])
      {
        assert entries[..i + 1] == entries[..i] + [entries[i]];
        AddEntry(entries[i], entries[..i]);
      }
      assert entries[..|entries|] == entries;
    }
  }

  // ---------- the second pass, over the selected sources ----------

  /** Every selected source has the row of exactly its entries. */
  ghost predicate SelectedRows(f: Strings, rows: map<Str, SourceAgg>, selected: set<Str>, es: seq<LogEntry>) {
    rows.Keys == selected && forall s :: s in selected ==> IsSelected(f, rows[s], Group(es, SourceKey(f), s))
  }

  method AddSelected(f: Strings, entries: seq<LogEntry>, selected: set<Str>) returns (rows: map<Str, SourceAgg>)
    ensures SelectedRows(f, rows, selected, entries)
  {
    rows := map s | s in selected :: NO_SOURCE;
    for i := 0 to |entries|
      invariant SelectedRows(f, rows, selected, entries[..i])
    {
      var e := entries[i];
      var s := f.identity(e.clientIP);
      assert entries[..i + 1] == entries[..i] + [e];
      SelectedRowsStep(f, rows, selected, entries[..i], e);
      if s in rows {
        rows := rows[s := AddToSelected(f, rows[s], e)];
      }
    }
    assert entries[..|entries|] == entries;
  }

  lemma SelectedRowsStep(f: Strings, rows: map<Str, SourceAgg>, selected: set<Str>, es: seq<LogEntry>, e: LogEntry)
    requires SelectedRows(f, rows, selected, es)
    ensures var s := f.identity(e.clientIP);
      SelectedRows(f, if s in rows then rows[s := AddToSelected(f, rows[s], e)] else rows, selected, es + [e])
  {
    var s := f.identity(e.clientIP);
    forall k | k in selected
      ensures IsSelected(f, if k == s then AddToSelected(f, rows[k], e) else rows[k], Group(es + [e], SourceKey(f), k))
    {
      SelectedRowStep(f, rows[k], es, e, k);
    }
  }

  lemma SelectedRowStep(f: Strings, a: SourceAgg, es: seq<LogEntry>, e: LogEntry, k: Str)
    requires IsSelected(f, a, Group(es, SourceKey(f), k))
    ensures IsSelected(f, if k == f.identity(e.clientIP) then AddToSelected(f, a, e) else a,
                       Group(es + [e], SourceKey(f), k))
  {
    SelectAppend(es, e, x => SourceKey(f)(x) == k);
    if k == f.identity(e.clientIP) {
      SelectedStep(f, a, Group(es, SourceKey(f), k), e);
    }
  }

  // ---------- the totals agree ----------

  function PathTally(t: Tables): Str -> Tally {
    k => if k in t.paths then TallyOf(t.paths[k].metrics) else NOTHING
  }

  function DestinationTally(t: Tables): Str -> Tally {
    k => if k in t.destinations then TallyOf(t.destinations[k].metrics) else NOTHING
  }

  function PointTally(t: Tables): int -> Tally {
    k => if k in t.timeline then TallyOf(t.timeline[k].metrics) else NOTHING
  }

  function BreakdownTally(t: Tables, i: nat): Str -> Tally
    requires i < |t.breakdowns|
  {
    var m := t.breakdowns[i];
    k => if k in m then m[k] else NOTHING
  }

  ghost function SummaryTally(s: Summary): Tally {
    Tally(s.total, s.failed, s.totalBytes)
  }

  lemma PathRow(f: Strings, t: Tables, es: seq<LogEntry>, k: Str)
    requires Tabulates(f, t, es) && k in t.paths
    ensures IsPath(f, t.paths[k], Group(es, PathKey(f), k))
  {
    assert PathIs(f)(t.paths[k], Group(es, PathKey(f), k));
  }

  lemma DestinationRow(f: Strings, t: Tables, es: seq<LogEntry>, k: Str)
    requires Tabulates(f, t, es) && k in t.destinations
    ensures IsDestination(f, t.destinations[k], Group(es, DestinationKey(), k))
  {
    assert DestinationIs(f)(t.destinations[k], Group(es, DestinationKey(), k));
  }

  lemma PointRow(f: Strings, t: Tables, es: seq<LogEntry>, k: int)
    requires Tabulates(f, t, es) && k in t.timeline
    ensures IsPoint(f, t.timeline[k], Group(Parsed(es), HourOf, k))
  {
    assert PointIs(f)(t.timeline[k], Group(Parsed(es), HourOf, k));
  }

  /** In any iteration order the paths, the destinations and the timeline add up. */
  lemma TablesAddUp(f: Strings, t: Tables, es: seq<LogEntry>, ps: seq<Str>, ds: seq<Str>, hs: seq<int>)
    requires Tabulates(f, t, es)
    requires Lists(ps, t.paths.Keys) && Lists(ds, t.destinations.Keys) && Lists(hs, t.timeline.Keys)
    ensures SummaryTally(t.summary) == Total(es)
    ensures Sum(ps, PathTally(t)) == SummaryTally(t.summary)
    ensures Sum(ds, DestinationTally(t)) == SummaryTally(t.summary)
    ensures Sum(hs, PointTally(t)) == Total(Parsed(es))
  {
    forall k | k in ps ensures PathTally(t)(k) == TallyOf(Fold(Group(es, PathKey(f), k))) {
      PathRow(f, t, es, k);
    }
    RowsAddUp(es, PathKey(f), ps, PathTally(t));
    forall k | k in ds ensures DestinationTally(t)(k) == TallyOf(Fold(Group(es, DestinationKey(), k))) {
      DestinationRow(f, t, es, k);
    }
    RowsAddUp(es, DestinationKey(), ds, DestinationTally(t));
    forall k | k in hs ensures PointTally(t)(k) == TallyOf(Fold(Group(Parsed(es), HourOf, k))) {
      PointRow(f, t, es, k);
    }
    RowsAddUp(Parsed(es), HourOf, hs, PointTally(t));
  }

  /** Each of the seven breakdowns adds up to the summary. */
  lemma BreakdownAddsUp(f: Strings, t: Tables, es: seq<LogEntry>, i: nat, ks: seq<Str>)
    requires Tabulates(f, t, es) && i < DIMENSIONS && Lists(ks, t.breakdowns[i].Keys)
    ensures Sum(ks, BreakdownTally(t, i)) == SummaryTally(t.summary)
  {
    TalliesAddUp(t.breakdowns[i], es, DimensionKey(f, i), ks);
    var m := t.breakdowns[i];
    SumSame(ks, BreakdownTally(t, i), k => if k in m then m[k] else NOTHING);
  }

  /** The row of v counts the entries that satisfy p; there is a row exactly if there is such an entry. */
  ghost predicate CountsThose(m: map<Str, Tally>, es: seq<LogEntry>, v: Str, p: LogEntry -> bool) {
    && (v in m <==> exists e :: e in es && p(e))
    && (v in m ==> m[v] == Total(Select(es, p)))
  }

  lemma TallyCountsThose(m: map<Str, Tally>, es: seq<LogEntry>, key: LogEntry -> Str, v: Str, p: LogEntry -> bool)
    requires Tallies(m, es, key) && forall e :: e in es ==> (p(e) <==> key(e) == v)
    ensures CountsThose(m, es, v, p)
  {
    hide Total, Select;
    KeyHasEntry(es, key, v);
    GroupIs(es, key, v, p);
    assert v in m <==> v in Keys(es, key);
  }

  lemma KeyHasEntry(es: seq<LogEntry>, key: LogEntry -> Str, v: Str)
    ensures v in Keys(es, key) <==> exists e :: e in es && key(e) == v
  {
    if v in Keys(es, key) {
      var i :| 0 <= i < |es| && key(es[i]) == v;
      assert es[i] in es;
    }
    if e :| e in es && key(e) == v {
      KeyOccurs(es, key, e);
    }
  }

  lemma {:induction false} GroupIs(es: seq<LogEntry>, key: LogEntry -> Str, v: Str, p: LogEntry -> bool)
    requires forall e :: e in es ==> (p(e) <==> key(e) == v)
    ensures Group(es, key, v) == Select(es, p)
  {
    if es != [] {
      GroupIs(es[..|es| - 1], key, v, p);
    }
  }

  /** Which entries each row of the seven breakdowns counts, dimension by dimension. */
  lemma BreakdownsCount(f: Strings, t: Tables, es: seq<LogEntry>, v: Str)
    requires Tabulates(f, t, es)
    ensures |t.breakdowns| == 7
    ensures CountsThose(t.breakdowns[0], es, v, (e: LogEntry) => f.upper(e.protocol) == v)
    ensures CountsThose(t.breakdowns[1], es, v, (e: LogEntry) => f.country(e.country) == v)
    ensures CountsThose(t.breakdowns[2], es, v, (e: LogEntry) => f.port(e.upstreamAddr) == v)
    ensures CountsThose(t.breakdowns[3], es, v, (e: LogEntry) => f.outcome(e.status) == v)
    ensures CountsThose(t.breakdowns[4], es, v, (e: LogEntry) => f.decimal(e.status) == v)
    ensures CountsThose(t.breakdowns[5], es, v, (e: LogEntry) => f.scope(e.clientIP) == v)
    ensures CountsThose(t.breakdowns[6], es, v, (e: LogEntry) => f.scope(e.upstreamAddr) == v)
  {
    hide CountsThose, Tallies, Grouped, IsSummary, IsSeen;
    TallyCountsThose(t.breakdowns[0], es, DimensionKey(f, 0), v, (e: LogEntry) => f.upper(e.protocol) == v);
    TallyCountsThose(t.breakdowns[1], es, DimensionKey(f, 1), v, (e: LogEntry) => f.country(e.country) == v);
    TallyCountsThose(t.breakdowns[2], es, DimensionKey(f, 2), v, (e: LogEntry) => f.port(e.upstreamAddr) == v);
    TallyCountsThose(t.breakdowns[3], es, DimensionKey(f, 3), v, (e: LogEntry) => f.outcome(e.status) == v);
    TallyCountsThose(t.breakdowns[4], es, DimensionKey(f, 4), v, (e: LogEntry) => f.decimal(e.status) == v);
    TallyCountsThose(t.breakdowns[5], es, DimensionKey(f, 5), v, (e: LogEntry) => f.scope(e.clientIP) == v);
    TallyCountsThose(t.breakdowns[6], es, DimensionKey(f, 6), v, (e: LogEntry) => f.scope(e.upstreamAddr) == v);
  }

  // ---------- paths and the dimension counts ----------

  ghost predicate AllClean(f: Strings, es: seq<LogEntry>) {
    forall e :: e in es ==> CleanFields(f, e)
  }

  /** With NUL-free fields a path row carries the fields of every one of its entries. */
  lemma PathRowIsExact(f: Strings, t: Tables, es: seq<LogEntry>, e: LogEntry)
    requires Tabulates(f, t, es) && AllClean(f, es) && e in es
    ensures PathKey(f)(e) in t.paths
    ensures var a := t.paths[PathKey(f)(e)]; [a.source, a.listener, a.destination, a.protocol] == PathFields(f, e)
  {
    var k := PathKey(f)(e);
    KeyOccurs(es, PathKey(f), e);
    PathRow(f, t, es, k);
    GroupOccurs(es, PathKey(f), k);
    var first := Group(es, PathKey(f), k)[0];
    assert first in Group(es, PathKey(f), k);
    PathKeyIff(f, first, e);
  }

  /** The part of a path accumulator that the dimension counts read. */
  function RowOf(a: PathAgg): SourceDimensions.PathRow {
    SourceDimensions.PathRow(a.key, a.source, a.listener, a.destination)
  }

  ghost predicate IsRow(r: SourceDimensions.PathRow, t: Tables) {
    exists k :: k in t.paths && r == RowOf(t.paths[k])
  }

  /** rows are the path accumulators, in some order. */
  ghost predicate RowsOf(rows: seq<SourceDimensions.PathRow>, t: Tables) {
    && (forall i :: 0 <= i < |rows| ==> IsRow(rows[i], t))
    && (forall k :: k in t.paths ==> RowOf(t.paths[k]) in rows)
  }

  /** An entry field, and the same field of its path. */
  ghost predicate SameField(f: Strings, key: LogEntry -> Str, field: SourceDimensions.PathRow -> Str) {
    forall e: LogEntry, r: SourceDimensions.PathRow ::
      r.listener == e.proxyAddr && r.destination == e.upstreamAddr ==> field(r) == key(e)
  }

  /** Counting over the paths of a source is counting over its entries. */
  lemma PathsCountEntries(f: Strings, t: Tables, es: seq<LogEntry>, rows: seq<SourceDimensions.PathRow>, s: Str,
                          key: LogEntry -> Str, field: SourceDimensions.PathRow -> Str)
    requires Tabulates(f, t, es) && AllClean(f, es) && RowsOf(rows, t) && SameField(f, key, field)
    ensures FieldsOf(rows, s, field) == Keys(Group(es, SourceKey(f), s), key)
  {
    hide Tabulates, AllClean, RowsOf;
    var g := Group(es, SourceKey(f), s);
    forall x | x in Keys(g, key) ensures x in FieldsOf(rows, s, field) {
      var i :| 0 <= i < |g| && x == key(g[i]);
      assert g[i] in g;
      EntryHasRow(f, t, es, rows, g[i]);
      var j :| 0 <= j < |rows| && IsRowOf(f, rows[j], g[i]);
      assert field(rows[j]) in FieldsOf(rows, s, field);
    }
    forall x | x in FieldsOf(rows, s, field) ensures x in Keys(g, key) {
      var j :| 0 <= j < |rows| && rows[j].source == s && x == field(rows[j]);
      var e := RowHasEntry(f, t, es, rows, j);
      assert e in g;
      KeyOccurs(g, key, e);
    }
  }

  ghost predicate IsRowOf(f: Strings, r: SourceDimensions.PathRow, e: LogEntry) {
    r.source == f.identity(e.clientIP) && r.listener == e.proxyAddr && r.destination == e.upstreamAddr
  }

  lemma EntryHasRow(f: Strings, t: Tables, es: seq<LogEntry>, rows: seq<SourceDimensions.PathRow>, e: LogEntry)
    requires Tabulates(f, t, es) && AllClean(f, es) && RowsOf(rows, t) && e in es
    ensures exists j :: 0 <= j < |rows| && IsRowOf(f, rows[j], e)
  {
    PathRowIsExact(f, t, es, e);
    var a := t.paths[PathKey(f)(e)];
    assert [a.source, a.listener, a.destination, a.protocol][0] == PathFields(f, e)[0];
    assert [a.source, a.listener, a.destination, a.protocol][1] == PathFields(f, e)[1];
    assert [a.source, a.listener, a.destination, a.protocol][2] == PathFields(f, e)[2];
    assert RowOf(a) in rows;
  }

  lemma RowHasEntry(f: Strings, t: Tables, es: seq<LogEntry>, rows: seq<SourceDimensions.PathRow>, j: nat)
      returns (e: LogEntry)
    requires Tabulates(f, t, es) && RowsOf(rows, t) && j < |rows|
    ensures e in es && IsRowOf(f, rows[j], e)
  {
    assert IsRow(rows[j], t);
    var k :| k in t.paths && rows[j] == RowOf(t.paths[k]);
    PathRow(f, t, es, k);
    GroupOccurs(es, PathKey(f), k);
    e := Group(es, PathKey(f), k)[0];
    assert e in Group(es, PathKey(f), k);
    var a := t.paths[k];
    assert [a.source, a.listener, a.destination, a.protocol][0] == PathFields(f, e)[0];
    assert [a.source, a.listener, a.destination, a.protocol][1] == PathFields(f, e)[1];
    assert [a.source, a.listener, a.destination, a.protocol][2] == PathFields(f, e)[2];
  }

  /**
   * With NUL-free fields, the two counters of a selected source are the numbers of distinct listeners
   * and distinct destinations among its log entries.
   */
  lemma DimensionsAreExact(f: Strings, t: Tables, es: seq<LogEntry>, rows: seq<SourceDimensions.PathRow>,
                           selected: set<Str>, listeners: map<Str, int>, destinations: map<Str, int>, s: Str)
    requires Tabulates(f, t, es) && AllClean(f, es) && RowsOf(rows, t) && s in selected
    requires Counted(listeners, selected, rows, Listener())
    requires Counted(destinations, selected, rows, Destination())
    ensures listeners[s] == |Keys(Group(es, SourceKey(f), s), ListenerKey())|
    ensures destinations[s] == |Keys(Group(es, SourceKey(f), s), DestinationKey())|
  {
    PathsCountEntries(f, t, es, rows, s, ListenerKey(), Listener());
    PathsCountEntries(f, t, es, rows, s, DestinationKey(), Destination());
  }

  // ---------- the sources of one response ----------

  /** The loop that lists the path accumulators, in whatever order the map gives them. */
  method PathRows(paths: map<Str, PathAgg>) returns (rows: seq<SourceDimensions.PathRow>)
    ensures forall r :: r in rows <==> exists k :: k in paths && r == RowOf(paths[k])
  {
    rows := [];
    var rest := paths.Keys;
    while rest != {}
      invariant rest <= paths.Keys
      invariant forall r :: r in rows ==> exists k :: k in paths && r == RowOf(paths[k])
      invariant forall k :: k in paths && k !in rest ==> RowOf(paths[k]) in rows
      decreases |rest|
    {
      var key := Pick(rest);
      rest := rest - {key};
      rows := rows + [RowOf(paths[key])];
    }
  }

  lemma RowsAreThePaths(rows: seq<SourceDimensions.PathRow>, t: Tables)
    requires forall r :: r in rows <==> exists k :: k in t.paths && r == RowOf(t.paths[k])
    ensures RowsOf(rows, t)
  {
    forall i | 0 <= i < |rows| ensures IsRow(rows[i], t) {
      assert rows[i] in rows;
    }
  }

  /** The source section of a response. */
  datatype SourceSection = SourceSection(
    page: seq<Str>, hasMore: bool, rows: map<Str, SourceAgg>, listeners: map<Str, int>, destinations: map<Str, int>)

  function Members(page: seq<Str>): set<Str> {
    set s | s in page
  }

  /** The counters agree with the entries themselves. */
  ghost predicate CountsEntries(f: Strings, es: seq<LogEntry>, counts: map<Str, int>, page: seq<Str>,
                                key: LogEntry -> Str)
  {
    forall s :: s in page ==> s in counts && counts[s] == |Keys(Group(es, SourceKey(f), s), key)|
  }

  /**
   * From the entries to the source section: the page holds the first sources above the cursor in
   * ascending order, every row is the fold of its source's entries, and with NUL-free fields the
   * counters are the distinct listeners and destinations of those entries.
   */
  method Sources(f: Strings, entries: seq<LogEntry>, after: Str, hasCursor: bool, limit: nat)
      returns (r: SourceSection, t: Tables)
    requires limit >= 1
    ensures Tabulates(f, t, entries)
    ensures var all := InOrder(SourcePage.Above(Keys(entries, SourceKey(f)), hasCursor, after));
      && r.page == all[..SourcePage.Min(limit, |all|)]
      && (r.hasMore <==> |all| > limit)
    ensures SelectedRows(f, r.rows, Members(r.page), entries)
    ensures AllClean(f, entries) ==> CountsEntries(f, entries, r.listeners, r.page, ListenerKey())
    ensures AllClean(f, entries) ==> CountsEntries(f, entries, r.destinations, r.page, DestinationKey())
  {
    hide *;
    t := Tabulate(f, entries);
    SeenSources(f, t, entries);
    var page, hasMore := SourcePage.Page(t.seen.sources, after, hasCursor, limit);
    var rows := AddSelected(f, entries, Members(page));
    var paths := PathRows(t.paths);
    RowsAreThePaths(paths, t);
    var sorted, listeners, destinations := CountDimensions(paths, Members(page));
    r := SourceSection(page, hasMore, rows, listeners, destinations);
    if AllClean(f, entries) {
      CountersAreExact(f, t, entries, paths, page, listeners, destinations);
    }
  }

  method Tabulate(f: Strings, entries: seq<LogEntry>) returns (t: Tables)
    ensures Tabulates(f, t, entries)
  {
    var a := new Aggregation(f);
    a.Run(entries);
    t := Tables(a.paths, a.destinations, a.timeline, a.breakdowns, a.summary, a.seen);
  }

  lemma SeenSources(f: Strings, t: Tables, es: seq<LogEntry>)
    requires Tabulates(f, t, es)
    ensures t.seen.sources == Keys(es, SourceKey(f))
  {
  }

  lemma CountersAreExact(f: Strings, t: Tables, es: seq<LogEntry>, rows: seq<SourceDimensions.PathRow>, page: seq<Str>,
                         listeners: map<Str, int>, destinations: map<Str, int>)
    requires Tabulates(f, t, es) && AllClean(f, es) && RowsOf(rows, t)
    requires Counted(listeners, Members(page), rows, Listener())
    requires Counted(destinations, Members(page), rows, Destination())
    ensures CountsEntries(f, es, listeners, page, ListenerKey())
    ensures CountsEntries(f, es, destinations, page, DestinationKey())
  {
    hide Tabulates, RowsOf, AllClean;
    forall s | s in page
      ensures s in listeners && listeners[s] == |Keys(Group(es, SourceKey(f), s), ListenerKey())|
      ensures s in destinations && destinations[s] == |Keys(Group(es, SourceKey(f), s), DestinationKey())|
    {
      DimensionsAreExact(f, t, es, rows, Members(page), listeners, destinations, s);
    }
  }
}
