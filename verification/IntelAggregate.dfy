/** intelAggregate: one pass that tabulates the entries by source, route, destination and hour. */
module IntelAggregate {
  import opened EntryFilter
  import opened Sequences
  import opened Text
  import opened Telemetry
  import opened Metrics
  import opened JoinedKeys
  import IntelAxis
  import opened IntelPipeline

  datatype SourceAgg = SourceAgg(
    metrics: Metrics, destinations: map<Str, int>, routes: map<Str, int>, listeners: map<Str, int>,
    ports: set<Str>, protocols: set<Str>, countries: set<Str>, hourly: map<int, Tally>)

  datatype RouteAgg = RouteAgg(
    listener: Str, destination: Str, protocol: Str,
    metrics: Metrics, sources: map<Str, int>, hourly: map<int, Tally>)

  datatype DestinationAgg = DestinationAgg(
    metrics: Metrics, sources: map<Str, int>, listeners: map<Str, int>,
    protocols: set<Str>, countries: set<Str>, hourly: map<int, Tally>)

  /** The port of an address that has none: "unknown". */
  const NO_PORT: Str := [117, 110, 107, 110, 111, 119, 110]
  const NO_SOURCE := SourceAgg(EMPTY, map[], map[], map[], {}, {}, {}, map[])
  const NO_DESTINATION := DestinationAgg(EMPTY, map[], map[], {}, {}, map[])

  // ---------- what a row describes ----------

  ghost predicate IsSource(f: Strings, a: SourceAgg, g: seq<LogEntry>) {
    && a.metrics == Fold(g)
    && Counts(a.destinations, g, DestinationKey())
    && Counts(a.routes, g, RouteIDKey(f))
    && Counts(a.listeners, g, ListenerKey())
    && a.ports == Keys(g, PortKey(f)) - {NO_PORT}
    && a.protocols == Keys(g, ProtocolKey(f))
    && a.countries == Keys(g, CountryKey(f))
    && IsHourly(a.hourly, g)
  }

  ghost predicate IsRoute(f: Strings, a: RouteAgg, g: seq<LogEntry>) {
    && (g != [] ==> [a.listener, a.destination, a.protocol] == RouteFields(f, g[0]))
    && a.metrics == Fold(g)
    && Counts(a.sources, g, SourceKey(f))
    && IsHourly(a.hourly, g)
  }

  ghost predicate IsDestination(f: Strings, a: DestinationAgg, g: seq<LogEntry>) {
    && a.metrics == Fold(g)
    && Counts(a.sources, g, SourceKey(f))
    && Counts(a.listeners, g, ListenerKey())
    && a.protocols == Keys(g, ProtocolKey(f))
    && a.countries == Keys(g, CountryKey(f))
    && IsHourly(a.hourly, g)
  }

  ghost function SourceIs(f: Strings): (SourceAgg, seq<LogEntry>) -> bool {
    (a: SourceAgg, g: seq<LogEntry>) => IsSource(f, a, g)
  }

  ghost function RouteIs(f: Strings): (RouteAgg, seq<LogEntry>) -> bool {
    (a: RouteAgg, g: seq<LogEntry>) => IsRoute(f, a, g)
  }

  ghost function DestinationIs(f: Strings): (DestinationAgg, seq<LogEntry>) -> bool {
    (a: DestinationAgg, g: seq<LogEntry>) => IsDestination(f, a, g)
  }

  // ---------- one entry added to a row ----------

  /** addHour, for entries whose time parsed. */
  function AddHour(hourly: map<int, Tally>, e: LogEntry): map<int, Tally> {
    if e.time != ZERO_TIME then Bump(hourly, HourOf(e), One(e)) else hourly
  }

  lemma AddHourStep(hourly: map<int, Tally>, g: seq<LogEntry>, e: LogEntry)
    requires IsHourly(hourly, g)
    ensures IsHourly(AddHour(hourly, e), g + [e])
  {
    SelectAppend(g, e, x => IsParsed(x));
    if e.time != ZERO_TIME {
      TalliesStep(hourly, Parsed(g), e, HourOf);
    }
  }

  /** m with one more entry counted under its key. */
  function CountUp(m: map<Str, int>, k: Str): map<Str, int> {
    m[k := Row(m, k, 0) + 1]
  }

  function AddToSource(f: Strings, a: SourceAgg, e: LogEntry): SourceAgg {
    SourceAgg(
      Add(a.metrics, e),
      CountUp(a.destinations, e.upstreamAddr),
      CountUp(a.routes, RouteIDKey(f)(e)),
      CountUp(a.listeners, e.proxyAddr),
      if f.port(e.upstreamAddr) != NO_PORT then a.ports + {f.port(e.upstreamAddr)} else a.ports,
      a.protocols + {f.upper(e.protocol)},
      a.countries + {f.country(e.country)},
      AddHour(a.hourly, e))
  }

  function AddToRoute(f: Strings, a: RouteAgg, e: LogEntry): RouteAgg {
    a.(metrics := Add(a.metrics, e),
       sources := CountUp(a.sources, SourceKey(f)(e)),
       hourly := AddHour(a.hourly, e))
  }

  function AddToDestination(f: Strings, a: DestinationAgg, e: LogEntry): DestinationAgg {
    DestinationAgg(
      Add(a.metrics, e),
      CountUp(a.sources, SourceKey(f)(e)),
      CountUp(a.listeners, e.proxyAddr),
      a.protocols + {f.upper(e.protocol)},
      a.countries + {f.country(e.country)},
      AddHour(a.hourly, e))
  }

  function NewRoute(f: Strings, e: LogEntry): RouteAgg {
    RouteAgg(e.proxyAddr, e.upstreamAddr, f.upper(e.protocol), EMPTY, map[], map[])
  }

  lemma CountUpStep(m: map<Str, int>, g: seq<LogEntry>, key: LogEntry -> Str, e: LogEntry, k: Str)
    requires Counts(m, g, key) && key(e) == k
    ensures Counts(CountUp(m, k), g + [e], key)
  {
    CountsStep(m, g, key, e);
  }

  lemma SourceStep(f: Strings, a: SourceAgg, g: seq<LogEntry>, e: LogEntry)
    requires IsSource(f, a, g)
    ensures IsSource(f, AddToSource(f, a, e), g + [e])
  {
    hide Counts, IsHourly, AddHour, CountUp, Fold, Add;
    FoldAppend(g, e);
    CountUpStep(a.destinations, g, DestinationKey(), e, e.upstreamAddr);
    CountUpStep(a.routes, g, RouteIDKey(f), e, RouteIDKey(f)(e));
    CountUpStep(a.listeners, g, ListenerKey(), e, e.proxyAddr);
    KeysAppend(g, e, PortKey(f));
    KeysAppend(g, e, ProtocolKey(f));
    KeysAppend(g, e, CountryKey(f));
    AddHourStep(a.hourly, g, e);
  }

  lemma RouteStep(f: Strings, a: RouteAgg, g: seq<LogEntry>, e: LogEntry)
    requires IsRoute(f, a, g)
    requires g == [] ==> a == NewRoute(f, e)
    ensures IsRoute(f, AddToRoute(f, a, e), g + [e])
  {
    var a' := AddToRoute(f, a, e);
    assert a'.metrics == Fold(g + [e]) by { FoldAppend(g, e); }
    assert Counts(a'.sources, g + [e], SourceKey(f)) by {
      CountUpStep(a.sources, g, SourceKey(f), e, SourceKey(f)(e));
    }
    assert IsHourly(a'.hourly, g + [e]) by { AddHourStep(a.hourly, g, e); }
  }

  lemma DestinationStep(f: Strings, a: DestinationAgg, g: seq<LogEntry>, e: LogEntry)
    requires IsDestination(f, a, g)
    ensures IsDestination(f, AddToDestination(f, a, e), g + [e])
  {
    hide Counts, IsHourly, AddHour, CountUp, Fold, Add;
    FoldAppend(g, e);
    CountUpStep(a.sources, g, SourceKey(f), e, SourceKey(f)(e));
    CountUpStep(a.listeners, g, ListenerKey(), e, e.proxyAddr);
    KeysAppend(g, e, ProtocolKey(f));
    KeysAppend(g, e, CountryKey(f));
    AddHourStep(a.hourly, g, e);
  }

  // ---------- the aggregation ----------

  datatype Tables = Tables(
    sources: map<Str, SourceAgg>, routes: map<Str, RouteAgg>, destinations: map<Str, DestinationAgg>,
    hourly: map<int, Tally>)

  /** Every map tabulates exactly the entries es. */
  ghost predicate Tabulates(f: Strings, t: Tables, es: seq<LogEntry>) {
    && Grouped(t.sources, es, SourceKey(f), SourceIs(f))
    && Grouped(t.routes, es, RouteKey(f), RouteIs(f))
    && Grouped(t.destinations, es, DestinationKey(), DestinationIs(f))
    && IsHourly(t.hourly, es)
  }

  /** The four maps of the aggregation, grown entry by entry. */
  class Aggregation {
    const f: Strings
    var sources: map<Str, SourceAgg>
    var routes: map<Str, RouteAgg>
    var destinations: map<Str, DestinationAgg>
    var hourly: map<int, Tally>

    constructor (f: Strings)
      ensures this.f == f && Describes([])
    {
      this.f := f;
      sources, routes, destinations, hourly := map[], map[], map[], map[];
    }

    ghost function Contents(): Tables
      reads this
    {
      Tables(sources, routes, destinations, hourly)
    }

    ghost predicate Describes(es: seq<LogEntry>)
      reads this
    {
      Tabulates(f, Contents(), es)
    }

    method AddSource(e: LogEntry, ghost es: seq<LogEntry>)
      requires Grouped(sources, es, SourceKey(f), SourceIs(f))
      modifies this`sources
      ensures Grouped(sources, es + [e], SourceKey(f), SourceIs(f))
    {
      var k := SourceKey(f)(e);
      var a := Row(sources, k, NO_SOURCE);
      RowSoFar(sources, es, SourceKey(f), k, NO_SOURCE, SourceIs(f));
      SourceStep(f, a, Group(es, SourceKey(f), k), e);
      GroupedStep(sources, es, SourceKey(f), e, AddToSource(f, a, e), SourceIs(f));
      sources := sources[k := AddToSource(f, a, e)];
    }

    method AddRoute(e: LogEntry, ghost es: seq<LogEntry>)
      requires Grouped(routes, es, RouteKey(f), RouteIs(f))
      modifies this`routes
      ensures Grouped(routes, es + [e], RouteKey(f), RouteIs(f))
    {
      var k := RouteKey(f)(e);
      var a := Row(routes, k, NewRoute(f, e));
      RowSoFar(routes, es, RouteKey(f), k, NewRoute(f, e), RouteIs(f));
      if k in routes {
        GroupOccurs(es, RouteKey(f), k);
      }
      RouteStep(f, a, Group(es, RouteKey(f), k), e);
      GroupedStep(routes, es, RouteKey(f), e, AddToRoute(f, a, e), RouteIs(f));
      routes := routes[k := AddToRoute(f, a, e)];
    }

    method AddDestination(e: LogEntry, ghost es: seq<LogEntry>)
      requires Grouped(destinations, es, DestinationKey(), DestinationIs(f))
      modifies this`destinations
      ensures Grouped(destinations, es + [e], DestinationKey(), DestinationIs(f))
    {
      var k := e.upstreamAddr;
      var a := Row(destinations, k, NO_DESTINATION);
      RowSoFar(destinations, es, DestinationKey(), k, NO_DESTINATION, DestinationIs(f));
      DestinationStep(f, a, Group(es, DestinationKey(), k), e);
      GroupedStep(destinations, es, DestinationKey(), e, AddToDestination(f, a, e), DestinationIs(f));
      destinations := destinations[k := AddToDestination(f, a, e)];
    }

    method AddEntry(e: LogEntry, ghost es: seq<LogEntry>)
      requires Describes(es)
      modifies this
      ensures Describes(es + [e])
    {
      AddSource(e, es);
      AddRoute(e, es);
      AddDestination(e, es);
      AddHourStep(hourly, es, e);
      hourly := AddHour(hourly, e);
    }

    method Run(entries: seq<LogEntry>)
      requires Describes([])
      modifies this
      ensures Describes(entries)
    {
      hide Tabulates;
      for i := 0 to |entries|
        invariant Describes(entries[..i])
      {
        assert entries[..i + 1] == entries[..i] + [entries[i]];
        AddEntry(entries[i], entries[..i]);
      }
      assert entries[..|entries|] == entries;
    }
  }

  // ---------- the tables agree with each other ----------

  lemma RowCount(m: map<Str, int>, es: seq<LogEntry>, key: LogEntry -> Str, k: Str)
    requires Counts(m, es, key)
    ensures Row(m, k, 0) == |Group(es, key, k)|
  {
    if k !in m {
      GroupEmpty(es, key, k);
    }
  }

  lemma SourceRow(f: Strings, t: Tables, es: seq<LogEntry>, s: Str)
    requires Tabulates(f, t, es) && s in t.sources
    ensures IsSource(f, t.sources[s], Group(es, SourceKey(f), s))
  {
    assert SourceIs(f)(t.sources[s], Group(es, SourceKey(f), s));
  }

  lemma DestinationRow(f: Strings, t: Tables, es: seq<LogEntry>, d: Str)
    requires Tabulates(f, t, es) && d in t.destinations
    ensures IsDestination(f, t.destinations[d], Group(es, DestinationKey(), d))
  {
    assert DestinationIs(f)(t.destinations[d], Group(es, DestinationKey(), d));
  }

  /** How often source s counts destination d; a source without a row counts nothing. */
  function SourceCounts(t: Tables, s: Str, d: Str): int {
    if s in t.sources then Row(t.sources[s].destinations, d, 0) else 0
  }

  function DestinationCounts(t: Tables, d: Str, s: Str): int {
    if d in t.destinations then Row(t.destinations[d].sources, s, 0) else 0
  }

  lemma SourceCountsEntries(f: Strings, t: Tables, es: seq<LogEntry>, s: Str, d: Str)
    requires Tabulates(f, t, es)
    ensures SourceCounts(t, s, d) == |Group(Group(es, SourceKey(f), s), DestinationKey(), d)|
  {
    if s in t.sources {
      SourceRow(f, t, es, s);
      RowCount(t.sources[s].destinations, Group(es, SourceKey(f), s), DestinationKey(), d);
    } else {
      GroupEmpty(es, SourceKey(f), s);
    }
  }

  lemma DestinationCountsEntries(f: Strings, t: Tables, es: seq<LogEntry>, d: Str, s: Str)
    requires Tabulates(f, t, es)
    ensures DestinationCounts(t, d, s) == |Group(Group(es, DestinationKey(), d), SourceKey(f), s)|
  {
    if d in t.destinations {
      DestinationRow(f, t, es, d);
      RowCount(t.destinations[d].sources, Group(es, DestinationKey(), d), SourceKey(f), s);
    } else {
      GroupEmpty(es, DestinationKey(), d);
    }
  }

  /** Source s counts destination d exactly as often as d counts s: once per entry from s to d. */
  lemma CrossTabulation(f: Strings, t: Tables, es: seq<LogEntry>, s: Str, d: Str)
    requires Tabulates(f, t, es)
    ensures SourceCounts(t, s, d) == DestinationCounts(t, d, s)
         == |Group(Group(es, SourceKey(f), s), DestinationKey(), d)|
  {
    SourceCountsEntries(f, t, es, s, d);
    DestinationCountsEntries(f, t, es, d, s);
    GroupsCommute(es, SourceKey(f), DestinationKey(), s, d);
  }

  lemma RouteRow(f: Strings, t: Tables, es: seq<LogEntry>, r: Str)
    requires Tabulates(f, t, es) && r in t.routes
    ensures IsRoute(f, t.routes[r], Group(es, RouteKey(f), r))
  {
    assert RouteIs(f)(t.routes[r], Group(es, RouteKey(f), r));
  }

  function SourceTally(t: Tables): Str -> Tally {
    k => if k in t.sources then TallyOf(t.sources[k].metrics) else NOTHING
  }

  function RouteTally(t: Tables): Str -> Tally {
    k => if k in t.routes then TallyOf(t.routes[k].metrics) else NOTHING
  }

  function DestinationTally(t: Tables): Str -> Tally {
    k => if k in t.destinations then TallyOf(t.destinations[k].metrics) else NOTHING
  }

  /** In each of the three groupings connections, failures and bytes add up to all the entries. */
  lemma GroupingsAddUp(f: Strings, t: Tables, es: seq<LogEntry>, ss: seq<Str>, rs: seq<Str>, ds: seq<Str>)
    requires Tabulates(f, t, es)
    requires Lists(ss, t.sources.Keys) && Lists(rs, t.routes.Keys) && Lists(ds, t.destinations.Keys)
    ensures Total(es).connections == |es|
    ensures Sum(ss, SourceTally(t)) == Total(es)
    ensures Sum(rs, RouteTally(t)) == Total(es)
    ensures Sum(ds, DestinationTally(t)) == Total(es)
  {
    TotalCounts(es);
    forall k | k in ss ensures SourceTally(t)(k) == TallyOf(Fold(Group(es, SourceKey(f), k))) {
      SourceRow(f, t, es, k);
    }
    RowsAddUp(es, SourceKey(f), ss, SourceTally(t));
    forall k | k in rs ensures RouteTally(t)(k) == TallyOf(Fold(Group(es, RouteKey(f), k))) {
      RouteRow(f, t, es, k);
    }
    RowsAddUp(es, RouteKey(f), rs, RouteTally(t));
    forall k | k in ds ensures DestinationTally(t)(k) == TallyOf(Fold(Group(es, DestinationKey(), k))) {
      DestinationRow(f, t, es, k);
    }
    RowsAddUp(es, DestinationKey(), ds, DestinationTally(t));
  }

  /** What a row's own bucket holds for one hour. */
  function HourRow(hourly: map<int, Tally>, h: int): Tally {
    if h in hourly then hourly[h] else NOTHING
  }

  lemma HourRowIs(hourly: map<int, Tally>, es: seq<LogEntry>, h: int)
    requires IsHourly(hourly, es)
    ensures HourRow(hourly, h) == Total(Group(Parsed(es), HourOf, h))
  {
    if h !in hourly {
      GroupEmpty(Parsed(es), HourOf, h);
    }
  }

  lemma SelectPastTwo(es: seq<LogEntry>, q: LogEntry -> bool, p: LogEntry -> bool, r: LogEntry -> bool)
    ensures Select(Select(Select(es, q), p), r) == Select(Select(Select(es, p), r), q)
  {
    SelectsCommute(es, q, p);
    SelectsCommute(Select(es, p), q, r);
  }

  lemma GroupPastGroup<K, H>(es: seq<LogEntry>, key: LogEntry -> K, k: K, p: LogEntry -> bool,
                             hour: LogEntry -> H, h: H)
    ensures Group(Select(Group(es, key, k), p), hour, h) == Group(Group(Select(es, p), hour, h), key, k)
  {
    SelectPastTwo(es, e => key(e) == k, p, e => hour(e) == h);
  }

  /** The hour bucket of a group is the group's share of the hour. */
  lemma HourOfGroup(es: seq<LogEntry>, key: LogEntry -> Str, k: Str, h: int)
    ensures Group(Parsed(Group(es, key, k)), HourOf, h) == Group(Group(Parsed(es), HourOf, h), key, k)
  {
    GroupPastGroup(es, key, k, e => IsParsed(e), HourOf, h);
  }

  /** For any grouping with exact hour buckets, each hour adds up to the global bucket. */
  lemma HourAddsUp(es: seq<LogEntry>, key: LogEntry -> Str, ks: seq<Str>, buckets: Str -> map<int, Tally>,
                   global: map<int, Tally>, h: int)
    requires Lists(ks, Keys(es, key)) && IsHourly(global, es)
    requires forall k :: k in ks ==> IsHourly(buckets(k), Group(es, key, k))
    ensures Sum(ks, k => HourRow(buckets(k), h)) == HourRow(global, h)
  {
    var inHour := Group(Parsed(es), HourOf, h);
    forall k | k in ks ensures HourRow(buckets(k), h) == Total(Group(inHour, key, k)) {
      HourRowIs(buckets(k), Group(es, key, k), h);
      HourOfGroup(es, key, k, h);
    }
    SumSame(ks, k => HourRow(buckets(k), h), k => Total(Group(inHour, key, k)));
    forall e | e in inHour ensures key(e) in ks {
      assert e in Parsed(es);
      KeyOccurs(es, key, e);
    }
    BucketsAddUp(inHour, key, ks);
    HourRowIs(global, es, h);
  }

  function SourceHours(t: Tables): Str -> map<int, Tally> {
    k => if k in t.sources then t.sources[k].hourly else map[]
  }

  function RouteHours(t: Tables): Str -> map<int, Tally> {
    k => if k in t.routes then t.routes[k].hourly else map[]
  }

  function DestinationHours(t: Tables): Str -> map<int, Tally> {
    k => if k in t.destinations then t.destinations[k].hourly else map[]
  }

  /** Hour by hour, the sources, the routes and the destinations each add up to the global series. */
  lemma HoursAddUp(f: Strings, t: Tables, es: seq<LogEntry>, ss: seq<Str>, rs: seq<Str>, ds: seq<Str>, h: int)
    requires Tabulates(f, t, es)
    requires Lists(ss, t.sources.Keys) && Lists(rs, t.routes.Keys) && Lists(ds, t.destinations.Keys)
    ensures Sum(ss, k => HourRow(SourceHours(t)(k), h)) == HourRow(t.hourly, h)
    ensures Sum(rs, k => HourRow(RouteHours(t)(k), h)) == HourRow(t.hourly, h)
    ensures Sum(ds, k => HourRow(DestinationHours(t)(k), h)) == HourRow(t.hourly, h)
  {
    forall k | k in ss ensures IsHourly(SourceHours(t)(k), Group(es, SourceKey(f), k)) {
      SourceRow(f, t, es, k);
    }
    HourAddsUp(es, SourceKey(f), ss, SourceHours(t), t.hourly, h);
    forall k | k in rs ensures IsHourly(RouteHours(t)(k), Group(es, RouteKey(f), k)) {
      RouteRow(f, t, es, k);
    }
    HourAddsUp(es, RouteKey(f), rs, RouteHours(t), t.hourly, h);
    forall k | k in ds ensures IsHourly(DestinationHours(t)(k), Group(es, DestinationKey(), k)) {
      DestinationRow(f, t, es, k);
    }
    HourAddsUp(es, DestinationKey(), ds, DestinationHours(t), t.hourly, h);
  }

  // ---------- the series of one entity ----------

  /** A group's own series, on the axis that the handler chose from all the entries. */
  function SeriesOn(w: Window, t: Tables, axisOrder: seq<int>, hourly: map<int, Tally>, order: seq<int>,
                    maxPoints: int): seq<Tally>
    requires maxPoints >= 1
  {
    AxisSeries(order, hourly, ChosenStart(w, axisOrder), ChosenEnd(w, axisOrder), maxPoints)
  }

  /** Where the bounds are clear, it loses none of the group's parsed entries. */
  lemma GroupSeriesConserves(w: Window, f: Strings, t: Tables, es: seq<LogEntry>, key: LogEntry -> Str, k: Str,
                             hourly: map<int, Tally>, axisOrder: seq<int>, order: seq<int>, maxPoints: int)
    requires Tabulates(f, t, es) && maxPoints >= 1
    requires forall e :: e in es ==> InWindow(w, e)
    requires BoundsAreClear(w, t.hourly.Keys) && Lists(axisOrder, t.hourly.Keys)
    requires IsHourly(hourly, Group(es, key, k)) && Lists(order, hourly.Keys)
    ensures AddAll(SeriesOn(w, t, axisOrder, hourly, order, maxPoints)) == Total(Parsed(Group(es, key, k)))
  {
    hide Tabulates, IsHourly, AxisSeries, ChosenStart, ChosenEnd, BoundsAreClear;
    var g := Group(es, key, k);
    HourlyOf(f, t, es);
    if t.hourly.Keys == {} {
      NoHoursNoEntries(es, t.hourly);
      assert forall e :: e in g && IsParsed(e) ==> e in Parsed(es);
      SelectNone(g, e => IsParsed(e));
      NothingToPlace(g, hourly, order, ChosenStart(w, axisOrder), ChosenEnd(w, axisOrder), maxPoints);
    } else {
      ClearBoundsSpan(w, es, t.hourly, axisOrder);
      SpanConserves(g, hourly, order, ChosenStart(w, axisOrder), ChosenEnd(w, axisOrder), maxPoints);
    }
  }

  lemma HourlyOf(f: Strings, t: Tables, es: seq<LogEntry>)
    requires Tabulates(f, t, es)
    ensures IsHourly(t.hourly, es)
  {
  }

  /** Without parsed entries every series adds up to nothing. */
  lemma NothingToPlace(es: seq<LogEntry>, hourly: map<int, Tally>, order: seq<int>, start: int, end: int,
                       maxPoints: int)
    requires IsHourly(hourly, es) && Lists(order, hourly.Keys) && maxPoints >= 1 && Parsed(es) == []
    ensures AddAll(AxisSeries(order, hourly, start, end, maxPoints)) == NOTHING == Total(Parsed(es))
  {
    if !IntelAxis.Empty(start, end) {
      assert forall e :: e in es && IsParsed(e) ==> e in Parsed(es);
      SpanConserves(es, hourly, order, start, end, maxPoints);
    }
  }

  /**
   * On the axis the handler chose, the series of every source, route and destination adds up to exactly
   * its own parsed entries.
   */
  lemma EntitySeriesConserve(w: Window, f: Strings, t: Tables, es: seq<LogEntry>, axisOrder: seq<int>,
                             order: seq<int>, maxPoints: int, k: Str)
    requires Tabulates(f, t, es) && maxPoints >= 1
    requires forall e :: e in es ==> InWindow(w, e)
    requires BoundsAreClear(w, t.hourly.Keys) && Lists(axisOrder, t.hourly.Keys)
    ensures k in t.sources && Lists(order, t.sources[k].hourly.Keys) ==>
      AddAll(SeriesOn(w, t, axisOrder, t.sources[k].hourly, order, maxPoints))
      == Total(Parsed(Group(es, SourceKey(f), k)))
    ensures k in t.routes && Lists(order, t.routes[k].hourly.Keys) ==>
      AddAll(SeriesOn(w, t, axisOrder, t.routes[k].hourly, order, maxPoints))
      == Total(Parsed(Group(es, RouteKey(f), k)))
    ensures k in t.destinations && Lists(order, t.destinations[k].hourly.Keys) ==>
      AddAll(SeriesOn(w, t, axisOrder, t.destinations[k].hourly, order, maxPoints))
      == Total(Parsed(Group(es, DestinationKey(), k)))
  {
    hide Tabulates, BoundsAreClear, SeriesOn, IsHourly, Lists;
    if k in t.sources && Lists(order, t.sources[k].hourly.Keys) {
      SourceRow(f, t, es, k);
      GroupSeriesConserves(w, f, t, es, SourceKey(f), k, t.sources[k].hourly, axisOrder, order, maxPoints);
    }
    if k in t.routes && Lists(order, t.routes[k].hourly.Keys) {
      RouteRow(f, t, es, k);
      GroupSeriesConserves(w, f, t, es, RouteKey(f), k, t.routes[k].hourly, axisOrder, order, maxPoints);
    }
    if k in t.destinations && Lists(order, t.destinations[k].hourly.Keys) {
      DestinationRow(f, t, es, k);
      GroupSeriesConserves(w, f, t, es, DestinationKey(), k, t.destinations[k].hourly, axisOrder, order, maxPoints);
    }
  }
}
