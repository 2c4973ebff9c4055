/** filterAnalyticsEntries: the time window and the other filters of a request. */
module EntryFilter {
  import opened Sequences
  import opened Telemetry
  import opened Text

  /** A zero bound is an absent bound. */
  datatype Window = Window(start: int, end: int)

  const NO_WINDOW := Window(ZERO_TIME, ZERO_TIME)

  predicate IsParsed(e: LogEntry) {
    e.time != ZERO_TIME
  }

  predicate InWindow(w: Window, e: LogEntry) {
    && (w.start != ZERO_TIME || w.end != ZERO_TIME ==> IsParsed(e))
    && (w.start != ZERO_TIME ==> w.start <= e.time)
    && (w.end != ZERO_TIME ==> e.time < w.end)
  }

  /** The texts a request filters by; an empty one filters nothing. */
  datatype Filters = Filters(
    source: Str, sourceIP: Str, listener: Str, listenerIP: Str, destination: Str, destinationIP: Str,
    protocol: Str, country: Str, outcome: Str, pathID: Str)

  /** The source's functions that this model leaves uninterpreted. */
  datatype Matchers = Matchers(
    endpointMatches: (Str, Str) -> bool,    // analyticsEndpointMatches of an enriched endpoint
    listenerMatches: (Str, Str) -> bool,    // the same of an enriched listener
    endpointIP: Str -> Str,                 // the address of parseAnalyticsEndpoint
    listenerIP: Str -> Str,                 // the address of parseAnalyticsListener
    contains: (Str, Str) -> bool,           // analyticsContains
    country: Str -> Str,                    // analyticsCountry
    outcome: int -> Str,                    // analyticsOutcome
    pathID: LogEntry -> Str)                // analyticsPathID of the path key

  predicate WantedEndpoints(f: Filters, m: Matchers, e: LogEntry) {
    && (f.source != [] ==> m.endpointMatches(e.clientIP, f.source))
    && (f.sourceIP != [] ==> m.endpointIP(e.clientIP) == f.sourceIP)
    && (f.listener != [] ==> m.listenerMatches(e.proxyAddr, f.listener))
    && (f.listenerIP != [] ==> m.listenerIP(e.proxyAddr) == f.listenerIP)
    && (f.destination != [] ==> m.endpointMatches(e.upstreamAddr, f.destination))
    && (f.destinationIP != [] ==> m.endpointIP(e.upstreamAddr) == f.destinationIP)
  }

  predicate WantedFields(f: Filters, m: Matchers, e: LogEntry) {
    && (f.protocol != [] ==> m.contains(e.protocol, f.protocol))
    && (f.country != [] ==> m.contains(m.country(e.country), f.country))
    && (f.outcome != [] ==> m.outcome(e.status) == f.outcome)
    && (f.pathID != [] ==> m.pathID(e) == f.pathID)
  }

  predicate Wanted(f: Filters, m: Matchers, e: LogEntry) {
    WantedEndpoints(f, m, e) && WantedFields(f, m, e)
  }

  function Passes(w: Window, f: Filters, m: Matchers): LogEntry -> bool {
    (e: LogEntry) => InWindow(w, e) && Wanted(f, m, e)
  }

  method EndpointsKept(e: LogEntry, f: Filters, m: Matchers) returns (kept: bool)
    ensures kept == WantedEndpoints(f, m, e)
  {
    if f.source != [] && !m.endpointMatches(e.clientIP, f.source) {
      return false;
    }
    if f.sourceIP != [] && m.endpointIP(e.clientIP) != f.sourceIP {
      return false;
    }
    if f.listener != [] && !m.listenerMatches(e.proxyAddr, f.listener) {
      return false;
    }
    if f.listenerIP != [] && m.listenerIP(e.proxyAddr) != f.listenerIP {
      return false;
    }
    if f.destination != [] && !m.endpointMatches(e.upstreamAddr, f.destination) {
      return false;
    }
    if f.destinationIP != [] && m.endpointIP(e.upstreamAddr) != f.destinationIP {
      return false;
    }
    return true;
  }

  method FieldsKept(e: LogEntry, f: Filters, m: Matchers) returns (kept: bool)
    ensures kept == WantedFields(f, m, e)
  {
    if f.protocol != [] && !m.contains(e.protocol, f.protocol) {
      return false;
    }
    if f.country != [] && !m.contains(m.country(e.country), f.country) {
      return false;
    }
    if f.outcome != [] && m.outcome(e.status) != f.outcome {
      return false;
    }
    if f.pathID != [] && m.pathID(e) != f.pathID {
      return false;
    }
    return true;
  }

  /** One pass through the loop, up to its append. */
  method Kept(e: LogEntry, w: Window, f: Filters, m: Matchers) returns (kept: bool)
    ensures kept == (InWindow(w, e) && Wanted(f, m, e))
  {
    if (w.start != ZERO_TIME || w.end != ZERO_TIME) && e.time == ZERO_TIME {
      return false;
    }
    if w.start != ZERO_TIME && e.time < w.start {
      return false;
    }
    if w.end != ZERO_TIME && !(e.time < w.end) {
      return false;
    }
    var endpoints := EndpointsKept(e, f, m);
    if !endpoints {
      return false;
    }
    kept := FieldsKept(e, f, m);
  }

  /** Exactly the entries in the window that pass every other filter, in order. */
  method FilterEntries(entries: seq<LogEntry>, w: Window, f: Filters, m: Matchers) returns (filtered: seq<LogEntry>)
    ensures filtered == Select(entries, Passes(w, f, m))
  {
    filtered := [];
    for i := 0 to |entries|
      invariant filtered == Select(entries[..i], Passes(w, f, m))
    {
      assert entries[..i + 1] == entries[..i] + [entries[i]];
      SelectAppend(entries[..i], entries[i], Passes(w, f, m));
      var kept := Kept(entries[i], w, f, m);
      if kept {
        filtered := filtered + [entries[i]];
      }
    }
    assert entries[..|entries|] == entries;
  }

  // ---------- what each filter asks ----------

  const NO_FILTERS := Filters([], [], [], [], [], [], [], [], [], [])

  /** One bound alone or both: not before the start, and before the end; without a time, no bound is met. */
  lemma WindowMeans(start: int, end: int, e: LogEntry)
    requires start != ZERO_TIME && end != ZERO_TIME
    ensures InWindow(NO_WINDOW, e)
    ensures InWindow(Window(start, end), e) <==> e.time != ZERO_TIME && start <= e.time < end
    ensures InWindow(Window(start, ZERO_TIME), e) <==> e.time != ZERO_TIME && start <= e.time
    ensures InWindow(Window(ZERO_TIME, end), e) <==> e.time != ZERO_TIME && e.time < end
  {
  }

  /** What each filter asks of an entry when it is the only one. */
  lemma EachFilter(v: Str, m: Matchers, e: LogEntry)
    requires v != []
    ensures Wanted(NO_FILTERS, m, e)
    ensures Wanted(NO_FILTERS.(source := v), m, e) <==> m.endpointMatches(e.clientIP, v)
    ensures Wanted(NO_FILTERS.(sourceIP := v), m, e) <==> m.endpointIP(e.clientIP) == v
    ensures Wanted(NO_FILTERS.(listener := v), m, e) <==> m.listenerMatches(e.proxyAddr, v)
    ensures Wanted(NO_FILTERS.(listenerIP := v), m, e) <==> m.listenerIP(e.proxyAddr) == v
    ensures Wanted(NO_FILTERS.(destination := v), m, e) <==> m.endpointMatches(e.upstreamAddr, v)
    ensures Wanted(NO_FILTERS.(destinationIP := v), m, e) <==> m.endpointIP(e.upstreamAddr) == v
    ensures Wanted(NO_FILTERS.(protocol := v), m, e) <==> m.contains(e.protocol, v)
    ensures Wanted(NO_FILTERS.(country := v), m, e) <==> m.contains(m.country(e.country), v)
    ensures Wanted(NO_FILTERS.(outcome := v), m, e) <==> m.outcome(e.status) == v
    ensures Wanted(NO_FILTERS.(pathID := v), m, e) <==> m.pathID(e) == v
  {
  }

  /** Several filters ask for all that each of them asks alone. */
  lemma FiltersCombine(f: Filters, m: Matchers, e: LogEntry)
    ensures Wanted(f, m, e)
       <==> && Wanted(NO_FILTERS.(source := f.source), m, e)
            && Wanted(NO_FILTERS.(sourceIP := f.sourceIP), m, e)
            && Wanted(NO_FILTERS.(listener := f.listener), m, e)
            && Wanted(NO_FILTERS.(listenerIP := f.listenerIP), m, e)
            && Wanted(NO_FILTERS.(destination := f.destination), m, e)
            && Wanted(NO_FILTERS.(destinationIP := f.destinationIP), m, e)
            && Wanted(NO_FILTERS.(protocol := f.protocol), m, e)
            && Wanted(NO_FILTERS.(country := f.country), m, e)
            && Wanted(NO_FILTERS.(outcome := f.outcome), m, e)
            && Wanted(NO_FILTERS.(pathID := f.pathID), m, e)
  {
  }
}
