/** Grouping keys: fields joined with a NUL byte between them. */
module JoinedKeys {
  import opened Text
  import opened Telemetry

  /** The source's string functions that this model leaves uninterpreted. */
  datatype Strings = Strings(
    identity: Str -> Str,      // analyticsSourceIdentity
    upper: Str -> Str,         // strings.ToUpper
    country: Str -> Str,       // analyticsCountry
    port: Str -> Str,          // analyticsPort
    scope: Str -> Str,         // the scope of an enriched endpoint
    outcome: int -> Str,       // analyticsOutcome
    decimal: int -> Str,       // strconv.Itoa
    routeID: Str -> Str)       // intelRouteID

  /** strings.Join(parts, "\x00"). */
  function Join(parts: seq<Str>): Str {
    if parts == [] then []
    else if |parts| == 1 then parts[0]
    else parts[0] + [NUL] + Join(parts[1..])
  }

  predicate NulFree(s: Str) {
    NUL !in s
  }

  /** A NUL-free head in front of a NUL is determined by the whole. */
  lemma HeadIsDetermined(a: Str, b: Str, x: Str, y: Str)
    requires NulFree(a) && NulFree(b) && a + [NUL] + x == b + [NUL] + y
    ensures a == b && x == y
  {
    var s := a + [NUL] + x;
    assert s[|a|] == NUL && s[|b|] == NUL;
    assert |a| == |b|;
    assert s[..|a|] == a && s[..|b|] == b;
    assert s[|a| + 1..] == x && s[|b| + 1..] == y;
  }

  /** Joining equally many NUL-free fields loses nothing. */
  lemma {:induction false} JoinInjective(a: seq<Str>, b: seq<Str>)
    requires |a| == |b| && Join(a) == Join(b)
    requires forall i :: 0 <= i < |a| ==> NulFree(a[i]) && NulFree(b[i])
    ensures a == b
  {
    if |a| > 1 {
      HeadIsDetermined(a[0], b[0], Join(a[1..]), Join(b[1..]));
      JoinInjective(a[1..], b[1..]);
      assert a == [a[0]] + a[1..] && b == [b[0]] + b[1..];
    }
  }

  // ---------- which lists share their key ----------

  function Nuls(s: Str): nat {
    if s == [] then 0 else (if s[0] == NUL then 1 else 0) + Nuls(s[1..])
  }

  function NulsIn(parts: seq<Str>): nat {
    if parts == [] then 0 else Nuls(parts[0]) + NulsIn(parts[1..])
  }

  lemma {:induction false} NulsAppend(a: Str, b: Str)
    ensures Nuls(a + b) == Nuls(a) + Nuls(b)
  {
    if a == [] {
      assert a + b == b;
    } else {
      NulsAppend(a[1..], b);
      assert (a + b)[1..] == a[1..] + b;
    }
  }

  lemma {:induction false} NulFreeIff(s: Str)
    ensures NulFree(s) <==> Nuls(s) == 0
  {
    if s != [] {
      NulFreeIff(s[1..]);
      assert s == [s[0]] + s[1..];
    }
  }

  /** Joining adds one NUL between each two fields. */
  lemma {:induction false} NulsInJoin(parts: seq<Str>)
    requires parts != []
    ensures Nuls(Join(parts)) == NulsIn(parts) + |parts| - 1
  {
    if |parts| > 1 {
      NulsInJoin(parts[1..]);
      NulsAppend(parts[0] + [NUL], Join(parts[1..]));
      NulsAppend(parts[0], [NUL]);
    }
  }

  predicate AllNulFree(parts: seq<Str>) {
    forall i :: 0 <= i < |parts| ==> NulFree(parts[i])
  }

  lemma {:induction false} AllNulFreeIff(parts: seq<Str>)
    ensures AllNulFree(parts) <==> NulsIn(parts) == 0
  {
    if parts != [] {
      AllNulFreeIff(parts[1..]);
      NulFreeIff(parts[0]);
      assert parts == [parts[0]] + parts[1..];
    }
  }

  /** A NUL-free list has its key to itself among the lists of its length, whatever the other holds. */
  lemma NulFreeKeyIsOwn(a: seq<Str>, b: seq<Str>)
    requires |a| == |b| && Join(a) == Join(b) && AllNulFree(a)
    ensures a == b
  {
    if a != [] {
      NulsInJoin(a);
      NulsInJoin(b);
      AllNulFreeIff(a);
      AllNulFreeIff(b);
      JoinInjective(a, b);
    }
  }

  /** The key depends only on two neighbours joined, not on where the NUL between them stands. */
  lemma {:induction false} JoinMerges(before: seq<Str>, u: Str, v: Str, behind: seq<Str>)
    ensures Join(before + [u, v] + behind) == Join(before + [u + [NUL] + v] + behind)
  {
    if before == [] {
      assert [] + [u, v] + behind == [u, v] + behind;
      assert [] + [u + [NUL] + v] + behind == [u + [NUL] + v] + behind;
      assert ([u, v] + behind)[1..] == [v] + behind;
      assert ([v] + behind)[1..] == behind && ([u + [NUL] + v] + behind)[1..] == behind;
      if behind == [] {
        assert [v] + behind == [v];
      } else {
        assert u + [NUL] + (v + [NUL] + Join(behind)) == u + [NUL] + v + [NUL] + Join(behind);
      }
    } else {
      JoinMerges(before[1..], u, v, behind);
      assert (before + [u, v] + behind)[1..] == before[1..] + [u, v] + behind;
      assert (before + [u + [NUL] + v] + behind)[1..] == before[1..] + [u + [NUL] + v] + behind;
    }
  }

  /** Two neighbours can trade a stretch that ends at a NUL. */
  lemma NeighboursTrade(before: seq<Str>, x: Str, y: Str, z: Str, behind: seq<Str>)
    ensures Join(before + [x + [NUL] + y, z] + behind) == Join(before + [x, y + [NUL] + z] + behind)
  {
    JoinMerges(before, x + [NUL] + y, z, behind);
    JoinMerges(before, x, y + [NUL] + z, behind);
    assert x + [NUL] + y + [NUL] + z == x + [NUL] + (y + [NUL] + z);
  }

  /** Another list of the same length with the same key. */
  ghost predicate Collides(a: seq<Str>, b: seq<Str>) {
    |b| == |a| && b != a && Join(b) == Join(a)
  }

  lemma NulCollides(a: seq<Str>, i: nat) returns (b: seq<Str>)
    requires i < |a| && |a| >= 2 && !NulFree(a[i])
    ensures Collides(a, b)
  {
    var k: nat :| k < |a[i]| && a[i][k] == NUL;
    var x, y := a[i][..k], a[i][k + 1..];
    assert a[i] == x + [NUL] + y;
    if i + 1 < |a| {
      var z := a[i + 1];
      assert a == a[..i] + [x + [NUL] + y, z] + a[i + 2..];
      b := a[..i] + [x, y + [NUL] + z] + a[i + 2..];
      NeighboursTrade(a[..i], x, y, z, a[i + 2..]);
      assert b[i] == x;
    } else {
      var z := a[i - 1];
      assert a == a[..i - 1] + [z, x + [NUL] + y] + a[i + 1..];
      b := a[..i - 1] + [z + [NUL] + x, y] + a[i + 1..];
      NeighboursTrade(a[..i - 1], z, x, y, a[i + 1..]);
      assert b[i] == y;
    }
  }

  /** A list of two or more fields shares its key with another of its length iff some field holds a NUL. */
  lemma CollidesIff(a: seq<Str>)
    requires |a| >= 2
    ensures (exists b :: Collides(a, b)) <==> !AllNulFree(a)
  {
    if AllNulFree(a) {
      forall b | Collides(a, b) ensures false {
        NulFreeKeyIsOwn(a, b);
      }
    } else {
      var i: nat :| i < |a| && !NulFree(a[i]);
      var b := NulCollides(a, i);
    }
  }

  // ---------- the keys of an entry ----------

  function PathFields(f: Strings, e: LogEntry): seq<Str> {
    [f.identity(e.clientIP), e.proxyAddr, e.upstreamAddr, f.upper(e.protocol)]
  }

  function RouteFields(f: Strings, e: LogEntry): seq<Str> {
    [e.proxyAddr, e.upstreamAddr, f.upper(e.protocol)]
  }

  /** analyticsPathKey. */
  function PathKey(f: Strings): LogEntry -> Str {
    (e: LogEntry) => Join(PathFields(f, e))
  }

  /** intelRouteKey. */
  function RouteKey(f: Strings): LogEntry -> Str {
    (e: LogEntry) => Join(RouteFields(f, e))
  }

  function SourceKey(f: Strings): LogEntry -> Str {
    (e: LogEntry) => f.identity(e.clientIP)
  }

  function ListenerKey(): LogEntry -> Str {
    (e: LogEntry) => e.proxyAddr
  }

  function DestinationKey(): LogEntry -> Str {
    (e: LogEntry) => e.upstreamAddr
  }

  function ProtocolKey(f: Strings): LogEntry -> Str {
    (e: LogEntry) => f.upper(e.protocol)
  }

  function CountryKey(f: Strings): LogEntry -> Str {
    (e: LogEntry) => f.country(e.country)
  }

  function PortKey(f: Strings): LogEntry -> Str {
    (e: LogEntry) => f.port(e.upstreamAddr)
  }

  function RouteIDKey(f: Strings): LogEntry -> Str {
    (e: LogEntry) => f.routeID(Join(RouteFields(f, e)))
  }

  predicate CleanFields(f: Strings, e: LogEntry) {
    AllNulFree(PathFields(f, e))
  }

  /** The keys written out, with a NUL between the fields. */
  lemma KeysRead(f: Strings, e: LogEntry)
    ensures var route := e.proxyAddr + [0] + e.upstreamAddr + [0] + f.upper(e.protocol);
      && PathKey(f)(e) == f.identity(e.clientIP) + [0] + route
      && RouteKey(f)(e) == route
      && RouteIDKey(f)(e) == f.routeID(route)
  {
    var listener, destination, protocol := e.proxyAddr, e.upstreamAddr, f.upper(e.protocol);
    assert PathFields(f, e)[1..] == RouteFields(f, e) == [listener, destination, protocol];
    assert RouteFields(f, e)[1..] == [destination, protocol] && [destination, protocol][1..] == [protocol];
    assert Join(RouteFields(f, e)) == listener + [0] + Join([destination, protocol]);
    assert Join([destination, protocol]) == destination + [0] + protocol;
    assert listener + [0] + (destination + [0] + protocol) == listener + [0] + destination + [0] + protocol;
  }

  /** If one of two entries has NUL-free fields, one path key is one (source, listener, destination, protocol). */
  lemma PathKeyIff(f: Strings, d: LogEntry, e: LogEntry)
    requires CleanFields(f, d)
    ensures PathKey(f)(d) == PathKey(f)(e) <==> PathFields(f, d) == PathFields(f, e)
  {
    if PathKey(f)(d) == PathKey(f)(e) {
      NulFreeKeyIsOwn(PathFields(f, d), PathFields(f, e));
    }
  }

  lemma RouteKeyIff(f: Strings, d: LogEntry, e: LogEntry)
    requires AllNulFree(RouteFields(f, d))
    ensures RouteKey(f)(d) == RouteKey(f)(e) <==> RouteFields(f, d) == RouteFields(f, e)
  {
    if RouteKey(f)(d) == RouteKey(f)(e) {
      NulFreeKeyIsOwn(RouteFields(f, d), RouteFields(f, e));
    }
  }

  /**
   * Two log entries of one client, to destination "C" through listener "A NUL B" and to destination
   * "B NUL C" through listener "A": different paths, one path key.
   */
  lemma EntriesCollide(f: Strings, e: LogEntry)
    ensures var d1 := e.(proxyAddr := [65, NUL, 66], upstreamAddr := [67]);
      var d2 := e.(proxyAddr := [65], upstreamAddr := [66, NUL, 67]);
      PathFields(f, d1) != PathFields(f, d2) && PathKey(f)(d1) == PathKey(f)(d2)
  {
    var d1 := e.(proxyAddr := [65, NUL, 66], upstreamAddr := [67]);
    var d2 := e.(proxyAddr := [65], upstreamAddr := [66, NUL, 67]);
    var source, protocol := f.identity(e.clientIP), f.upper(e.protocol);
    NeighboursTrade([source], [65], [66], [67], [protocol]);
    assert [65, NUL, 66] == [65] + [NUL] + [66] && [66, NUL, 67] == [66] + [NUL] + [67];
    assert PathFields(f, d1) == [source] + [[65] + [NUL] + [66], [67]] + [protocol];
    assert PathFields(f, d2) == [source] + [[65], [66] + [NUL] + [67]] + [protocol];
    assert PathFields(f, d1)[1] != PathFields(f, d2)[1];
  }

  /** Another path with the same key. */
  ghost predicate SharesKey(f: Strings, d: LogEntry, e: LogEntry) {
    PathFields(f, e) != PathFields(f, d) && PathKey(f)(e) == PathKey(f)(d)
  }

  /** A NUL in the listener or the destination lets an entry with the two changed share the key. */
  lemma NulSharesKey(f: Strings, d: LogEntry) returns (e: LogEntry)
    requires !NulFree(d.proxyAddr) || !NulFree(d.upstreamAddr)
    ensures SharesKey(f, d, e)
  {
    var pair := [d.proxyAddr, d.upstreamAddr];
    var other := NulCollides(pair, if NulFree(d.proxyAddr) then 1 else 0);
    var source, protocol := f.identity(d.clientIP), f.upper(d.protocol);
    e := d.(proxyAddr := other[0], upstreamAddr := other[1]);
    assert other == [other[0], other[1]];
    JoinMerges([], pair[0], pair[1], []);
    JoinMerges([], other[0], other[1], []);
    assert [] + pair + [] == pair && [] + other + [] == other;
    assert Join(pair) == pair[0] + [NUL] + pair[1] && Join(other) == other[0] + [NUL] + other[1];
    JoinMerges([source], pair[0], pair[1], [protocol]);
    JoinMerges([source], other[0], other[1], [protocol]);
    assert PathFields(f, d) == [source] + [pair[0], pair[1]] + [protocol];
    assert PathFields(f, e) == [source] + [other[0], other[1]] + [protocol];
    assert PathFields(f, e)[1] == other[0] && PathFields(f, e)[2] == other[1];
  }

  /** With a NUL-free source and protocol, an entry shares its key iff its listener or destination holds a NUL. */
  lemma SharesKeyIff(f: Strings, d: LogEntry)
    requires NulFree(f.identity(d.clientIP)) && NulFree(f.upper(d.protocol))
    ensures (exists e :: SharesKey(f, d, e)) <==> !NulFree(d.proxyAddr) || !NulFree(d.upstreamAddr)
  {
    if NulFree(d.proxyAddr) && NulFree(d.upstreamAddr) {
      forall e | SharesKey(f, d, e) ensures false {
        PathKeyIff(f, d, e);
      }
    } else {
      var e := NulSharesKey(f, d);
    }
  }
}
