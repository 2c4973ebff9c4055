/** What the log says about a configured stream: the host evidence and the protocol. */
module StreamEvidence {
  import opened Options
  import opened Text
  import opened Sequences
  import opened Sorting

  datatype Stream = Stream(id: int, incoming: int, host: Str, forwarding: int, tcp: bool, udp: bool)

  /** An endpoint as parsed from its raw address; ip is empty when the host is no address. */
  datatype Endpoint = Endpoint(raw: Str, ip: Str, port: Str)

  /** What is said about a match: no stream data, no candidate, or how far the candidates are certain. */
  datatype Status = Unavailable | Unmatched | Indeterminate | Matched | Ambiguous

  /** strconv.Atoi: on an error the value is what it returns beside it. */
  datatype Number = Number(value: int, ok: bool)

  /** The source's functions that this model leaves uninterpreted. */
  datatype Names = Names(
    parseIP: Str -> Option<Str>,    // net.ParseIP, rendered back by String
    hostOf: Str -> Str,             // the host of parseAnalyticsEndpoint
    number: Str -> Number,          // strconv.Atoi
    lower: Str -> Str,              // strings.ToLower
    upper: Str -> Str,              // strings.ToUpper
    fold: (Str, Str) -> bool,       // strings.EqualFold
    endpoint: Str -> Endpoint,      // enrichAnalyticsEndpoint, without the alias display
    listener: Str -> Endpoint)      // enrichAnalyticsListener, without the alias display

  /** Managed DNS aliases by address. */
  type Aliases = map<Str, seq<Str>>

  datatype Evidence = Mismatch | Match | Inconclusive

  const OPEN_BRACKET: Byte := 91
  const CLOSE_BRACKET: Byte := 93
  const DOT: Byte := 46
  const TCP: Str := [84, 67, 80]
  const UDP: Str := [85, 68, 80]

  function TrimBrackets(s: Str): Str {
    var t := if |s| > 0 && s[|s| - 1] == CLOSE_BRACKET then s[..|s| - 1] else s;
    if |t| > 0 && t[0] == OPEN_BRACKET then t[1..] else t
  }

  predicate HasSuffix(s: Str, suffix: Str) {
    |suffix| <= |s| && s[|s| - |suffix|..] == suffix
  }

  /** The configured name is the alias, or a name below it. */
  predicate AliasMatches(n: Names, configured: Str, alias: Str) {
    n.lower(configured) == n.lower(alias) || HasSuffix(n.lower(configured), [DOT] + n.lower(alias))
  }

  function AliasesOf(aliases: Aliases, ip: Str): seq<Str> {
    if ip in aliases then aliases[ip] else []
  }

  /** analyticsStreamHostEvidence. */
  function HostEvidence(n: Names, configuredHost: Str, destination: Endpoint, aliases: Aliases): Evidence {
    var host := TrimSpace(TrimBrackets(configuredHost));
    if host == [] then Inconclusive
    else if n.parseIP(host).Some? then
      if destination.ip == [] then Inconclusive
      else if n.parseIP(host).value == destination.ip then Match
      else Mismatch
    else if destination.ip == [] && n.fold(host, n.hostOf(destination.raw)) then Match
    else if exists alias | alias in AliasesOf(aliases, destination.ip) :: AliasMatches(n, host, alias) then Match
    else Inconclusive
  }

  /** Every alias of a is one of b, for the same address. */
  ghost predicate Extends(a: Aliases, b: Aliases) {
    forall ip, alias :: alias in AliasesOf(a, ip) ==> alias in AliasesOf(b, ip)
  }

  /** Only two different addresses contradict each other: aliases never rule a stream out. */
  lemma MismatchIff(n: Names, configuredHost: Str, destination: Endpoint, aliases: Aliases)
    ensures HostEvidence(n, configuredHost, destination, aliases) == Mismatch
       <==> var host := TrimSpace(TrimBrackets(configuredHost));
            host != [] && destination.ip != [] && n.parseIP(host).Some? && n.parseIP(host).value != destination.ip
  {
  }

  /** More aliases can only turn indeterminate evidence into a match. */
  lemma EvidenceGrows(n: Names, configuredHost: Str, destination: Endpoint, a: Aliases, b: Aliases)
    requires Extends(a, b)
    ensures var before, after := HostEvidence(n, configuredHost, destination, a),
                                 HostEvidence(n, configuredHost, destination, b);
      before == after || (before == Inconclusive && after == Match)
  {
    var host := TrimSpace(TrimBrackets(configuredHost));
    if exists alias :: alias in AliasesOf(a, destination.ip) && AliasMatches(n, host, alias) {
      var alias :| alias in AliasesOf(a, destination.ip) && AliasMatches(n, host, alias);
      assert alias in AliasesOf(b, destination.ip);
    }
  }

  // ---------- the evidence in terms of the fields ----------

  /** One closing bracket goes off the end and one opening bracket off the front, if they are there. */
  lemma TrimBracketsMeans(h: Str)
    ensures TrimBrackets([91] + h + [93]) == h
    ensures h != [] && h[|h| - 1] != 93 ==> TrimBrackets([91] + h) == h
    ensures h == [] || h[0] != 91 ==> TrimBrackets(h + [93]) == h
    ensures h == [] || (h[0] != 91 && h[|h| - 1] != 93) ==> TrimBrackets(h) == h
  {
    assert ([91] + h + [93])[..|h| + 1] == [91] + h && ([91] + h)[1..] == h;
    assert (h + [93])[..|h|] == h;
  }

  /** The configured name belongs to one of the address's aliases: equal but for case, or below it. */
  ghost predicate NamedByAlias(n: Names, host: Str, destination: Endpoint, aliases: Aliases) {
    exists alias, below :: destination.ip in aliases && alias in aliases[destination.ip]
      && (n.lower(host) == n.lower(alias) || n.lower(host) == below + [46] + n.lower(alias))
  }

  /** The configuration proves the host: the same address, the same raw host, or an alias of the address. */
  ghost predicate HostProven(n: Names, s: Stream, destination: Endpoint, aliases: Aliases) {
    var host := TrimSpace(TrimBrackets(s.host));
    && host != []
    && match n.parseIP(host) {
         case Some(ip) => destination.ip != [] && ip == destination.ip
         case None => (destination.ip == [] && n.fold(host, n.hostOf(destination.raw)))
                      || NamedByAlias(n, host, destination, aliases)
       }
  }

  /** The configuration contradicts the host: two different addresses. */
  ghost predicate HostContradicted(n: Names, s: Stream, destination: Endpoint) {
    var host := TrimSpace(TrimBrackets(s.host));
    host != [] && n.parseIP(host).Some? && destination.ip != [] && n.parseIP(host).value != destination.ip
  }

  lemma AliasNames(n: Names, host: Str, alias: Str)
    ensures AliasMatches(n, host, alias)
       <==> n.lower(host) == n.lower(alias) || exists below :: n.lower(host) == below + [46] + n.lower(alias)
  {
    var whole, end := n.lower(host), [46] + n.lower(alias);
    if HasSuffix(whole, end) {
      assert whole == whole[..|whole| - |end|] + [46] + n.lower(alias);
    }
    forall below | whole == below + [46] + n.lower(alias) ensures HasSuffix(whole, end) {
      assert whole == below + end;
    }
  }

  lemma NamedIff(n: Names, host: Str, destination: Endpoint, aliases: Aliases)
    ensures (exists alias :: alias in AliasesOf(aliases, destination.ip) && AliasMatches(n, host, alias))
       <==> NamedByAlias(n, host, destination, aliases)
  {
    if alias :| alias in AliasesOf(aliases, destination.ip) && AliasMatches(n, host, alias) {
      AliasNames(n, host, alias);
      if n.lower(host) != n.lower(alias) {
        var below :| n.lower(host) == below + [46] + n.lower(alias);
      }
    }
    if NamedByAlias(n, host, destination, aliases) {
      var alias, below :| destination.ip in aliases && alias in aliases[destination.ip]
        && (n.lower(host) == n.lower(alias) || n.lower(host) == below + [46] + n.lower(alias));
      AliasNames(n, host, alias);
    }
  }

  /** All three answers of the evidence, in the fields of stream and endpoint. */
  lemma EvidenceMeans(n: Names, s: Stream, destination: Endpoint, aliases: Aliases)
    ensures HostEvidence(n, s.host, destination, aliases) == Match <==> HostProven(n, s, destination, aliases)
    ensures HostEvidence(n, s.host, destination, aliases) == Mismatch <==> HostContradicted(n, s, destination)
  {
    hide TrimSpace, TrimBrackets, AliasMatches, AliasesOf;
    NamedIff(n, TrimSpace(TrimBrackets(s.host)), destination, aliases);
  }

  predicate ProtocolKnown(n: Names, protocol: Str) {
    n.upper(TrimSpace(protocol)) == TCP || n.upper(TrimSpace(protocol)) == UDP
  }

  predicate ProtocolMatches(n: Names, s: Stream, protocol: Str) {
    (n.upper(TrimSpace(protocol)) == TCP && s.tcp) || (n.upper(TrimSpace(protocol)) == UDP && s.udp)
  }

  // ---------- order by ID ----------

  /** No two streams share an ID. */
  ghost predicate DistinctIDs(streams: seq<Stream>) {
    forall i, j :: 0 <= i < |streams| && 0 <= j < |streams| && streams[i].id == streams[j].id ==> i == j
  }

  function ByID(): (Stream, Stream) -> bool {
    (a: Stream, b: Stream) => a.id <= b.id
  }

  method SortByID(streams: seq<Stream>) returns (r: seq<Stream>)
    ensures SortedBy(r, ByID()) && Rearranges(r, streams)
  {
    r := Sort(streams, ByID());
  }

  /** With distinct IDs there is one order by ID. */
  lemma OrderByIDIsUnique(a: seq<Stream>, b: seq<Stream>, streams: seq<Stream>)
    requires DistinctIDs(streams)
    requires SortedBy(a, ByID()) && SortedBy(b, ByID()) && Rearranges(a, b)
    requires forall s :: s in a ==> s in streams
    ensures a == b
  {
    forall i, j | 0 <= i < |a| && 0 <= j < |a| && ByID()(a[i], a[j]) && ByID()(a[j], a[i]) ensures a[i] == a[j] {
      assert a[i] in a && a[j] in a && a[i] in streams && a[j] in streams;
      var k: nat :| k < |streams| && streams[k] == a[i];
      var l: nat :| l < |streams| && streams[l] == a[j];
      assert streams[k].id == streams[l].id;
    }
    SortedIsUnique(a, b, ByID());
  }
}
