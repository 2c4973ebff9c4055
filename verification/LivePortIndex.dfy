/** The port index over the TCP streams, and the correlation of one live connection with it. */
module LivePortIndex {
  import opened Text
  import opened Sequences
  import opened Sorting
  import opened StreamEvidence
  import opened Telemetry

  const MAX_CANDIDATES: nat := 20

  datatype Role = NoRole | InboundListener | OutboundUpstream
  datatype Confidence = NoConfidence | ListenerPort | ExactCurrentConfig | PortOnly

  datatype Correlation = Correlation(role: Role, confidence: Confidence, status: Status, streams: seq<Stream>)

  /** What the correlation reads of a connection: its two endpoints. */
  datatype Connection = Connection(local: Endpoint, remote: Endpoint) {
    /** The errors of both conversions are ignored. */
    function LocalPort(n: Names): int {
      n.number(local.port).value
    }

    function RemotePort(n: Names): int {
      n.number(remote.port).value
    }
  }

  type PortIndex = map<int, seq<Stream>>

  function At(index: PortIndex, port: int): seq<Stream> {
    if port in index then index[port] else []
  }

  function IncomingAt(port: int): Stream -> bool {
    (s: Stream) => s.tcp && s.incoming == port
  }

  function ForwardingAt(port: int): Stream -> bool {
    (s: Stream) => s.tcp && s.forwarding == port
  }

  // ---------- building the index ----------

  /** The list at each port holds the streams with that port, in the order they came. */
  ghost predicate Indexes(index: PortIndex, streams: seq<Stream>, at: int -> Stream -> bool) {
    forall port :: At(index, port) == Select(streams, at(port))
  }

  /** The list at each port holds the streams with that port, in ID order. */
  ghost predicate IndexesByID(index: PortIndex, streams: seq<Stream>, at: int -> Stream -> bool) {
    forall port :: SortedBy(At(index, port), ByID()) && Rearranges(At(index, port), Select(streams, at(port)))
  }

  function Appended(index: PortIndex, port: int, s: Stream): PortIndex {
    index[port := At(index, port) + [s]]
  }

  lemma AppendedStep(index: PortIndex, streams: seq<Stream>, s: Stream, port: int, at: int -> Stream -> bool)
    requires Indexes(index, streams, at) && forall k :: at(k)(s) <==> k == port
    ensures Indexes(Appended(index, port, s), streams + [s], at)
  {
    forall k ensures At(Appended(index, port, s), k) == Select(streams + [s], at(k)) {
      SelectAppend(streams, s, at(k));
    }
  }

  lemma SkippedStep(index: PortIndex, streams: seq<Stream>, s: Stream, at: int -> Stream -> bool)
    requires Indexes(index, streams, at) && forall k :: !at(k)(s)
    ensures Indexes(index, streams + [s], at)
  {
    forall k ensures At(index, k) == Select(streams + [s], at(k)) {
      SelectAppend(streams, s, at(k));
    }
  }

  /** Each list sorted in place, in whatever order the map gives them. */
  method SortLists(index: PortIndex, ghost streams: seq<Stream>, ghost at: int -> Stream -> bool)
      returns (sorted: PortIndex)
    requires Indexes(index, streams, at)
    ensures IndexesByID(sorted, streams, at)
  {
    sorted := index;
    var rest := index.Keys;
    while rest != {}
      invariant rest <= index.Keys == sorted.Keys
      invariant forall k :: k in rest ==> sorted[k] == index[k]
      invariant forall k :: k in index && k !in rest ==> SortedBy(sorted[k], ByID()) && Rearranges(sorted[k], index[k])
      decreases |rest|
    {
      var port := Pick(rest);
      rest := rest - {port};
      var candidates := SortByID(sorted[port]);
      sorted := sorted[port := candidates];
    }
    forall port ensures SortedBy(At(sorted, port), ByID()) && Rearranges(At(sorted, port), Select(streams, at(port))) {
      assert At(index, port) == Select(streams, at(port));
    }
  }

  /** The index as built once from the configured streams. */
  class StreamIndex {
    var incomingByPort: PortIndex
    var forwardingByPort: PortIndex

    ghost predicate Describes(streams: seq<Stream>)
      reads this
    {
      IndexesByID(incomingByPort, streams, IncomingAt) && IndexesByID(forwardingByPort, streams, ForwardingAt)
    }

    constructor (streams: seq<Stream>)
      ensures Describes(streams)
    {
      var incoming: PortIndex, forwarding: PortIndex := map[], map[];
      for i := 0 to |streams|
        invariant Indexes(incoming, streams[..i], IncomingAt)
        invariant Indexes(forwarding, streams[..i], ForwardingAt)
      {
        var s := streams[i];
        assert streams[..i + 1] == streams[..i] + [s];
        if !s.tcp {
          SkippedStep(incoming, streams[..i], s, IncomingAt);
          SkippedStep(forwarding, streams[..i], s, ForwardingAt);
          continue;
        }
        AppendedStep(incoming, streams[..i], s, s.incoming, IncomingAt);
        AppendedStep(forwarding, streams[..i], s, s.forwarding, ForwardingAt);
        incoming := Appended(incoming, s.incoming, s);
        forwarding := Appended(forwarding, s.forwarding, s);
      }
      assert streams[..|streams|] == streams;
      incoming := SortLists(incoming, streams, IncomingAt);
      forwarding := SortLists(forwarding, streams, ForwardingAt);
      incomingByPort, forwardingByPort := incoming, forwarding;
    }

    /** correlateLiveConnection, through the index. */
    method Correlate(n: Names, c: Connection, aliases: Aliases, available: bool, ghost streams: seq<Stream>,
                     ghost scanned: seq<Stream>) returns (r: Correlation)
      requires Describes(streams) && DistinctIDs(streams)
      requires SortedBy(scanned, ByID()) && Rearranges(scanned, streams)
      ensures r == Scan(n, scanned, c, aliases, available)
      ensures r.status == Unavailable <==> !available
      ensures available ==> Answers(n, c, aliases, streams, r)
      ensures !available ==> r == Correlation(NoRole, NoConfidence, Unavailable, [])
    {
      hide HostEvidence, Answers;
      ScanAnswers(n, scanned, c, aliases, streams);
      if !available {
        return Correlation(NoRole, NoConfidence, Unavailable, []);
      }
      IndexedIsScanned(incomingByPort, streams, scanned, IncomingAt, c.LocalPort(n));
      IndexedIsScanned(forwardingByPort, streams, scanned, ForwardingAt, c.RemotePort(n));
      var inbound := At(incomingByPort, c.LocalPort(n));
      var exact, portOnly := Classify(n, At(forwardingByPort, c.RemotePort(n)), c.remote, aliases);
      SelectTwice(scanned, ForwardingAt(c.RemotePort(n)), HasEvidence(n, c.remote, aliases, Match),
                  Outbound(n, c, aliases, Match));
      SelectTwice(scanned, ForwardingAt(c.RemotePort(n)), HasEvidence(n, c.remote, aliases, Inconclusive),
                  Outbound(n, c, aliases, Inconclusive));
      var candidates, role, confidence := inbound, InboundListener, ListenerPort;
      if |exact| > 0 {
        candidates, role, confidence := exact, OutboundUpstream, ExactCurrentConfig;
      } else if |inbound| == 0 {
        candidates, role, confidence := portOnly, OutboundUpstream, PortOnly;
      }
      if |candidates| == 0 {
        return Correlation(NoRole, NoConfidence, Unmatched, []);
      }
      var status := Ambiguous;
      if confidence == PortOnly {
        status := Indeterminate;
      } else if |candidates| == 1 {
        status := Matched;
      }
      if |candidates| > MAX_CANDIDATES {
        candidates := candidates[..MAX_CANDIDATES];
      }
      return Correlation(role, confidence, status, candidates);
    }
  }

  /** The loop over the streams forwarding to the remote port. */
  method Classify(n: Names, listed: seq<Stream>, remote: Endpoint, aliases: Aliases)
      returns (exact: seq<Stream>, portOnly: seq<Stream>)
    ensures exact == Select(listed, HasEvidence(n, remote, aliases, Match))
    ensures portOnly == Select(listed, HasEvidence(n, remote, aliases, Inconclusive))
  {
    hide HostEvidence, Select;
    exact, portOnly := [], [];
    SelectNone([], HasEvidence(n, remote, aliases, Match));
    SelectNone([], HasEvidence(n, remote, aliases, Inconclusive));
    for i := 0 to |listed|
      invariant exact == Select(listed[..i], HasEvidence(n, remote, aliases, Match))
      invariant portOnly == Select(listed[..i], HasEvidence(n, remote, aliases, Inconclusive))
    {
      var s := listed[i];
      assert listed[..i + 1] == listed[..i] + [s];
      SelectAppend(listed[..i], s, HasEvidence(n, remote, aliases, Match));
      SelectAppend(listed[..i], s, HasEvidence(n, remote, aliases, Inconclusive));
      var evidence := HostEvidence(n, s.host, remote, aliases);
      if evidence == Match {
        exact := exact + [s];
      } else if evidence == Inconclusive {
        portOnly := portOnly + [s];
      }
    }
    assert listed[..|listed|] == listed;
  }

  // ---------- the full scan ----------

  function HasEvidence(n: Names, remote: Endpoint, aliases: Aliases, wanted: Evidence): Stream -> bool {
    (s: Stream) => HostEvidence(n, s.host, remote, aliases) == wanted
  }

  /** A TCP stream that forwards to the remote port, with the given host evidence. */
  function Outbound(n: Names, c: Connection, aliases: Aliases, wanted: Evidence): Stream -> bool {
    (s: Stream) => s.tcp && s.forwarding == c.RemotePort(n) && HostEvidence(n, s.host, c.remote, aliases) == wanted
  }

  function FirstOf(candidates: seq<Stream>): seq<Stream> {
    if |candidates| > MAX_CANDIDATES then candidates[..MAX_CANDIDATES] else candidates
  }

  /**
   * The correlation read off the whole list of streams in ID order: a proven outbound match comes
   * first, then a listener, and only without a listener the streams known by port alone.
   */
  function Scan(n: Names, scanned: seq<Stream>, c: Connection, aliases: Aliases, available: bool): Correlation {
    var inbound := Select(scanned, IncomingAt(c.LocalPort(n)));
    var exact := Select(scanned, Outbound(n, c, aliases, Match));
    var portOnly := Select(scanned, Outbound(n, c, aliases, Inconclusive));
    if !available then
      Correlation(NoRole, NoConfidence, Unavailable, [])
    else if exact != [] then
      Correlation(OutboundUpstream, ExactCurrentConfig, if |exact| == 1 then Matched else Ambiguous, FirstOf(exact))
    else if inbound != [] then
      Correlation(InboundListener, ListenerPort, if |inbound| == 1 then Matched else Ambiguous, FirstOf(inbound))
    else if portOnly != [] then
      Correlation(OutboundUpstream, PortOnly, Indeterminate, FirstOf(portOnly))
    else
      Correlation(NoRole, NoConfidence, Unmatched, [])
  }

  /** With distinct IDs, the list at a port is what a scan of all the streams in ID order finds there. */
  lemma IndexedIsScanned(index: PortIndex, streams: seq<Stream>, scanned: seq<Stream>,
                         at: int -> Stream -> bool, port: int)
    requires IndexesByID(index, streams, at) && DistinctIDs(streams)
    requires SortedBy(scanned, ByID()) && Rearranges(scanned, streams)
    ensures At(index, port) == Select(scanned, at(port))
  {
    SelectRearranged(scanned, streams, at(port));
    SelectSorted(scanned, at(port), ByID());
    RearrangedMembers(At(index, port), Select(streams, at(port)));
    OrderByIDIsUnique(At(index, port), Select(scanned, at(port)), streams);
  }

  /** What a scan reports: "matched" means one candidate only, and at most 20 streams, all of them TCP. */
  lemma ScanMeans(n: Names, scanned: seq<Stream>, c: Connection, aliases: Aliases)
    ensures var r := Scan(n, scanned, c, aliases, true);
      && (r.status == Matched ==> |r.streams| == 1 && r.confidence in {ExactCurrentConfig, ListenerPort})
      && (r.status == Ambiguous ==> |r.streams| > 1)
      && (r.status == Unmatched <==> r.streams == [])
      && |r.streams| <= MAX_CANDIDATES
      && (forall s :: s in r.streams ==> s in scanned && s.tcp)
      && (r.role == InboundListener ==> forall s :: s in r.streams ==> s.incoming == c.LocalPort(n))
      && (r.role == OutboundUpstream ==> forall s :: s in r.streams ==> s.forwarding == c.RemotePort(n))
      && (r.confidence == ExactCurrentConfig ==>
            forall s :: s in r.streams ==> HostEvidence(n, s.host, c.remote, aliases) == Match)
  {
    FirstOfMeans(Select(scanned, IncomingAt(c.LocalPort(n))));
    FirstOfMeans(Select(scanned, Outbound(n, c, aliases, Match)));
    FirstOfMeans(Select(scanned, Outbound(n, c, aliases, Inconclusive)));
  }

  lemma FirstOfMeans(candidates: seq<Stream>)
    ensures |FirstOf(candidates)| <= MAX_CANDIDATES
    ensures |FirstOf(candidates)| == 0 <==> candidates == []
    ensures |FirstOf(candidates)| == 1 <==> |candidates| == 1
    ensures forall s :: s in FirstOf(candidates) ==> s in candidates
  {
  }

  // ---------- the answer in terms of the fields ----------

  /** The stream takes connections on the local port. */
  ghost predicate Listens(n: Names, c: Connection, s: Stream) {
    s.tcp && s.incoming == n.number(c.local.port).value
  }

  /** The stream forwards to the remote port, and the configuration proves the remote host. */
  ghost predicate Proven(n: Names, c: Connection, aliases: Aliases, s: Stream) {
    s.tcp && s.forwarding == n.number(c.remote.port).value && HostProven(n, s, c.remote, aliases)
  }

  /** The stream forwards to the remote port, and the configuration leaves the remote host open. */
  ghost predicate Undecided(n: Names, c: Connection, aliases: Aliases, s: Stream) {
    && s.tcp && s.forwarding == n.number(c.remote.port).value
    && !HostProven(n, s, c.remote, aliases) && !HostContradicted(n, s, c.remote)
  }

  ghost predicate AscendingIDs(listed: seq<Stream>) {
    forall i, j :: 0 <= i < j < |listed| ==> listed[i].id < listed[j].id
  }

  /** Those of the streams that satisfy p, in ascending order of their IDs, up to the twentieth. */
  ghost predicate ListsFirst(listed: seq<Stream>, streams: seq<Stream>, p: Stream -> bool) {
    && (forall s :: s in listed ==> s in streams && p(s))
    && AscendingIDs(listed) && |listed| <= 20
    && (forall s :: s in streams && p(s) && s !in listed ==>
          |listed| == 20 && forall x :: x in listed ==> x.id < s.id)
  }

  /**
   * The answer, case by case: a proven stream comes first, then a listener, then a stream known by port
   * alone; each answer is given exactly when its case is the first that applies.
   */
  ghost predicate Answers(n: Names, c: Connection, aliases: Aliases, streams: seq<Stream>, r: Correlation) {
    var proven := exists s :: s in streams && Proven(n, c, aliases, s);
    var listens := exists s :: s in streams && Listens(n, c, s);
    var undecided := exists s :: s in streams && Undecided(n, c, aliases, s);
    && (r.confidence == ExactCurrentConfig <==> proven)
    && (r.confidence == ListenerPort <==> !proven && listens)
    && (r.confidence == PortOnly <==> !proven && !listens && undecided)
    && (r.role == InboundListener <==> !proven && listens)
    && (r.role == OutboundUpstream <==> proven || (!listens && undecided))
    && (r.status == Unmatched <==> !proven && !listens && !undecided)
    && (r.status == Indeterminate <==> !proven && !listens && undecided)
    && (r.status == Matched <==> (proven || listens) && |r.streams| == 1)
    && (r.status == Ambiguous <==> (proven || listens) && |r.streams| > 1)
    && (proven ==> ListsFirst(r.streams, streams, (s: Stream) => Proven(n, c, aliases, s)))
    && (!proven && listens ==> ListsFirst(r.streams, streams, (s: Stream) => Listens(n, c, s)))
    && (!proven && !listens ==> ListsFirst(r.streams, streams, (s: Stream) => Undecided(n, c, aliases, s)))
  }

  lemma OutboundMeans(n: Names, c: Connection, aliases: Aliases, s: Stream)
    ensures Outbound(n, c, aliases, Match)(s) <==> Proven(n, c, aliases, s)
    ensures Outbound(n, c, aliases, Inconclusive)(s) <==> Undecided(n, c, aliases, s)
    ensures IncomingAt(c.LocalPort(n))(s) <==> Listens(n, c, s)
  {
    hide HostEvidence, HostProven, HostContradicted;
    EvidenceMeans(n, s, c.remote, aliases);
  }

  lemma FirstOfLists(scanned: seq<Stream>, streams: seq<Stream>, p: Stream -> bool, q: Stream -> bool)
    requires DistinctIDs(streams) && SortedBy(scanned, ByID()) && Rearranges(scanned, streams)
    requires forall s :: p(s) <==> q(s)
    ensures ListsFirst(FirstOf(Select(scanned, p)), streams, q)
    ensures Select(scanned, p) == [] <==> !exists s :: s in streams && q(s)
  {
    hide DistinctIDs, SortedBy, Rearranges, FirstOf;
    var all := Select(scanned, p);
    RearrangedMembers(scanned, streams);
    SelectedAscends(scanned, streams, p);
    FirstTwenty(all);
    if all != [] {
      assert all[0] in all;
    }
  }

  lemma FirstTwenty(all: seq<Stream>)
    requires AscendingIDs(all)
    ensures ListsFirst(FirstOf(all), all, (s: Stream) => true)
  {
    var listed := FirstOf(all);
    forall s, x | s in all && s !in listed && x in listed ensures |listed| == 20 && x.id < s.id {
      LeftBehind(all, s);
    }
    forall s | s in all && s !in listed ensures |listed| == 20 {
      LeftBehind(all, s);
    }
  }

  lemma LeftBehind(all: seq<Stream>, s: Stream)
    requires s in all && s !in FirstOf(all)
    ensures |all| > 20 && s in all[20..]
  {
    assert |all| > 20 ==> all == all[..20] + all[20..];
  }

  lemma SelectedAscends(scanned: seq<Stream>, streams: seq<Stream>, p: Stream -> bool)
    requires DistinctIDs(streams) && SortedBy(scanned, ByID()) && Rearranges(scanned, streams)
    ensures AscendingIDs(Select(scanned, p))
  {
    var all := Select(scanned, p);
    RearrangedMembers(scanned, streams);
    SelectSorted(scanned, p, ByID());
    SelectedDistinct(scanned, streams, p);
    forall i, j | 0 <= i < j < |all| ensures all[i].id < all[j].id {
      assert ByID()(all[i], all[j]) && all[i] in all && all[j] in all;
      var k: nat :| k < |streams| && streams[k] == all[i];
      var l: nat :| l < |streams| && streams[l] == all[j];
    }
  }

  lemma SelectedDistinct(scanned: seq<Stream>, streams: seq<Stream>, p: Stream -> bool)
    requires DistinctIDs(streams) && Rearranges(scanned, streams)
    ensures Distinct(Select(scanned, p))
  {
    assert Distinct(streams);
    SelectRearranged(scanned, streams, p);
    DistinctSelected(streams, p);
    RearrangedDistinct(Select(scanned, p), Select(streams, p));
  }

  lemma {:induction false} DistinctSelected(streams: seq<Stream>, p: Stream -> bool)
    requires Distinct(streams)
    ensures Distinct(Select(streams, p))
  {
    if streams != [] {
      DistinctSelected(streams[..|streams| - 1], p);
    }
  }

  /** What a scan answers, in the ports of the connection and the fields of the streams. */
  lemma ScanAnswers(n: Names, scanned: seq<Stream>, c: Connection, aliases: Aliases, streams: seq<Stream>)
    requires DistinctIDs(streams) && SortedBy(scanned, ByID()) && Rearranges(scanned, streams)
    ensures Answers(n, c, aliases, streams, Scan(n, scanned, c, aliases, true))
  {
    hide Proven, Listens, Undecided, DistinctIDs, Select, FirstOf, ListsFirst, Outbound, IncomingAt, SortedBy;
    forall s: Stream
      ensures Outbound(n, c, aliases, Match)(s) <==> Proven(n, c, aliases, s)
      ensures Outbound(n, c, aliases, Inconclusive)(s) <==> Undecided(n, c, aliases, s)
      ensures IncomingAt(c.LocalPort(n))(s) <==> Listens(n, c, s)
    {
      OutboundMeans(n, c, aliases, s);
    }
    var exact := Select(scanned, Outbound(n, c, aliases, Match));
    var portOnly := Select(scanned, Outbound(n, c, aliases, Inconclusive));
    var inbound := Select(scanned, IncomingAt(c.LocalPort(n)));
    FirstOfMeans(exact);
    FirstOfMeans(portOnly);
    FirstOfMeans(inbound);
    FirstOfLists(scanned, streams, Outbound(n, c, aliases, Match), (s: Stream) => Proven(n, c, aliases, s));
    FirstOfLists(scanned, streams, Outbound(n, c, aliases, Inconclusive), (s: Stream) => Undecided(n, c, aliases, s));
    FirstOfLists(scanned, streams, IncomingAt(c.LocalPort(n)), (s: Stream) => Listens(n, c, s));
    NoneListed(streams, (s: Stream) => Undecided(n, c, aliases, s));
  }

  lemma NoneListed(streams: seq<Stream>, p: Stream -> bool)
    ensures (forall s :: s in streams ==> !p(s)) ==> ListsFirst([], streams, p)
  {
  }
}
