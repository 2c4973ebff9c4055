/** matchAnalyticsStreams: the configured streams that an observed path may belong to. */
module StreamMatching {
  import opened Options
  import opened Text
  import opened Sequences
  import opened Sorting
  import opened StreamEvidence
  import opened Telemetry

  /** Ruled out, a candidate with definite evidence, or a candidate without. */
  datatype Verdict = RuledOut | Definite | Open

  /** One observation: the two endpoints and the protocol of a path or entry. */
  datatype Observation = Observation(listener: Endpoint, destination: Endpoint, protocol: Str)

  /** The two ports, if both are numbers. */
  function Ports(n: Names, o: Observation): Option<(int, int)> {
    var listener, destination := n.number(o.listener.port), n.number(o.destination.port);
    if listener.ok && destination.ok then Some((listener.value, destination.value)) else None
  }

  /** What one pass through the loop decides about a stream. */
  function Judge(n: Names, o: Observation, aliases: Aliases, s: Stream): Verdict {
    match Ports(n, o)
    case None => RuledOut
    case Some((listenerPort, destinationPort)) =>
      if s.incoming != listenerPort || s.forwarding != destinationPort then RuledOut
      else
        var evidence := HostEvidence(n, s.host, o.destination, aliases);
        var known := ProtocolKnown(n, o.protocol);
        if evidence == Mismatch then RuledOut
        else if known && !ProtocolMatches(n, s, o.protocol) then RuledOut
        else if !known && !s.tcp && !s.udp then RuledOut
        else if !known || evidence == Inconclusive then Open
        else Definite
  }

  function IsVerdict(n: Names, o: Observation, aliases: Aliases, v: Verdict): Stream -> bool {
    (s: Stream) => Judge(n, o, aliases, s) == v
  }

  function IsCandidate(n: Names, o: Observation, aliases: Aliases): Stream -> bool {
    (s: Stream) => Judge(n, o, aliases, s) != RuledOut
  }

  /** The status, from how many candidates there are of each kind. */
  function StatusOf(definite: nat, open: nat): Status {
    if definite == 0 && open == 0 then Unmatched
    else if definite == 0 then Indeterminate
    else if definite == 1 && open == 0 then Matched
    else Ambiguous
  }

  function Count(streams: seq<Stream>, p: Stream -> bool): nat {
    |Select(streams, p)|
  }

  /**
   * The result: the streams not ruled out, in ID order, and the status their evidence gives. Without
   * stream data there is no result at all.
   */
  ghost predicate IsMatch(n: Names, o: Observation, aliases: Aliases, streams: seq<Stream>, available: bool,
                          result: seq<Stream>, status: Status)
  {
    if !available then result == [] && status == Unavailable
    else
      && SortedBy(result, ByID())
      && Rearranges(result, Select(streams, IsCandidate(n, o, aliases)))
      && status == StatusOf(Count(streams, IsVerdict(n, o, aliases, Definite)),
                            Count(streams, IsVerdict(n, o, aliases, Open)))
  }

  method MatchStreams(n: Names, o: Observation, aliases: Aliases, streams: seq<Stream>, available: bool)
      returns (result: seq<Stream>, status: Status)
    ensures IsMatch(n, o, aliases, streams, available, result, status)
  {
    if !available {
      return [], Unavailable;
    }
    if Ports(n, o).None? {
      NoPortsNoCandidates(n, o, aliases, streams);
      return [], Unmatched;
    }
    hide Judge, Ports, Select;
    var matches, indeterminate := Sift(n, o, aliases, streams);
    matches := SortByID(matches);
    indeterminate := SortByID(indeterminate);
    BothLists(n, o, aliases, streams, matches, indeterminate);
    if |matches| > 0 && |indeterminate| > 0 {
      result := SortByID(matches + indeterminate);
      status := Ambiguous;
    } else if |matches| == 1 {
      result, status := matches, Matched;
    } else if |matches| > 1 {
      result, status := matches, Ambiguous;
    } else if |indeterminate| > 0 {
      result, status := indeterminate, Indeterminate;
    } else {
      result, status := matches, Unmatched;
    }
  }

  lemma NoPortsNoCandidates(n: Names, o: Observation, aliases: Aliases, streams: seq<Stream>)
    requires Ports(n, o).None?
    ensures IsMatch(n, o, aliases, streams, true, [], Unmatched)
  {
    SelectNone(streams, IsCandidate(n, o, aliases));
    SelectNone(streams, IsVerdict(n, o, aliases, Definite));
    SelectNone(streams, IsVerdict(n, o, aliases, Open));
  }

  lemma BothLists(n: Names, o: Observation, aliases: Aliases, streams: seq<Stream>,
                  matches: seq<Stream>, indeterminate: seq<Stream>)
    requires Rearranges(matches, Select(streams, IsVerdict(n, o, aliases, Definite)))
    requires Rearranges(indeterminate, Select(streams, IsVerdict(n, o, aliases, Open)))
    ensures |matches| == Count(streams, IsVerdict(n, o, aliases, Definite))
    ensures |indeterminate| == Count(streams, IsVerdict(n, o, aliases, Open))
    ensures Rearranges(matches + indeterminate, Select(streams, IsCandidate(n, o, aliases)))
    ensures indeterminate == [] ==> matches + indeterminate == matches
    ensures matches == [] ==> matches + indeterminate == indeterminate
  {
    var p, q := IsVerdict(n, o, aliases, Definite), IsVerdict(n, o, aliases, Open);
    RearrangedMembers(matches, Select(streams, p));
    RearrangedMembers(indeterminate, Select(streams, q));
    SelectEither(streams, p, q, IsCandidate(n, o, aliases));
    assert multiset(matches + indeterminate) == multiset(matches) + multiset(indeterminate);
  }

  /** The loop that fills the two lists. */
  method Sift(n: Names, o: Observation, aliases: Aliases, streams: seq<Stream>)
      returns (matches: seq<Stream>, indeterminate: seq<Stream>)
    requires Ports(n, o).Some?
    ensures matches == Select(streams, IsVerdict(n, o, aliases, Definite))
    ensures indeterminate == Select(streams, IsVerdict(n, o, aliases, Open))
  {
    hide HostEvidence, ProtocolKnown, ProtocolMatches, Select;
    SelectNone([], IsVerdict(n, o, aliases, Definite));
    SelectNone([], IsVerdict(n, o, aliases, Open));
    matches, indeterminate := [], [];
    var (listenerPort, destinationPort) := Ports(n, o).value;
    for i := 0 to |streams|
      invariant matches == Select(streams[..i], IsVerdict(n, o, aliases, Definite))
      invariant indeterminate == Select(streams[..i], IsVerdict(n, o, aliases, Open))
    {
      var s := streams[i];
      assert streams[..i + 1] == streams[..i] + [s];
      SelectAppend(streams[..i], s, IsVerdict(n, o, aliases, Definite));
      SelectAppend(streams[..i], s, IsVerdict(n, o, aliases, Open));
      if s.incoming != listenerPort || s.forwarding != destinationPort {
        continue;
      }
      var evidence := HostEvidence(n, s.host, o.destination, aliases);
      if evidence == Mismatch {
        continue;
      }
      var known := ProtocolKnown(n, o.protocol);
      if known && !ProtocolMatches(n, s, o.protocol) {
        continue;
      }
      if !known && !s.tcp && !s.udp {
        continue;
      }
      if !known || evidence == Inconclusive {
        indeterminate := indeterminate + [s];
        continue;
      }
      matches := matches + [s];
    }
    assert streams[..|streams|] == streams;
  }

  // ---------- what the alias table can change ----------

  lemma RuledOutWhateverTheAliases(n: Names, o: Observation, a: Aliases, b: Aliases, s: Stream)
    ensures Judge(n, o, a, s) == RuledOut <==> Judge(n, o, b, s) == RuledOut
  {
    MismatchIff(n, s.host, o.destination, a);
    MismatchIff(n, s.host, o.destination, b);
  }

  lemma SameCandidates(n: Names, o: Observation, a: Aliases, b: Aliases, streams: seq<Stream>)
    ensures Select(streams, IsCandidate(n, o, a)) == Select(streams, IsCandidate(n, o, b))
  {
    forall s | s in streams ensures IsCandidate(n, o, a)(s) == IsCandidate(n, o, b)(s) {
      RuledOutWhateverTheAliases(n, o, a, b, s);
    }
    SelectSame(streams, IsCandidate(n, o, a), IsCandidate(n, o, b));
  }

  /** With distinct IDs the streams returned are the same for every alias table. */
  lemma StreamsIgnoreAliases(n: Names, o: Observation, a: Aliases, b: Aliases, streams: seq<Stream>, available: bool,
                             ra: seq<Stream>, sa: Status, rb: seq<Stream>, sb: Status)
    requires DistinctIDs(streams)
    requires IsMatch(n, o, a, streams, available, ra, sa) && IsMatch(n, o, b, streams, available, rb, sb)
    ensures ra == rb
  {
    if available {
      SameCandidates(n, o, a, b, streams);
      RearrangedMembers(ra, Select(streams, IsCandidate(n, o, a)));
      OrderByIDIsUnique(ra, rb, streams);
    }
  }

  lemma CountSplits(n: Names, o: Observation, aliases: Aliases, streams: seq<Stream>)
    ensures Count(streams, IsCandidate(n, o, aliases))
         == Count(streams, IsVerdict(n, o, aliases, Definite)) + Count(streams, IsVerdict(n, o, aliases, Open))
  {
    var d, o' := Select(streams, IsVerdict(n, o, aliases, Definite)), Select(streams, IsVerdict(n, o, aliases, Open));
    SelectEither(streams, IsVerdict(n, o, aliases, Definite), IsVerdict(n, o, aliases, Open),
                 IsCandidate(n, o, aliases));
    RearrangedMembers(d + o', Select(streams, IsCandidate(n, o, aliases)));
  }

  /** Some stream of the result has definite evidence. */
  ghost predicate AnyDefinite(n: Names, o: Observation, aliases: Aliases, result: seq<Stream>) {
    exists s :: s in result && Judge(n, o, aliases, s) == Definite
  }

  lemma AnyDefiniteCounts(n: Names, o: Observation, aliases: Aliases, streams: seq<Stream>, result: seq<Stream>,
                          status: Status)
    requires IsMatch(n, o, aliases, streams, true, result, status)
    ensures AnyDefinite(n, o, aliases, result) <==> Count(streams, IsVerdict(n, o, aliases, Definite)) > 0
    ensures |result| == Count(streams, IsCandidate(n, o, aliases))
  {
    var candidates := Select(streams, IsCandidate(n, o, aliases));
    var definite := Select(streams, IsVerdict(n, o, aliases, Definite));
    RearrangedMembers(result, candidates);
    if s :| s in result && Judge(n, o, aliases, s) == Definite {
      assert s in candidates && s in definite;
    }
    if |definite| > 0 {
      assert definite[0] in definite && definite[0] in candidates && definite[0] in result;
    }
  }

  /**
   * What each status says: matched, one candidate and definite; ambiguous, several and some definite;
   * indeterminate, some and none definite; unmatched, none.
   */
  lemma StatusMeans(n: Names, o: Observation, aliases: Aliases, streams: seq<Stream>, result: seq<Stream>,
                    status: Status)
    requires IsMatch(n, o, aliases, streams, true, result, status)
    ensures status == Matched <==> |result| == 1 && AnyDefinite(n, o, aliases, result)
    ensures status == Ambiguous <==> |result| > 1 && AnyDefinite(n, o, aliases, result)
    ensures status == Indeterminate <==> result != [] && !AnyDefinite(n, o, aliases, result)
    ensures status == Unmatched <==> result == []
  {
    hide AnyDefinite, Judge, Count, IsCandidate;
    AnyDefiniteCounts(n, o, aliases, streams, result, status);
    CountSplits(n, o, aliases, streams);
  }

  // ---------- the answer in terms of the fields ----------

  /** The observed ports are numbers, and the stream's own. */
  ghost predicate SamePorts(n: Names, o: Observation, s: Stream) {
    && n.number(o.listener.port) == Number(s.incoming, true)
    && n.number(o.destination.port) == Number(s.forwarding, true)
  }

  /** The observed protocol, upper-case and trimmed, is TCP or UDP and the stream forwards it. */
  ghost predicate Forwards(n: Names, o: Observation, s: Stream) {
    var protocol := n.upper(TrimSpace(o.protocol));
    (protocol == [84, 67, 80] && s.tcp) || (protocol == [85, 68, 80] && s.udp)
  }

  /** The observed protocol is neither, and the stream forwards something. */
  ghost predicate MayForward(n: Names, o: Observation, s: Stream) {
    var protocol := n.upper(TrimSpace(o.protocol));
    protocol !in {[84, 67, 80], [85, 68, 80]} && (s.tcp || s.udp)
  }

  ghost predicate Certain(n: Names, o: Observation, aliases: Aliases, s: Stream) {
    SamePorts(n, o, s) && Forwards(n, o, s) && HostProven(n, s, o.destination, aliases)
  }

  ghost predicate Possible(n: Names, o: Observation, aliases: Aliases, s: Stream) {
    && SamePorts(n, o, s) && !HostContradicted(n, s, o.destination)
    && ((Forwards(n, o, s) && !HostProven(n, s, o.destination, aliases)) || MayForward(n, o, s))
  }

  lemma JudgeMeans(n: Names, o: Observation, aliases: Aliases, s: Stream)
    ensures Judge(n, o, aliases, s) == Definite <==> Certain(n, o, aliases, s)
    ensures Judge(n, o, aliases, s) == Open <==> Possible(n, o, aliases, s)
  {
    hide HostEvidence, HostProven, HostContradicted;
    EvidenceMeans(n, s, o.destination, aliases);
  }

  /**
   * Which streams are returned and with what status, in the fields of observation and streams: the certain
   * and the possible ones; matched for one certain stream alone, ambiguous for several with a certain one,
   * indeterminate for possible ones only, unmatched for none.
   */
  lemma MatchMeans(n: Names, o: Observation, aliases: Aliases, streams: seq<Stream>, result: seq<Stream>,
                   status: Status)
    requires IsMatch(n, o, aliases, streams, true, result, status)
    ensures forall s :: s in result <==> s in streams && (Certain(n, o, aliases, s) || Possible(n, o, aliases, s))
    ensures forall i, j :: 0 <= i < j < |result| ==> result[i].id <= result[j].id
    ensures status == Matched <==> |result| == 1 && Certain(n, o, aliases, result[0])
    ensures status == Ambiguous <==> |result| > 1 && exists s :: s in result && Certain(n, o, aliases, s)
    ensures status == Indeterminate <==> result != [] && forall s :: s in result ==> Possible(n, o, aliases, s)
    ensures status == Unmatched <==> result == []
  {
    hide Judge, Certain, Possible, IsMatch;
    StatusMeans(n, o, aliases, streams, result, status);
    ResultMembers(n, o, aliases, streams, result, status);
    forall s: Stream
      ensures Judge(n, o, aliases, s) == Definite <==> Certain(n, o, aliases, s)
      ensures Judge(n, o, aliases, s) == Open <==> Possible(n, o, aliases, s)
    {
      JudgeMeans(n, o, aliases, s);
    }
    assert |result| == 1 ==> result == [result[0]];
    ResultAscends(n, o, aliases, streams, result, status);
  }

  lemma ResultAscends(n: Names, o: Observation, aliases: Aliases, streams: seq<Stream>, result: seq<Stream>,
                      status: Status)
    requires IsMatch(n, o, aliases, streams, true, result, status)
    ensures forall i, j :: 0 <= i < j < |result| ==> result[i].id <= result[j].id
  {
    forall i, j | 0 <= i < j < |result| ensures result[i].id <= result[j].id {
      assert ByID()(result[i], result[j]);
    }
  }

  lemma ResultMembers(n: Names, o: Observation, aliases: Aliases, streams: seq<Stream>, result: seq<Stream>,
                      status: Status)
    requires IsMatch(n, o, aliases, streams, true, result, status)
    ensures forall s :: s in result <==> s in streams && Judge(n, o, aliases, s) != RuledOut
  {
    RearrangedMembers(result, Select(streams, IsCandidate(n, o, aliases)));
  }

  /** One configured stream, and certain: it is the answer, and matched. */
  lemma SingleStreamMatches(n: Names, o: Observation, aliases: Aliases, s: Stream, result: seq<Stream>, status: Status)
    requires IsMatch(n, o, aliases, [s], true, result, status) && Certain(n, o, aliases, s)
    ensures result == [s] && status == Matched
  {
    hide Certain, Judge;
    JudgeMeans(n, o, aliases, s);
    SelectAll([s], IsCandidate(n, o, aliases));
    RearrangedMembers(result, [s]);
    assert result[0] in result;
    MatchMeans(n, o, aliases, [s], result, status);
  }

  lemma {:induction false} CountMonotone(streams: seq<Stream>, p: Stream -> bool, q: Stream -> bool)
    requires forall s :: s in streams && p(s) ==> q(s)
    ensures Count(streams, p) <= Count(streams, q)
  {
    if streams != [] {
      CountMonotone(streams[..|streams| - 1], p, q);
    }
  }

  lemma DefiniteStays(n: Names, o: Observation, a: Aliases, b: Aliases, s: Stream)
    requires Extends(a, b) && Judge(n, o, a, s) == Definite
    ensures Judge(n, o, b, s) == Definite
  {
    EvidenceGrows(n, s.host, o.destination, a, b);
  }

  /** More aliases never take a status back: only "indeterminate" can change, to matched or ambiguous. */
  lemma StatusOnlyGrows(n: Names, o: Observation, a: Aliases, b: Aliases, streams: seq<Stream>, available: bool,
                        ra: seq<Stream>, sa: Status, rb: seq<Stream>, sb: Status)
    requires Extends(a, b)
    requires IsMatch(n, o, a, streams, available, ra, sa) && IsMatch(n, o, b, streams, available, rb, sb)
    ensures sb == sa || (sa == Indeterminate && sb in {Matched, Ambiguous})
  {
    if available {
      SameCandidates(n, o, a, b, streams);
      CountSplits(n, o, a, streams);
      CountSplits(n, o, b, streams);
      forall s | s in streams && IsVerdict(n, o, a, Definite)(s) ensures IsVerdict(n, o, b, Definite)(s) {
        DefiniteStays(n, o, a, b, s);
      }
      CountMonotone(streams, IsVerdict(n, o, a, Definite), IsVerdict(n, o, b, Definite));
    }
  }

  // ---------- the npm_only filter ----------

  function Observed(n: Names, e: LogEntry): Observation {
    Observation(n.listener(e.proxyAddr), n.endpoint(e.upstreamAddr), e.protocol)
  }

  /** Some configured stream is not ruled out for the entry. */
  ghost predicate HasCandidate(n: Names, aliases: Aliases, streams: seq<Stream>, e: LogEntry) {
    exists s :: s in streams && Judge(n, Observed(n, e), aliases, s) != RuledOut
  }

  ghost function KeptByNPM(n: Names, aliases: Aliases, streams: seq<Stream>): LogEntry -> bool {
    (e: LogEntry) => HasCandidate(n, aliases, streams, e)
  }

  lemma ResultShowsCandidate(n: Names, o: Observation, aliases: Aliases, streams: seq<Stream>, result: seq<Stream>,
                             status: Status)
    requires IsMatch(n, o, aliases, streams, true, result, status)
    ensures |result| > 0 <==> exists s :: s in streams && Judge(n, o, aliases, s) != RuledOut
  {
    var candidates := Select(streams, IsCandidate(n, o, aliases));
    RearrangedMembers(result, candidates);
    if s :| s in streams && Judge(n, o, aliases, s) != RuledOut {
      assert s in candidates;
    }
    if |result| > 0 {
      assert result[0] in candidates;
    }
  }

  method FilterNPMEntries(n: Names, entries: seq<LogEntry>, aliases: Aliases, streams: seq<Stream>)
      returns (filtered: seq<LogEntry>)
    ensures filtered == Select(entries, KeptByNPM(n, aliases, streams))
  {
    filtered := [];
    for i := 0 to |entries|
      invariant filtered == Select(entries[..i], KeptByNPM(n, aliases, streams))
    {
      var e := entries[i];
      assert entries[..i + 1] == entries[..i] + [e];
      SelectAppend(entries[..i], e, KeptByNPM(n, aliases, streams));
      var matched, status := MatchStreams(n, Observed(n, e), aliases, streams, true);
      ResultShowsCandidate(n, Observed(n, e), aliases, streams, matched, status);
      if |matched| > 0 {
        filtered := filtered + [e];
      }
    }
    assert entries[..|entries|] == entries;
  }

  /** Which entries are kept: those whose listener, upstream and protocol some stream is certain or possible for. */
  lemma KeptMeans(n: Names, aliases: Aliases, streams: seq<Stream>, e: LogEntry)
    ensures var o := Observation(n.listener(e.proxyAddr), n.endpoint(e.upstreamAddr), e.protocol);
      KeptByNPM(n, aliases, streams)(e)
      <==> exists s :: s in streams && (Certain(n, o, aliases, s) || Possible(n, o, aliases, s))
  {
    hide Judge, Certain, Possible;
    var o := Observation(n.listener(e.proxyAddr), n.endpoint(e.upstreamAddr), e.protocol);
    forall s: Stream
      ensures Judge(n, o, aliases, s) != RuledOut <==> Certain(n, o, aliases, s) || Possible(n, o, aliases, s)
    {
      JudgeMeans(n, o, aliases, s);
    }
  }

  /** The filter keeps the same entries for every alias table. */
  lemma FilterIgnoresAliases(n: Names, entries: seq<LogEntry>, a: Aliases, b: Aliases, streams: seq<Stream>)
    ensures Select(entries, KeptByNPM(n, a, streams)) == Select(entries, KeptByNPM(n, b, streams))
  {
    forall e | e in entries ensures KeptByNPM(n, a, streams)(e) == KeptByNPM(n, b, streams)(e) {
      CandidatesIgnoreAliases(n, a, b, streams, e);
      CandidatesIgnoreAliases(n, b, a, streams, e);
    }
    SelectSame(entries, KeptByNPM(n, a, streams), KeptByNPM(n, b, streams));
  }

  lemma CandidatesIgnoreAliases(n: Names, a: Aliases, b: Aliases, streams: seq<Stream>, e: LogEntry)
    ensures HasCandidate(n, a, streams, e) ==> HasCandidate(n, b, streams, e)
  {
    if s :| s in streams && Judge(n, Observed(n, e), a, s) != RuledOut {
      RuledOutWhateverTheAliases(n, Observed(n, e), a, b, s);
    }
  }
}
