/** The metrics accumulator, counting maps, and tables of accumulators grouped by a key. */
module Metrics {
  import opened Sequences
  import opened Text
  import opened Telemetry

  datatype Metrics = Metrics(
    connections: int, failures: int, bytesSent: int, bytesReceived: int,
    sessionSum: real, maxSession: real, firstSeen: int, lastSeen: int)

  const EMPTY := Metrics(0, 0, 0, 0, 0.0, 0.0, ZERO_TIME, ZERO_TIME)

  /** addAnalyticsMetrics: one entry added to an accumulator. */
  function Add(m: Metrics, e: LogEntry): Metrics {
    Metrics(
      m.connections + 1,
      if e.status != STATUS_OK then m.failures + 1 else m.failures,
      m.bytesSent + e.bytesSent,
      m.bytesReceived + e.bytesReceived,
      m.sessionSum + e.sessionTime,
      if e.sessionTime > m.maxSession then e.sessionTime else m.maxSession,
      if e.time != ZERO_TIME && (m.firstSeen == ZERO_TIME || e.time < m.firstSeen) then e.time else m.firstSeen,
      if e.time != ZERO_TIME && (m.lastSeen == ZERO_TIME || m.lastSeen < e.time) then e.time else m.lastSeen)
  }

  function Fold(es: seq<LogEntry>): Metrics {
    if es == [] then EMPTY else Add(Fold(es[..|es| - 1]), es[|es| - 1])
  }

  function TallyOf(m: Metrics): Tally {
    Tally(m.connections, m.failures, m.bytesSent + m.bytesReceived)
  }

  lemma FoldAppend(es: seq<LogEntry>, e: LogEntry)
    ensures Fold(es + [e]) == Add(Fold(es), e)
  {
    assert (es + [e])[..|es|] == es;
  }

  /** first and last are the extreme parsed times, or both the zero time if nothing parsed. */
  ghost predicate SeenRange(es: seq<LogEntry>, first: int, last: int) {
    && (forall i :: 0 <= i < |es| && es[i].time != ZERO_TIME ==> first <= es[i].time <= last)
    && (first == ZERO_TIME <==> forall i :: 0 <= i < |es| ==> es[i].time == ZERO_TIME)
    && (last == ZERO_TIME <==> first == ZERO_TIME)
    && (first != ZERO_TIME ==> exists i :: 0 <= i < |es| && es[i].time == first)
    && (last != ZERO_TIME ==> exists i :: 0 <= i < |es| && es[i].time == last)
  }

  ghost predicate LongestSession(es: seq<LogEntry>, max: real) {
    && 0.0 <= max
    && (forall i :: 0 <= i < |es| ==> es[i].sessionTime <= max)
    && (max == 0.0 || exists i :: 0 <= i < |es| && es[i].sessionTime == max)
  }

  lemma SeenRangeStep(es: seq<LogEntry>, e: LogEntry, m: Metrics)
    requires SeenRange(es, m.firstSeen, m.lastSeen)
    ensures SeenRange(es + [e], Add(m, e).firstSeen, Add(m, e).lastSeen)
  {
    var es', m' := es + [e], Add(m, e);
    assert es'[|es|] == e;
    assert forall i :: 0 <= i < |es| ==> es'[i] == es[i];
    if m'.firstSeen == m.firstSeen != ZERO_TIME {
      var i :| 0 <= i < |es| && es[i].time == m.firstSeen;
      assert es'[i].time == m'.firstSeen;
    }
    if m'.lastSeen == m.lastSeen != ZERO_TIME {
      var i :| 0 <= i < |es| && es[i].time == m.lastSeen;
      assert es'[i].time == m'.lastSeen;
    }
  }

  lemma LongestSessionStep(es: seq<LogEntry>, e: LogEntry, m: Metrics)
    requires LongestSession(es, m.maxSession)
    ensures LongestSession(es + [e], Add(m, e).maxSession)
  {
    var es', m' := es + [e], Add(m, e);
    assert es'[|es|] == e;
    if m'.maxSession == m.maxSession != 0.0 {
      var i :| 0 <= i < |es| && es[i].sessionTime == m.maxSession;
      assert es'[i].sessionTime == m'.maxSession;
    }
  }

  /** The sum of a quantity over the entries. */
  function Added(es: seq<LogEntry>, quantity: LogEntry -> int): int {
    if es == [] then 0 else quantity(es[0]) + Added(es[1..], quantity)
  }

  function AddedReal(es: seq<LogEntry>, quantity: LogEntry -> real): real {
    if es == [] then 0.0 else quantity(es[0]) + AddedReal(es[1..], quantity)
  }

  function Sent(): LogEntry -> int {
    (e: LogEntry) => e.bytesSent
  }

  function Received(): LogEntry -> int {
    (e: LogEntry) => e.bytesReceived
  }

  function Session(): LogEntry -> real {
    (e: LogEntry) => e.sessionTime
  }

  lemma {:induction false} AddedAppend(es: seq<LogEntry>, e: LogEntry, quantity: LogEntry -> int)
    ensures Added(es + [e], quantity) == Added(es, quantity) + quantity(e)
  {
    if es == [] {
      assert [] + [e] == [e];
    } else {
      AddedAppend(es[1..], e, quantity);
      assert (es + [e])[1..] == es[1..] + [e];
    }
  }

  lemma {:induction false} AddedRealAppend(es: seq<LogEntry>, e: LogEntry, quantity: LogEntry -> real)
    ensures AddedReal(es + [e], quantity) == AddedReal(es, quantity) + quantity(e)
  {
    if es == [] {
      assert [] + [e] == [e];
    } else {
      AddedRealAppend(es[1..], e, quantity);
      assert (es + [e])[1..] == es[1..] + [e];
    }
  }

  /** The sums an accumulator keeps. */
  lemma {:induction false} FoldAdds(es: seq<LogEntry>)
    ensures Fold(es).bytesSent == Added(es, Sent())
    ensures Fold(es).bytesReceived == Added(es, Received())
    ensures Fold(es).sessionSum == AddedReal(es, Session())
  {
    if es != [] {
      var init, last := es[..|es| - 1], es[|es| - 1];
      FoldAdds(init);
      assert es == init + [last];
      AddedAppend(init, last, Sent());
      AddedAppend(init, last, Received());
      AddedRealAppend(init, last, Session());
    }
  }

  lemma {:induction false} FoldRanges(es: seq<LogEntry>)
    ensures Fold(es).connections == |es|
    ensures TallyOf(Fold(es)) == Total(es)
    ensures SeenRange(es, Fold(es).firstSeen, Fold(es).lastSeen)
    ensures LongestSession(es, Fold(es).maxSession)
  {
    if es == [] {
      EmptyRanges();
    } else {
      hide SeenRange, LongestSession;
      var init, last := es[..|es| - 1], es[|es| - 1];
      FoldRanges(init);
      assert es == init + [last];
      SeenRangeStep(init, last, Fold(init));
      LongestSessionStep(init, last, Fold(init));
    }
  }

  /** What an accumulator means: counts and sums of its entries, their time range, the longest session. */
  lemma FoldMeans(es: seq<LogEntry>)
    ensures Fold(es).connections == |es|
    ensures TallyOf(Fold(es)) == Total(es)
    ensures SeenRange(es, Fold(es).firstSeen, Fold(es).lastSeen)
    ensures LongestSession(es, Fold(es).maxSession)
    ensures Fold(es).bytesSent == Added(es, Sent()) && Fold(es).bytesReceived == Added(es, Received())
    ensures Fold(es).sessionSum == AddedReal(es, Session())
  {
    hide SeenRange, LongestSession, Fold, Total, Added, AddedReal;
    FoldRanges(es);
    FoldAdds(es);
  }

  lemma EmptyRanges()
    ensures SeenRange([], ZERO_TIME, ZERO_TIME) && LongestSession([], 0.0)
  {
  }

  // ---------- tables of accumulators ----------

  /** m has one row per key among es, and each row describes exactly its group. */
  ghost predicate Grouped<K(!new), A(!new)>(
    m: map<K, A>, es: seq<LogEntry>, key: LogEntry -> K, describes: (A, seq<LogEntry>) -> bool)
  {
    m.Keys == Keys(es, key) && forall k :: k in m ==> describes(m[k], Group(es, key, k))
  }

  /** Updating the entry's own row keeps every row exact. */
  lemma GroupedStep<K(!new), A(!new)>(m: map<K, A>, es: seq<LogEntry>, key: LogEntry -> K, e: LogEntry, a: A,
                          describes: (A, seq<LogEntry>) -> bool)
    requires Grouped(m, es, key, describes)
    requires describes(a, Group(es, key, key(e)) + [e])
    ensures Grouped(m[key(e) := a], es + [e], key, describes)
  {
    KeysAppend(es, e, key);
    var m' := m[key(e) := a];
    forall k | k in m' ensures describes(m'[k], Group(es + [e], key, k)) {
      SelectAppend(es, e, x => key(x) == k);
    }
  }

  /** The entry's row before the update describes its group so far, whether it exists or not. */
  lemma RowSoFar<K(!new), A(!new)>(m: map<K, A>, es: seq<LogEntry>, key: LogEntry -> K, k: K, zero: A,
                       describes: (A, seq<LogEntry>) -> bool)
    requires Grouped(m, es, key, describes) && describes(zero, [])
    ensures describes(Row(m, k, zero), Group(es, key, k))
  {
    if k !in m {
      GroupEmpty(es, key, k);
    }
  }

  /** The lookup that creates a missing accumulator. */
  function Row<K(==), A>(m: map<K, A>, k: K, zero: A): A {
    if k in m then m[k] else zero
  }

  /** In any order, rows that hold the tallies of their groups' folds add up to the total. */
  lemma RowsAddUp<K(!new)>(es: seq<LogEntry>, key: LogEntry -> K, ks: seq<K>, tally: K -> Tally)
    requires Lists(ks, Keys(es, key))
    requires forall k :: k in ks ==> tally(k) == TallyOf(Fold(Group(es, key, k)))
    ensures Sum(ks, tally) == Total(es)
  {
    forall k | k in ks ensures tally(k) == Total(Group(es, key, k)) {
      FoldMeans(Group(es, key, k));
    }
    SumSame(ks, tally, k => Total(Group(es, key, k)));
    GroupsAddUp(es, key, ks);
  }

  // ---------- counting maps ----------

  /** Each key with the number of its entries. */
  ghost predicate Counts<K(!new)>(m: map<K, int>, es: seq<LogEntry>, key: LogEntry -> K) {
    Grouped(m, es, key, IsCount)
  }

  ghost predicate IsCount(n: int, es: seq<LogEntry>) {
    n == |es|
  }

  lemma CountsStep<K(!new)>(m: map<K, int>, es: seq<LogEntry>, key: LogEntry -> K, e: LogEntry)
    requires Counts(m, es, key)
    ensures Counts(m[key(e) := Row(m, key(e), 0) + 1], es + [e], key)
  {
    RowSoFar(m, es, key, key(e), 0, IsCount);
    GroupedStep(m, es, key, e, Row(m, key(e), 0) + 1, IsCount);
  }

  /** Group by one key, then by another, or the other way round: the same entries. */
  lemma GroupsCommute<K, L>(es: seq<LogEntry>, key: LogEntry -> K, other: LogEntry -> L, k: K, l: L)
    ensures Group(Group(es, key, k), other, l) == Group(Group(es, other, l), key, k)
  {
    SelectsCommute(es, e => key(e) == k, e => other(e) == l);
  }
}
