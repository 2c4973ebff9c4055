/** Log entries, the tallies kept about them, and the theory of grouping them by a key. */
module Telemetry {
  import opened Sequences
  import opened Text

  const STATUS_OK: int := 200
  const ZERO_TIME: int := 0
  const SECOND: int := 1_000_000_000
  const HOUR: int := 3600 * SECOND
  const DAY: int := 24 * HOUR

  /** time.Time.Truncate for a positive step: instants are nanoseconds since the zero time. */
  function Truncate(t: int, step: int): int
    requires step > 0
  {
    step * (t / step)
  }

  lemma MulMonotone(a: int, x: int, y: int)
    requires a >= 0 && x <= y
    ensures a * x <= a * y
  {
    assert a * (y - x) >= 0;
  }

  lemma TruncateBounds(t: int, step: int)
    requires step > 0
    ensures Truncate(t, step) <= t < Truncate(t, step) + step
  {
  }

  lemma QuotientUnique(t: int, step: int, q: int, k: int)
    requires step > 0
    requires step * q <= t < step * q + step && step * k <= t < step * k + step
    ensures q == k
  {
    if q < k {
      MulMonotone(step, q + 1, k);
    } else if k < q {
      MulMonotone(step, k + 1, q);
    }
  }

  /** The only multiple of the step in (t - step, t]. */
  lemma TruncateUnique(t: int, step: int, k: int)
    requires step > 0 && step * k <= t < step * k + step
    ensures t / step == k && Truncate(t, step) == step * k
  {
    TruncateBounds(t, step);
    QuotientUnique(t, step, t / step, k);
  }

  lemma QuotientMonotone(s: int, t: int, step: int)
    requires step > 0 && s <= t
    ensures s / step <= t / step
  {
    TruncateBounds(s, step);
    TruncateBounds(t, step);
    var p, q := s / step, t / step;
    if q < p {
      MulMonotone(step, q + 1, p);
    }
  }

  lemma TruncateMonotone(s: int, t: int, step: int)
    requires step > 0 && s <= t
    ensures Truncate(s, step) <= Truncate(t, step)
  {
    QuotientMonotone(s, t, step);
    MulMonotone(step, s / step, t / step);
  }

  /** Truncating to the hour first does not change the truncation to a multiple of the hour. */
  lemma TruncateNested(t: int, a: int, b: int)
    requires a > 0 && b > 0
    ensures a * b > 0 && Truncate(Truncate(t, a), a * b) == Truncate(t, a * b)
  {
    assert a * b > 0;
    var q := t / (a * b);
    TruncateBounds(t, a * b);
    TruncateBounds(t, a);
    assert a * b * q == a * (b * q);
    TruncateMonotone(a * (b * q), t, a);
    TruncateUnique(a * (b * q), a, b * q);
    TruncateUnique(Truncate(t, a), a * b, q);
  }

  /** One parsed log line. A time that did not parse is the zero time. */
  datatype LogEntry = LogEntry(
    clientIP: Str, country: Str, protocol: Str, status: int,
    bytesSent: int, bytesReceived: int, sessionTime: real,
    proxyAddr: Str, upstreamAddr: Str, time: int)

  /** Connections, failures and bytes: what every grouping adds up. */
  datatype Tally = Tally(connections: int, failures: int, bytes: int) {
    function Plus(o: Tally): Tally {
      Tally(connections + o.connections, failures + o.failures, bytes + o.bytes)
    }
  }

  const NOTHING := Tally(0, 0, 0)

  function One(e: LogEntry): Tally {
    Tally(1, if e.status != STATUS_OK then 1 else 0, e.bytesSent + e.bytesReceived)
  }

  function Total(es: seq<LogEntry>): Tally {
    if es == [] then NOTHING else Total(es[..|es| - 1]).Plus(One(es[|es| - 1]))
  }

  /** The entries whose key is k, in order. */
  function Group<K(==)>(es: seq<LogEntry>, key: LogEntry -> K, k: K): seq<LogEntry> {
    Select(es, e => key(e) == k)
  }

  lemma TotalAppend(es: seq<LogEntry>, e: LogEntry)
    ensures Total(es + [e]) == Total(es).Plus(One(e))
  {
    assert (es + [e])[..|es|] == es;
  }

  // ---------- sums over an enumeration ----------

  /** ks lists every element of the set s exactly once: one iteration order of a map's keys. */
  ghost predicate Lists<K(!new)>(ks: seq<K>, s: set<K>) {
    Distinct(ks) && forall k :: k in ks <==> k in s
  }

  /** Any one element: Go's map iteration order is unspecified. */
  ghost function Any<T>(s: set<T>): (x: T)
    requires s != {}
    ensures x in s
  {
    var x :| x in s; x
  }

  method Pick<T(==)>(s: set<T>) returns (x: T)
    requires s != {}
    ensures x in s
  {
    x :| x in s;
  }

  function Sum<K>(ks: seq<K>, f: K -> Tally): Tally {
    if ks == [] then NOTHING else Sum(ks[..|ks| - 1], f).Plus(f(ks[|ks| - 1]))
  }

  lemma SumAppend<K>(ks: seq<K>, k: K, f: K -> Tally)
    ensures Sum(ks + [k], f) == Sum(ks, f).Plus(f(k))
  {
    assert (ks + [k])[..|ks|] == ks;
  }

  lemma {:induction false} SumSame<K>(ks: seq<K>, f: K -> Tally, g: K -> Tally)
    requires forall k :: k in ks ==> f(k) == g(k)
    ensures Sum(ks, f) == Sum(ks, g)
  {
    if ks != [] {
      SumSame(ks[..|ks| - 1], f, g);
    }
  }

  /** Raising f at one listed key by d raises the sum by d. */
  lemma {:induction false} SumRaise<K>(ks: seq<K>, f: K -> Tally, g: K -> Tally, k: K, d: Tally)
    requires Distinct(ks)
    requires forall x :: x in ks ==> g(x) == if x == k then f(x).Plus(d) else f(x)
    ensures Sum(ks, g) == if k in ks then Sum(ks, f).Plus(d) else Sum(ks, f)
  {
    if ks != [] {
      var init, last := ks[..|ks| - 1], ks[|ks| - 1];
      assert k in ks <==> k in init || k == last;
      SumRaise(init, f, g, k, d);
    }
  }

  lemma {:induction false} SumNothing<K>(ks: seq<K>, f: K -> Tally)
    requires forall k :: k in ks ==> f(k) == NOTHING
    ensures Sum(ks, f) == NOTHING
  {
    if ks != [] {
      SumNothing(ks[..|ks| - 1], f);
    }
  }

  /** Adding up the groups, in any order, gives the entries whose key is listed. */
  lemma {:induction false} GroupsPartition<K>(es: seq<LogEntry>, key: LogEntry -> K, ks: seq<K>)
    requires Distinct(ks)
    ensures Sum(ks, k => Total(Group(es, key, k))) == Total(Select(es, e => key(e) in ks))
  {
    if es == [] {
      SumNothing(ks, k => Total(Group(es, key, k)));
    } else {
      var init, last := es[..|es| - 1], es[|es| - 1];
      GroupsPartition(init, key, ks);
      var f, g := k => Total(Group(init, key, k)), k => Total(Group(es, key, k));
      assert es == init + [last];
      forall k | k in ks ensures g(k) == if k == key(last) then f(k).Plus(One(last)) else f(k) {
        SelectAppend(init, last, e => key(e) == k);
        TotalAppend(Group(init, key, k), last);
      }
      SumRaise(ks, f, g, key(last), One(last));
      SelectAppend(init, last, e => key(e) in ks);
      TotalAppend(Select(init, e => key(e) in ks), last);
    }
  }

  /** The keys that occur. */
  function Keys<K>(es: seq<LogEntry>, key: LogEntry -> K): set<K> {
    set i | 0 <= i < |es| :: key(es[i])
  }

  /** Over all the keys that occur, in any order, the groups add up to the total. */
  lemma GroupsAddUp<K(!new)>(es: seq<LogEntry>, key: LogEntry -> K, ks: seq<K>)
    requires Lists(ks, Keys(es, key))
    ensures Sum(ks, k => Total(Group(es, key, k))) == Total(es)
  {
    forall e | e in es ensures key(e) in ks {
      KeyOccurs(es, key, e);
    }
    BucketsAddUp(es, key, ks);
  }

  // ---------- tables of tallies ----------

  /** Each key that occurs among es, with the total of its group. */
  ghost predicate Tallies<K(!new)>(m: map<K, Tally>, es: seq<LogEntry>, key: LogEntry -> K) {
    m.Keys == Keys(es, key) && forall k :: k in m ==> m[k] == Total(Group(es, key, k))
  }

  /** The accumulator step: create the bucket if it is missing, then add the entry. */
  function Bump<K(==)>(m: map<K, Tally>, k: K, d: Tally): map<K, Tally> {
    m[k := (if k in m then m[k] else NOTHING).Plus(d)]
  }

  lemma KeysAppend<K>(es: seq<LogEntry>, e: LogEntry, key: LogEntry -> K)
    ensures Keys(es + [e], key) == Keys(es, key) + {key(e)}
  {
    var a, b := Keys(es + [e], key), Keys(es, key) + {key(e)};
    forall k | k in b ensures k in a {
      if k == key(e) {
        assert key((es + [e])[|es|]) in a;
      } else {
        var i :| 0 <= i < |es| && key(es[i]) == k;
        assert key((es + [e])[i]) in a;
      }
    }
  }

  lemma GroupEmpty<K>(es: seq<LogEntry>, key: LogEntry -> K, k: K)
    requires k !in Keys(es, key)
    ensures Group(es, key, k) == []
  {
    forall i | 0 <= i < |es| ensures key(es[i]) != k {
      assert key(es[i]) in Keys(es, key);
    }
    SelectNone(es, e => key(e) == k);
  }

  lemma GroupOccurs<K>(es: seq<LogEntry>, key: LogEntry -> K, k: K)
    requires k in Keys(es, key)
    ensures Group(es, key, k) != []
  {
    var i :| 0 <= i < |es| && key(es[i]) == k;
    assert es[i] in Group(es, key, k);
  }

  lemma TalliesStep<K(!new)>(m: map<K, Tally>, es: seq<LogEntry>, e: LogEntry, key: LogEntry -> K)
    requires Tallies(m, es, key)
    ensures Tallies(Bump(m, key(e), One(e)), es + [e], key)
  {
    KeysAppend(es, e, key);
    var m' := Bump(m, key(e), One(e));
    forall k | k in m' ensures m'[k] == Total(Group(es + [e], key, k)) {
      SelectAppend(es, e, x => key(x) == k);
      TotalAppend(Group(es, key, k), e);
      if k !in m {
        GroupEmpty(es, key, k);
      }
    }
  }

  /** Any iteration over a tally table adds up to the total of the entries it was built from. */
  lemma TalliesAddUp<K(!new)>(m: map<K, Tally>, es: seq<LogEntry>, key: LogEntry -> K, ks: seq<K>)
    requires Tallies(m, es, key) && Lists(ks, m.Keys)
    ensures Sum(ks, k => if k in m then m[k] else NOTHING) == Total(es)
  {
    GroupsAddUp(es, key, ks);
    SumSame(ks, k => if k in m then m[k] else NOTHING, k => Total(Group(es, key, k)));
  }

  // ---------- regrouping a table ----------

  /** What the rows k of m with up(k) == b add up to, visited in the given order. */
  function Gathered<K(==), B(==)>(m: map<K, Tally>, order: seq<K>, up: K -> B, b: B): Tally {
    Sum(order, k => if k in m && up(k) == b then m[k] else NOTHING)
  }

  lemma GatheredAppend<K, B>(m: map<K, Tally>, order: seq<K>, k: K, up: K -> B, b: B)
    requires k in m
    ensures Gathered(m, order + [k], up, b) == Gathered(m, order, up, b).Plus(if up(k) == b then m[k] else NOTHING)
  {
    SumAppend(order, k, x => if x in m && up(x) == b then m[x] else NOTHING);
  }

  lemma GroupOfGroup<K, B>(es: seq<LogEntry>, key: LogEntry -> K, up: K -> B, coarse: LogEntry -> B, b: B, k: K)
    requires forall e :: e in es ==> up(key(e)) == coarse(e)
    ensures Group(Group(es, coarse, b), key, k) == if up(k) == b then Group(es, key, k) else []
  {
    var p: LogEntry -> bool, q: LogEntry -> bool := e => coarse(e) == b, e => key(e) == k;
    if up(k) == b {
      SelectTwice(es, p, q, q);
    } else {
      SelectNone(Select(es, p), q);
    }
  }

  /** Gathering whole groups by a coarser key gives the coarser group, in any visiting order. */
  lemma GatheredIsGroup<K(!new), B>(m: map<K, Tally>, es: seq<LogEntry>, key: LogEntry -> K, order: seq<K>,
                                    up: K -> B, coarse: LogEntry -> B, b: B)
    requires Tallies(m, es, key) && Lists(order, m.Keys)
    requires forall e :: e in es ==> up(key(e)) == coarse(e)
    ensures Gathered(m, order, up, b) == Total(Group(es, coarse, b))
  {
    var bs := Group(es, coarse, b);
    forall k | k in order
      ensures (if k in m && up(k) == b then m[k] else NOTHING) == Total(Group(bs, key, k))
    {
      GroupOfGroup(es, key, up, coarse, b, k);
    }
    SumSame(order, k => if k in m && up(k) == b then m[k] else NOTHING, k => Total(Group(bs, key, k)));
    GroupsPartition(bs, key, order);
    forall e | e in bs ensures key(e) in order {
      KeyOccurs(es, key, e);
    }
    SelectAll(bs, e => key(e) in order);
  }

  lemma KeyOccurs<K>(es: seq<LogEntry>, key: LogEntry -> K, e: LogEntry)
    requires e in es
    ensures key(e) in Keys(es, key)
  {
    var i :| 0 <= i < |es| && es[i] == e;
    assert key(es[i]) in Keys(es, key);
  }

  /** If every entry's coarse key is among the buckets, the buckets add up to the total. */
  lemma BucketsAddUp<B>(es: seq<LogEntry>, coarse: LogEntry -> B, buckets: seq<B>)
    requires Distinct(buckets) && forall e :: e in es ==> coarse(e) in buckets
    ensures Sum(buckets, b => Total(Group(es, coarse, b))) == Total(es)
  {
    GroupsPartition(es, coarse, buckets);
    SelectAll(es, e => coarse(e) in buckets);
  }
}
