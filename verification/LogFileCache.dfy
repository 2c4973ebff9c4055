/**
 * readStreamLogFileCached for one path, as concurrent readers against a writer: stat, lookup, read
 * and store are separate atomic steps, and the lock covers only the lookup and the store.
 */
module LogFileCache {
  import opened Options
  import opened Telemetry

  datatype Stamp = Stamp(size: nat, modTime: int)

  /** The path at one moment: what stat and a whole read of it would give. */
  datatype Version = Absent | File(stamp: Stamp, entries: seq<LogEntry>)

  datatype Cached = Cached(stamp: Stamp, entries: seq<LogEntry>)

  /** A reader call: where it is, and which version was current when it started and when it returned. */
  datatype Reader =
    | Looking(start: nat, stamp: Stamp)
    | Reading(start: nat, stamp: Stamp)
    | Storing(start: nat, stamp: Stamp, entries: seq<LogEntry>)
    | Returned(start: nat, end: nat, result: Option<seq<LogEntry>>)

  /** The number of the current version, the cache's entry for the path, and all calls so far. */
  datatype State = State(current: nat, cache: Option<Cached>, readers: seq<Reader>)

  datatype Event =
    | Stat                  // a new call
    | Lookup(r: nat)
    | Read(r: nat)
    | Store(r: nat)
    | Change                // the writer installs the next version
    | Clear                 // the rewriter empties the cache

  const START := State(0, None, [])

  // ---------- the steps ----------

  function StepStat(h: seq<Version>, s: State): State
    requires s.current < |h|
  {
    var reader := match h[s.current]
      case Absent => Returned(s.current, s.current, None)
      case File(stamp, _) => Looking(s.current, stamp);
    s.(readers := s.readers + [reader])
  }

  function StepLookup(s: State, r: nat): State
    requires r < |s.readers| && s.readers[r].Looking?
  {
    var Looking(start, stamp) := s.readers[r];
    if s.cache.Some? && s.cache.value.stamp == stamp then
      s.(readers := s.readers[r := Returned(start, s.current, Some(s.cache.value.entries))])
    else
      s.(readers := s.readers[r := Reading(start, stamp)])
  }

  function StepRead(h: seq<Version>, s: State, r: nat): State
    requires s.current < |h| && r < |s.readers| && s.readers[r].Reading?
  {
    var Reading(start, stamp) := s.readers[r];
    match h[s.current]
    case Absent => s.(readers := s.readers[r := Returned(start, s.current, None)])
    case File(_, entries) => s.(readers := s.readers[r := Storing(start, stamp, entries)])
  }

  function StepStore(s: State, r: nat): State
    requires r < |s.readers| && s.readers[r].Storing?
  {
    var Storing(start, stamp, entries) := s.readers[r];
    s.(cache := Some(Cached(stamp, entries)),
       readers := s.readers[r := Returned(start, s.current, Some(entries))])
  }

  /** One event; an event that is not enabled changes nothing. */
  function Apply(h: seq<Version>, s: State, e: Event): State
    requires s.current < |h|
  {
    match e
    case Stat => StepStat(h, s)
    case Lookup(r) => if r < |s.readers| && s.readers[r].Looking? then StepLookup(s, r) else s
    case Read(r) => if r < |s.readers| && s.readers[r].Reading? then StepRead(h, s, r) else s
    case Store(r) => if r < |s.readers| && s.readers[r].Storing? then StepStore(s, r) else s
    case Change => if s.current + 1 < |h| then s.(current := s.current + 1) else s
    case Clear => s.(cache := None)
  }

  /** The state after any interleaving, over a path that goes through the versions h. */
  function After(h: seq<Version>, run: seq<Event>): (s: State)
    requires h != []
    ensures s.current < |h|
  {
    if run == [] then START else Apply(h, After(h, run[..|run| - 1]), run[|run| - 1])
  }

  // ---------- what a call may return ----------

  ghost predicate HasEntries(h: seq<Version>, v: nat, entries: seq<LogEntry>) {
    v < |h| && h[v].File? && h[v].entries == entries
  }

  /** The entries are those of a version that was current at some instant from `from` to `to`. */
  ghost predicate CurrentBetween(h: seq<Version>, from: nat, to: nat, entries: seq<LogEntry>) {
    exists v: nat :: from <= v <= to && HasEntries(h, v, entries)
  }

  /** A call that returned entries returned those of an instant during the call. */
  ghost predicate Fresh(h: seq<Version>, r: Reader) {
    r.Returned? && r.result.Some? ==> CurrentBetween(h, r.start, r.end, r.result.value)
  }

  ghost predicate AllFresh(h: seq<Version>, s: State) {
    forall r :: 0 <= r < |s.readers| ==> Fresh(h, s.readers[r])
  }

  /** Stamps as evidence: whatever the file held between two equal stamps, it holds at the second. */
  ghost predicate StampsTell(h: seq<Version>) {
    forall i: nat, j: nat, k: nat :: i <= j <= k < |h| && SameStamp(h, i, k) && h[j].File?
      ==> h[j].entries == h[k].entries
  }

  ghost predicate SameStamp(h: seq<Version>, i: nat, k: nat)
    requires i < |h| && k < |h|
  {
    h[i].File? && h[k].File? && h[i].stamp == h[k].stamp
  }

  // ---------- safety ----------

  /** A stamp seen at version i, with entries read no earlier and at the latest now. */
  ghost predicate Sourced(h: seq<Version>, from: nat, to: nat, c: Cached) {
    exists i: nat :: from <= i <= to && i < |h| && h[i].File? && h[i].stamp == c.stamp
                     && CurrentBetween(h, i, to, c.entries)
  }

  /** What every call in progress knows. */
  ghost predicate Sound(h: seq<Version>, now: nat, r: Reader) {
    && r.start <= now < |h|
    && (r.Looking? || r.Reading? || r.Storing? ==> h[r.start].File? && h[r.start].stamp == r.stamp)
    && (r.Storing? ==> CurrentBetween(h, r.start, now, r.entries))
    && Fresh(h, r)
  }

  ghost predicate Inv(h: seq<Version>, s: State) {
    && s.current < |h|
    && (forall r :: 0 <= r < |s.readers| ==> Sound(h, s.current, s.readers[r]))
    && (s.cache.Some? ==> Sourced(h, 0, s.current, s.cache.value))
  }

  /** A hit is fresh: either the entries were read during the call, or the equal stamps tell. */
  lemma HitIsFresh(h: seq<Version>, now: nat, start: nat, c: Cached)
    requires StampsTell(h) && Sourced(h, 0, now, c)
    requires start <= now < |h| && h[start].File? && h[start].stamp == c.stamp
    ensures CurrentBetween(h, start, now, c.entries)
  {
    var i: nat :| i <= now && h[i].File? && h[i].stamp == c.stamp && CurrentBetween(h, i, now, c.entries);
    var j: nat :| i <= j <= now && HasEntries(h, j, c.entries);
    if j < start {
      assert SameStamp(h, i, start);
      assert HasEntries(h, start, c.entries);
    }
  }

  lemma LaterIsSound(h: seq<Version>, now: nat, r: Reader)
    requires Sound(h, now, r) && now + 1 < |h|
    ensures Sound(h, now + 1, r)
  {
    if r.Storing? {
      var v: nat :| r.start <= v <= now && HasEntries(h, v, r.entries);
    }
  }

  lemma LaterIsSourced(h: seq<Version>, now: nat, c: Cached)
    requires Sourced(h, 0, now, c) && now + 1 < |h|
    ensures Sourced(h, 0, now + 1, c)
  {
    var i: nat :| i <= now && h[i].File? && h[i].stamp == c.stamp && CurrentBetween(h, i, now, c.entries);
    var j: nat :| i <= j <= now && HasEntries(h, j, c.entries);
    assert CurrentBetween(h, i, now + 1, c.entries);
  }

  lemma StepKeepsInv(h: seq<Version>, s: State, e: Event)
    requires StampsTell(h) && Inv(h, s)
    ensures Inv(h, Apply(h, s, e))
  {
    match e
    case Stat =>
    case Lookup(r) =>
      if r < |s.readers| && s.readers[r].Looking? {
        assert Sound(h, s.current, s.readers[r]);
        if s.cache.Some? && s.cache.value.stamp == s.readers[r].stamp {
          HitIsFresh(h, s.current, s.readers[r].start, s.cache.value);
        }
      }
    case Read(r) =>
      if r < |s.readers| && s.readers[r].Reading? {
        assert Sound(h, s.current, s.readers[r]);
        if h[s.current].File? {
          assert HasEntries(h, s.current, h[s.current].entries);
        }
      }
    case Store(r) =>
      if r < |s.readers| && s.readers[r].Storing? {
        assert Sound(h, s.current, s.readers[r]);
        var c := Cached(s.readers[r].stamp, s.readers[r].entries);
        assert Sourced(h, 0, s.current, c);
      }
    case Change =>
      if s.current + 1 < |h| {
        forall r | 0 <= r < |s.readers| ensures Sound(h, s.current + 1, s.readers[r]) {
          LaterIsSound(h, s.current, s.readers[r]);
        }
        if s.cache.Some? {
          LaterIsSourced(h, s.current, s.cache.value);
        }
      }
    case Clear =>
  }

  lemma {:induction false} RunKeepsInv(h: seq<Version>, run: seq<Event>)
    requires h != [] && StampsTell(h)
    ensures Inv(h, After(h, run))
  {
    if run != [] {
      RunKeepsInv(h, run[..|run| - 1]);
      StepKeepsInv(h, After(h, run[..|run| - 1]), run[|run| - 1]);
    }
  }

  // ---------- the converse ----------

  function Changes(n: nat): seq<Event> {
    seq(n, i => Change)
  }

  lemma AfterOne(h: seq<Version>, run: seq<Event>, e: Event)
    requires h != []
    ensures After(h, run + [e]) == Apply(h, After(h, run), e)
  {
    assert (run + [e])[..|run|] == run;
  }

  lemma {:induction false} AfterChanges(h: seq<Version>, run: seq<Event>, n: nat)
    requires h != [] && After(h, run).current + n < |h|
    ensures After(h, run + Changes(n)) == After(h, run).(current := After(h, run).current + n)
  {
    if n == 0 {
      assert run + Changes(0) == run;
    } else {
      AfterChanges(h, run, n - 1);
      assert run + Changes(n) == (run + Changes(n - 1)) + [Change];
      AfterOne(h, run + Changes(n - 1), Change);
    }
  }

  /** One call stats at version i, reads at j and stores; at k another call stats and looks up. */
  function StaleRun(i: nat, j: nat, k: nat): seq<Event>
    requires i <= j <= k
  {
    MissRun(i) + Changes(j - i) + [Read(0)] + [Store(0)] + Changes(k - j) + [Stat] + [Lookup(1)]
  }

  function MissRun(i: nat): seq<Event> {
    Changes(i) + [Stat] + [Lookup(0)]
  }

  lemma FirstCallMisses(h: seq<Version>, i: nat)
    requires i < |h| && h[i].File?
    ensures After(h, MissRun(i)) == State(i, None, [Reading(i, h[i].stamp)])
  {
    assert [] + Changes(i) == Changes(i);
    AfterChanges(h, [], i);
    AfterOne(h, Changes(i), Stat);
    AfterOne(h, Changes(i) + [Stat], Lookup(0));
  }

  lemma FirstCallStores(h: seq<Version>, i: nat, j: nat)
    requires i <= j < |h| && h[i].File? && h[j].File?
    ensures After(h, MissRun(i) + Changes(j - i) + [Read(0)] + [Store(0)])
         == State(j, Some(Cached(h[i].stamp, h[j].entries)), [Returned(i, j, Some(h[j].entries))])
  {
    hide After, MissRun, Changes;
    FirstCallMisses(h, i);
    AfterChanges(h, MissRun(i), j - i);
    var run := MissRun(i) + Changes(j - i);
    AfterOne(h, run, Read(0));
    AfterOne(h, run + [Read(0)], Store(0));
  }

  lemma SecondCallIsServed(h: seq<Version>, i: nat, j: nat, k: nat)
    requires i <= j <= k < |h| && SameStamp(h, i, k) && h[j].File?
    ensures After(h, StaleRun(i, j, k)).readers
         == [Returned(i, j, Some(h[j].entries)), Returned(k, k, Some(h[j].entries))]
  {
    hide After, MissRun, Changes;
    var r4 := MissRun(i) + Changes(j - i) + [Read(0)] + [Store(0)];
    FirstCallStores(h, i, j);
    AfterChanges(h, r4, k - j);
    var r5 := r4 + Changes(k - j);
    AfterOne(h, r5, Stat);
    AfterOne(h, r5 + [Stat], Lookup(1));
  }

  /** Where stamps do not tell, some run serves entries the file did not hold during the call. */
  lemma StaleRead(h: seq<Version>) returns (run: seq<Event>)
    requires h != [] && !StampsTell(h)
    ensures !AllFresh(h, After(h, run))
  {
    var i: nat, j: nat, k: nat :| i <= j <= k < |h| && SameStamp(h, i, k) && h[j].File? && h[j].entries != h[k].entries;
    run := StaleRun(i, j, k);
    SecondCallIsServed(h, i, j, k);
    assert !Fresh(h, After(h, run).readers[1]);
  }

  /** Over a given history, every call of every interleaving returns fresh entries iff the stamps tell. */
  lemma AlwaysFreshIff(h: seq<Version>)
    requires h != []
    ensures (forall run :: AllFresh(h, After(h, run))) <==> StampsTell(h)
  {
    if StampsTell(h) {
      forall run ensures AllFresh(h, After(h, run)) {
        RunKeepsInv(h, run);
        var s := After(h, run);
        assert forall r :: 0 <= r < |s.readers| ==> Sound(h, s.current, s.readers[r]);
      }
    } else {
      var run := StaleRead(h);
    }
  }

  /** One content per stamp is not enough: a file restored with its old size and time misleads. */
  lemma RestoredFileMisleads(a: Stamp, b: Stamp, x: seq<LogEntry>, y: seq<LogEntry>)
    requires a != b && x != y
    ensures var h := [File(a, x), File(b, y), File(a, x)];
      && (forall i: nat, k: nat :: i < |h| && k < |h| && SameStamp(h, i, k) ==> h[i].entries == h[k].entries)
      && !StampsTell(h)
  {
    var h := [File(a, x), File(b, y), File(a, x)];
    assert SameStamp(h, 0, 2) && h[1].entries != h[2].entries;
  }

  /** Modification times that never go back, and advance with every change of content, are enough. */
  lemma AdvancingTimesTell(h: seq<Version>)
    requires forall i: nat, k: nat :: i < k < |h| && h[i].File? && h[k].File? ==>
      h[i].stamp.modTime <= h[k].stamp.modTime
      && (h[i].entries != h[k].entries ==> h[i].stamp.modTime < h[k].stamp.modTime)
    ensures StampsTell(h)
  {
  }

  // ---------- errors ----------

  /** Calls lie in their interval, and one that returned an error met no file at an instant of it. */
  ghost predicate Honest(h: seq<Version>, now: nat, r: Reader) {
    && r.start <= now < |h|
    && (r.Returned? ==> r.start <= r.end <= now)
    && (r.Returned? && r.result.None? ==> exists v :: r.start <= v <= r.end && h[v].Absent?)
  }

  lemma StepIsHonest(h: seq<Version>, s: State, e: Event)
    requires s.current < |h| && forall r :: 0 <= r < |s.readers| ==> Honest(h, s.current, s.readers[r])
    ensures var s' := Apply(h, s, e);
      forall r :: 0 <= r < |s'.readers| ==> Honest(h, s'.current, s'.readers[r])
  {
    var s' := Apply(h, s, e);
    forall r | 0 <= r < |s'.readers| ensures Honest(h, s'.current, s'.readers[r]) {
      if r < |s.readers| && s'.readers[r] != s.readers[r] {
        assert Honest(h, s.current, s.readers[r]);
        if s'.readers[r].Returned? && s'.readers[r].result.None? {
          assert h[s.current].Absent?;
        }
      }
    }
  }

  /** In every interleaving and whatever the stamps: an error means that the file was absent during the call. */
  lemma ErrorsAreReal(h: seq<Version>, run: seq<Event>, r: nat)
    requires h != [] && r < |After(h, run).readers|
    ensures var call := After(h, run).readers[r];
      call.Returned? && call.result.None? ==> exists v :: call.start <= v <= call.end < |h| && h[v].Absent?
  {
    HonestRun(h, run);
  }

  lemma {:induction false} HonestRun(h: seq<Version>, run: seq<Event>)
    requires h != []
    ensures forall q :: 0 <= q < |After(h, run).readers| ==> Honest(h, After(h, run).current, After(h, run).readers[q])
  {
    if run != [] {
      HonestRun(h, run[..|run| - 1]);
      StepIsHonest(h, After(h, run[..|run| - 1]), run[|run| - 1]);
    }
  }
}
