/**
 * The live snapshot cache: a map with expiry and oldest-first eviction, against the list of all
 * snapshots ever put, whatever the clock readings; and the paging of one snapshot's connections.
 */
module SnapshotCache {
  import opened Options
  import opened Text
  import opened Sequences
  import opened Sorting
  import opened StreamEvidence
  import opened Telemetry

  datatype StateGroup = Active | Handshake | Listening | Closing | Other

  /** What the filters read of a live connection; the state is known by its group. */
  datatype LiveConnection = LiveConnection(id: Str, state: StateGroup, local: Endpoint, remote: Endpoint, streams: nat)

  /** A captured snapshot; the owner is known by a digest. */
  datatype Snapshot = Snapshot(token: Str, owner: Str, capturedAt: int, expiresAt: int,
                               connections: seq<LiveConnection>)

  // ---------- the order of eviction ----------

  /** Captured earlier, or at the same instant under a smaller token. */
  predicate Older(a: Snapshot, b: Snapshot) {
    a.capturedAt < b.capturedAt || (a.capturedAt == b.capturedAt && Less(a.token, b.token))
  }

  function Behind(): (Snapshot, Snapshot) -> bool {
    (a: Snapshot, b: Snapshot) => Older(a, b) && a.token != b.token
  }

  /** Oldest first, with non-empty distinct tokens. */
  ghost predicate ByAge(held: seq<Snapshot>) {
    SortedBy(held, Behind()) && forall s :: s in held ==> s.token != []
  }

  lemma OlderIsStrict(a: Snapshot, b: Snapshot, c: Snapshot)
    ensures Older(a, b) ==> !Older(b, a)
    ensures a.token != b.token ==> Older(a, b) || Older(b, a)
    ensures Older(a, b) && Older(b, c) ==> Older(a, c)
  {
    LessTotal(a.token, b.token);
    if Less(a.token, b.token) {
      LessAsymmetric(a.token, b.token);
      if Less(b.token, c.token) {
        LessTransitive(a.token, b.token, c.token);
      }
    }
  }

  lemma SuffixByAge(held: seq<Snapshot>, k: nat)
    requires ByAge(held) && k <= |held|
    ensures ByAge(held[k..])
  {
  }

  // ---------- what one access does to the held snapshots ----------

  predicate Alive(s: Snapshot, now: int) {
    now < s.expiresAt
  }

  function AliveAt(now: int): Snapshot -> bool {
    (s: Snapshot) => Alive(s, now)
  }

  /** s at its place by age. */
  function Inserted(held: seq<Snapshot>, s: Snapshot): seq<Snapshot> {
    if held == [] || Older(held[|held| - 1], s) then held + [s]
    else Inserted(held[..|held| - 1], s) + [held[|held| - 1]]
  }

  /** One locked access, with the clock reading it was given. */
  datatype Access = Get(now: int) | Put(snapshot: Snapshot, now: int)

  /** What has expired at the reading leaves; a put then keeps the newest max - 1 and adds its own. */
  function Step(held: seq<Snapshot>, a: Access, max: nat): seq<Snapshot>
    requires max >= 1
  {
    var alive := Select(held, AliveAt(a.now));
    match a
    case Get(_) => alive
    case Put(s, _) => Inserted(LastOf(alive, max - 1), s)
  }

  lemma AliveByAge(held: seq<Snapshot>, now: int)
    requires ByAge(held)
    ensures ByAge(Select(held, AliveAt(now)))
  {
    SelectSorted(held, AliveAt(now), Behind());
  }

  ghost predicate FreshToken(held: seq<Snapshot>, token: Str) {
    token != [] && forall x :: x in held ==> x.token != token
  }

  lemma {:induction false} InsertedByAge(held: seq<Snapshot>, s: Snapshot)
    requires ByAge(held) && FreshToken(held, s.token)
    ensures ByAge(Inserted(held, s))
    ensures forall x :: x in Inserted(held, s) <==> x in held || x == s
    ensures |Inserted(held, s)| == |held| + 1
  {
    if held != [] {
      var init, last := held[..|held| - 1], held[|held| - 1];
      assert last in held;
      OlderIsStrict(last, s, s);
      assert held == init + [last];
      if Older(last, s) {
        AppendByAge(held, s);
      } else {
        InsertedByAge(init, s);
        BehindAll(init, last);
        AppendBehind(Inserted(init, s), last);
      }
    }
  }

  lemma BehindAll(init: seq<Snapshot>, last: Snapshot)
    requires ByAge(init + [last])
    ensures forall x :: x in init ==> Behind()(x, last)
  {
    var held := init + [last];
    forall x | x in init ensures Behind()(x, last) {
      var i: nat :| i < |init| && init[i] == x;
      assert Behind()(held[i], held[|init|]);
    }
  }

  lemma AppendBehind(held: seq<Snapshot>, last: Snapshot)
    requires ByAge(held) && last.token != [] && forall x :: x in held ==> Behind()(x, last)
    ensures ByAge(held + [last])
  {
  }

  lemma AppendByAge(held: seq<Snapshot>, s: Snapshot)
    requires ByAge(held) && held != [] && FreshToken(held, s.token) && Older(held[|held| - 1], s)
    ensures ByAge(held + [s])
  {
    var last := held[|held| - 1];
    assert held == held[..|held| - 1] + [last];
    BehindAll(held[..|held| - 1], last);
    forall x | x in held ensures Behind()(x, s) {
      OlderIsStrict(x, last, s);
    }
    AppendBehind(held, s);
  }

  // ---------- the cache ----------

  /** The map holds exactly the listed snapshots, by token. */
  ghost predicate Holds(m: map<Str, Snapshot>, held: seq<Snapshot>) {
    && (forall s :: s in held ==> s.token in m && m[s.token] == s)
    && (forall t :: t in m ==> m[t] in held && m[t].token == t)
  }

  class Cache {
    const max: nat
    const ttl: int
    var snapshots: map<Str, Snapshot>
    ghost var held: seq<Snapshot>

    /** The map holds exactly the listed snapshots. */
    ghost predicate Valid()
      reads this
    {
      max >= 1 && ByAge(held) && Holds(snapshots, held)
    }

    constructor (max: nat, ttl: int)
      requires max >= 1
      ensures Valid() && this.max == max && this.ttl == ttl && held == []
    {
      this.max, this.ttl := max, ttl;
      snapshots, held := map[], [];
    }

    /** The loop that deletes while it ranges over the map, in whatever order. */
    method RemoveExpired(now: int)
      requires Valid()
      modifies this`snapshots, this`held
      ensures Valid() && held == Select(old(held), AliveAt(now))
    {
      var rest := snapshots.Keys;
      var kept := snapshots;
      while rest != {}
        invariant snapshots == old(snapshots) && held == old(held)
        invariant rest <= snapshots.Keys && kept.Keys <= snapshots.Keys
        invariant forall t :: t in kept ==> kept[t] == snapshots[t]
        invariant forall t :: t in snapshots ==> (t in kept <==> t in rest || Alive(snapshots[t], now))
        decreases |rest|
      {
        var token := Pick(rest);
        rest := rest - {token};
        if !(now < snapshots[token].expiresAt) {
          kept := kept - {token};
        }
      }
      ExpiredGone(snapshots, kept, held, now);
      AliveByAge(held, now);
      snapshots := kept;
      held := Select(held, AliveAt(now));
    }

    /** The loop that looks for the oldest snapshot; the empty token stands for "none yet". */
    method Oldest() returns (oldestToken: Str)
      requires Valid() && held != []
      ensures oldestToken == held[0].token
    {
      hide ByAge, Holds, OldestSoFar, Less;
      oldestToken := [];
      var oldest := ZERO_TIME;
      var rest := snapshots.Keys;
      ghost var visited: set<Str> := {};
      NoneSoFar(snapshots);
      while rest != {}
        invariant visited !! rest && visited + rest == snapshots.Keys
        invariant OldestSoFar(snapshots, visited, oldestToken, oldest)
        decreases |rest|
      {
        var token := Pick(rest);
        var candidate := snapshots[token];
        Visit(snapshots, held, visited, oldestToken, oldest, token);
        if oldestToken == [] || candidate.capturedAt < oldest
            || (candidate.capturedAt == oldest && Less(token, oldestToken)) {
          oldestToken := token;
          oldest := candidate.capturedAt;
        }
        rest, visited := rest - {token}, visited + {token};
      }
      OldestIsFirst(snapshots, held, oldestToken, oldest);
    }

    /** Deleting the oldest until there is room. */
    method Evict()
      requires Valid()
      modifies this`snapshots, this`held
      ensures Valid() && held == LastOf(old(held), max - 1)
    {
      hide ByAge, Holds, LastOf;
      ghost var j: nat := 0;
      assert held[0..] == held;
      HoldsCount(snapshots, held);
      while |snapshots| >= max
        invariant Valid() && |snapshots| == |held|
        invariant j <= |old(held)| && held == old(held)[j..]
        invariant j > 0 ==> |held| >= max - 1
        decreases |snapshots|
      {
        var oldestToken := Oldest();
        DropOldest(snapshots, held);
        assert old(held)[j..][1..] == old(held)[j + 1..];
        snapshots := snapshots - {oldestToken};
        held := held[1..];
        j := j + 1;
        HoldsCount(snapshots, held);
      }
      LastOfSuffix(old(held), j, max - 1);
      LastOfAll(held, max - 1);
      assert old(held)[0..] == old(held);
      LastOfSuffix(old(held), 0, max - 1);
    }

    method Put(snapshot: Snapshot, now: int)
      requires Valid() && FreshToken(held, snapshot.token)
      modifies this`snapshots, this`held
      ensures Valid() && held == Step(old(held), Access.Put(snapshot, now), max)
    {
      RemoveExpired(now);
      Evict();
      InsertedByAge(held, snapshot);
      snapshots := snapshots[snapshot.token := snapshot];
      held := Inserted(held, snapshot);
    }

    /** A snapshot is returned exactly if it is held under that token and has the same owner. */
    method Get(token: Str, owner: Str, now: int) returns (r: Option<Snapshot>)
      requires Valid()
      modifies this`snapshots, this`held
      ensures Valid() && held == Step(old(held), Access.Get(now), max)
      ensures r.Some? ==> r.value in held && r.value.token == token && r.value.owner == owner
      ensures r.None? ==> forall s :: s in held ==> !(s.token == token && s.owner == owner)
    {
      RemoveExpired(now);
      if token !in snapshots || snapshots[token].owner != owner {
        return None;
      }
      return Some(snapshots[token]);
    }
  }

  lemma ExpiredGone(m: map<Str, Snapshot>, kept: map<Str, Snapshot>, held: seq<Snapshot>, now: int)
    requires Holds(m, held)
    requires kept.Keys <= m.Keys && forall t :: t in kept ==> kept[t] == m[t]
    requires forall t :: t in m ==> (t in kept <==> Alive(m[t], now))
    ensures Holds(kept, Select(held, AliveAt(now)))
  {
    forall s | s in Select(held, AliveAt(now)) ensures s.token in kept && kept[s.token] == s {
      assert s in held;
    }
    forall t | t in kept ensures kept[t] in Select(held, AliveAt(now)) && kept[t].token == t {
      assert m[t] in held;
    }
  }

  /** No visited snapshot is older than the one of this token; the empty token if none was visited. */
  ghost predicate OldestSoFar(m: map<Str, Snapshot>, visited: set<Str>, token: Str, time: int) {
    if token == [] then visited == {}
    else
      && token in visited && token in m && m[token].capturedAt == time
      && forall t :: t in visited && t in m && t != token ==> Older(m[token], m[t])
  }

  lemma NoneSoFar(m: map<Str, Snapshot>)
    ensures OldestSoFar(m, {}, [], ZERO_TIME)
  {
  }

  lemma TokenOf(m: map<Str, Snapshot>, held: seq<Snapshot>, token: Str)
    requires ByAge(held) && Holds(m, held) && token in m
    ensures token != [] && m[token].token == token
  {
    assert m[token] in held;
  }

  /** One more snapshot visited: the older of it and the oldest so far is the oldest. */
  lemma Visit(m: map<Str, Snapshot>, held: seq<Snapshot>, visited: set<Str>, before: Str, time: int, token: Str)
    requires ByAge(held) && Holds(m, held) && token in m && token !in visited
    requires OldestSoFar(m, visited, before, time)
    ensures var candidate := m[token].capturedAt;
      if before == [] || candidate < time || (candidate == time && Less(token, before))
      then OldestSoFar(m, visited + {token}, token, candidate)
      else OldestSoFar(m, visited + {token}, before, time)
  {
    TokenOf(m, held, token);
    if before != [] {
      TokenOf(m, held, before);
      OlderIsStrict(m[token], m[before], m[token]);
      forall t | t in visited && t in m && t != before && Older(m[token], m[before]) ensures Older(m[token], m[t]) {
        OlderIsStrict(m[token], m[before], m[t]);
      }
    }
  }

  lemma OldestIsFirst(m: map<Str, Snapshot>, held: seq<Snapshot>, token: Str, time: int)
    requires ByAge(held) && Holds(m, held) && held != [] && OldestSoFar(m, m.Keys, token, time)
    ensures token == held[0].token
  {
    assert held[0] in held && m[token] in held;
    var i: nat :| i < |held| && held[i] == m[token];
    assert i == 0 || Behind()(held[0], held[i]);
    OlderIsStrict(held[0], held[i], held[i]);
  }

  lemma NothingHeld(m: map<Str, Snapshot>)
    requires Holds(m, [])
    ensures m.Keys == {}
  {
  }

  lemma {:induction false} HoldsCount(m: map<Str, Snapshot>, held: seq<Snapshot>)
    requires ByAge(held) && Holds(m, held)
    ensures |m| == |held|
  {
    hide ByAge;
    if held == [] {
      NothingHeld(m);
    } else {
      DropOldest(m, held);
      HoldsCount(m - {held[0].token}, held[1..]);
      assert m.Keys == (m - {held[0].token}).Keys + {held[0].token};
    }
  }

  lemma OldestTokenIsGone(held: seq<Snapshot>)
    requires held != [] && ByAge(held)
    ensures forall s :: s in held[1..] ==> s.token != held[0].token
  {
    forall s | s in held[1..] ensures s.token != held[0].token {
      var i: nat :| i < |held[1..]| && held[1..][i] == s;
      assert Behind()(held[0], held[i + 1]);
    }
  }

  lemma HoldsRest(m: map<Str, Snapshot>, held: seq<Snapshot>)
    requires held != [] && Holds(m, held) && forall s :: s in held[1..] ==> s.token != held[0].token
    ensures Holds(m - {held[0].token}, held[1..])
  {
    assert held == [held[0]] + held[1..];
    assert forall x :: x in held ==> x == held[0] || x in held[1..];
  }

  lemma DropOldest(m: map<Str, Snapshot>, held: seq<Snapshot>)
    requires held != [] && ByAge(held) && Holds(m, held)
    ensures ByAge(held[1..]) && Holds(m - {held[0].token}, held[1..])
  {
    hide ByAge, Holds;
    SuffixByAge(held, 1);
    OldestTokenIsGone(held);
    HoldsRest(m, held);
  }

  // ---------- over any run of accesses ----------

  function After(run: seq<Access>, max: nat): seq<Snapshot>
    requires max >= 1
  {
    if run == [] then [] else Step(After(run[..|run| - 1], max), run[|run| - 1], max)
  }

  /** The snapshots put, in order. */
  function Puts(run: seq<Access>): seq<Snapshot> {
    if run == [] then []
    else
      var before := Puts(run[..|run| - 1]);
      match run[|run| - 1]
      case Get(_) => before
      case Put(s, _) => before + [s]
  }

  /** Non-empty distinct tokens, strictly increasing capture times, one ttl. */
  ghost predicate WellFormed(puts: seq<Snapshot>, ttl: int) {
    && (forall i :: 0 <= i < |puts| ==> puts[i].token != [] && puts[i].expiresAt == puts[i].capturedAt + ttl)
    && (forall i, j :: 0 <= i < j < |puts| ==>
          puts[i].token != puts[j].token && puts[i].capturedAt < puts[j].capturedAt)
  }

  lemma WellFormedInit(puts: seq<Snapshot>, s: Snapshot, ttl: int)
    requires WellFormed(puts + [s], ttl)
    ensures WellFormed(puts, ttl)
    ensures forall x :: x in puts ==> x.token != s.token && Older(x, s)
  {
    var all := puts + [s];
    assert all[|puts|] == s;
    assert forall i :: 0 <= i < |puts| ==> all[i] == puts[i];
    forall x | x in puts ensures x.token != s.token && Older(x, s) {
      var j: nat :| j < |puts| && puts[j] == x;
      assert all[j].token != all[|puts|].token;
    }
  }

  /** How many of the first puts have expired. */
  function FirstAlive(puts: seq<Snapshot>, now: int): (k: nat)
    ensures k <= |puts|
    ensures forall i :: 0 <= i < k ==> !Alive(puts[i], now)
    ensures k < |puts| ==> Alive(puts[k], now)
  {
    if puts == [] || Alive(puts[0], now) then 0
    else
      var k := FirstAlive(puts[1..], now);
      assert forall i :: 1 <= i < k + 1 ==> puts[i] == puts[1..][i - 1];
      k + 1
  }

  function Max(a: int, b: int): int { if a < b then b else a }

  /** Expired puts come first. */
  lemma AliveFrom(puts: seq<Snapshot>, ttl: int, now: int, i: nat)
    requires WellFormed(puts, ttl) && i < |puts|
    ensures Alive(puts[i], now) <==> i >= FirstAlive(puts, now)
  {
    var k := FirstAlive(puts, now);
    assert i > k ==> puts[k].capturedAt < puts[i].capturedAt;
  }

  /** So what is alive of a suffix is a suffix. */
  lemma AliveOfSuffix(puts: seq<Snapshot>, ttl: int, now: int, j: nat)
    requires WellFormed(puts, ttl) && j <= |puts|
    ensures Select(puts[j..], AliveAt(now)) == puts[Max(j, FirstAlive(puts, now))..]
  {
    hide WellFormed, FirstAlive;
    var k := FirstAlive(puts, now);
    forall i: nat | i < |puts| ensures Alive(puts[i], now) <==> i >= k {
      AliveFrom(puts, ttl, now, i);
    }
    var cut := Max(j, k) - j;
    assert forall i :: 0 <= i < |puts[j..]| ==> puts[j..][i] == puts[j + i];
    SelectSuffix(puts[j..], AliveAt(now), cut);
    assert puts[j..][cut..] == puts[j + cut..];
  }

  /** From which put on the snapshots are held. */
  function Start(run: seq<Access>, max: nat): (j: nat)
    requires max >= 1
    ensures j <= |Puts(run)|
  {
    if run == [] then 0
    else
      var init, last := run[..|run| - 1], run[|run| - 1];
      var unexpired := Max(Start(init, max), FirstAlive(Puts(init), last.now));
      match last
      case Get(_) => unexpired
      case Put(_, _) => Max(unexpired, |Puts(init)| - (max - 1))
  }

  /** Snapshots newer than all that are held go to the end. */
  lemma InsertedLast(held: seq<Snapshot>, s: Snapshot)
    requires forall x :: x in held ==> Older(x, s)
    ensures Inserted(held, s) == held + [s]
  {
    if held != [] {
      assert held[|held| - 1] in held;
    }
  }

  lemma PutsAppend(run: seq<Access>, a: Access)
    ensures Puts(run + [a]) == if a.Put? then Puts(run) + [a.snapshot] else Puts(run)
  {
    assert (run + [a])[..|run|] == run;
  }

  lemma PutStep(puts: seq<Snapshot>, j: nat, max: nat, ttl: int, s: Snapshot, now: int)
    requires max >= 1 && j <= |puts| && WellFormed(puts + [s], ttl)
    ensures var k := Max(Max(j, FirstAlive(puts, now)), |puts| - (max - 1));
      0 <= k <= |puts| && Step(puts[j..], Put(s, now), max) == (puts + [s])[k..]
  {
    hide WellFormed, FirstAlive, LastOf, Inserted, Select, Older;
    WellFormedInit(puts, s, ttl);
    AliveOfSuffix(puts, ttl, now, j);
    var u := Max(j, FirstAlive(puts, now));
    LastOfSuffix(puts, u, max - 1);
    var k := Max(u, |puts| - (max - 1));
    assert LastOf(puts[u..], max - 1) == puts[k..];
    InsertedLast(puts[k..], s);
    assert puts[k..] + [s] == (puts + [s])[k..];
  }

  lemma GetStep(puts: seq<Snapshot>, j: nat, max: nat, ttl: int, now: int)
    requires max >= 1 && j <= |puts| && WellFormed(puts, ttl)
    ensures Step(puts[j..], Get(now), max) == puts[Max(j, FirstAlive(puts, now))..]
  {
    hide WellFormed, FirstAlive, Select;
    AliveOfSuffix(puts, ttl, now, j);
  }

  /** What is held after a run is everything put from some position on. */
  lemma {:induction false} AfterIsSuffix(run: seq<Access>, max: nat, ttl: int)
    requires max >= 1 && WellFormed(Puts(run), ttl)
    ensures After(run, max) == Puts(run)[Start(run, max)..]
  {
    if run != [] {
      hide WellFormed, FirstAlive, Step;
      var init, last := run[..|run| - 1], run[|run| - 1];
      assert run == init + [last];
      PutsAppend(init, last);
      if last.Put? {
        WellFormedInit(Puts(init), last.snapshot, ttl);
        AfterIsSuffix(init, max, ttl);
        PutStep(Puts(init), Start(init, max), max, ttl, last.snapshot, last.now);
      } else {
        AfterIsSuffix(init, max, ttl);
        GetStep(Puts(init), Start(init, max), max, ttl, last.now);
      }
    }
  }

  function PutCount(run: seq<Access>): nat {
    |Puts(run)|
  }

  /** No access since p read a clock at or past the expiry of s. */
  ghost predicate NeverSeenExpired(run: seq<Access>, p: nat, s: Snapshot) {
    forall q :: p < q < |run| ==> Alive(s, run[q].now)
  }

  lemma {:induction false} StartIff(run: seq<Access>, max: nat, ttl: int, p: nat)
    requires max >= 1 && p < |run| && run[p].Put? && WellFormed(Puts(run), ttl)
    ensures PutCount(run[..p]) < PutCount(run) && Puts(run)[PutCount(run[..p])] == run[p].snapshot
    ensures Start(run, max) <= PutCount(run[..p])
       <==> PutCount(run) - PutCount(run[..p]) <= max && NeverSeenExpired(run, p, run[p].snapshot)
  {
    var init, last, i := run[..|run| - 1], run[|run| - 1], PutCount(run[..p]);
    assert run == init + [last];
    PutsAppend(init, last);
    if p == |run| - 1 {
      assert Start(init, max) <= |Puts(init)|;
    } else {
      if last.Put? {
        WellFormedInit(Puts(init), last.snapshot, ttl);
      }
      assert init[..p] == run[..p] && init[p] == run[p];
      StartIff(init, max, ttl, p);
      AliveFrom(Puts(init), ttl, last.now, i);
      ExpirySplit(init, last, p, run[p].snapshot);
    }
  }

  lemma ExpirySplit(run: seq<Access>, last: Access, p: nat, s: Snapshot)
    requires p < |run|
    ensures NeverSeenExpired(run + [last], p, s) <==> NeverSeenExpired(run, p, s) && Alive(s, last.now)
  {
    var all := run + [last];
    assert all[|run|] == last;
    assert forall q :: 0 <= q < |run| ==> all[q] == run[q];
  }

  /**
   * Over any run of accesses, whatever clock readings they were given and in whatever order these came:
   * a snapshot is held exactly if it is among the last max puts and no access since its own put read a
   * clock at or past its expiry.
   */
  lemma HeldIff(run: seq<Access>, max: nat, ttl: int, p: nat)
    requires max >= 1 && p < |run| && run[p].Put? && WellFormed(Puts(run), ttl)
    ensures run[p].snapshot in After(run, max)
       <==> PutCount(run) - PutCount(run[..p]) <= max && NeverSeenExpired(run, p, run[p].snapshot)
  {
    hide After, Start, NeverSeenExpired;
    AfterIsSuffix(run, max, ttl);
    StartIff(run, max, ttl, p);
    InSuffixIff(Puts(run), ttl, PutCount(run[..p]), Start(run, max));
  }

  lemma InSuffixIff(puts: seq<Snapshot>, ttl: int, i: nat, j: nat)
    requires WellFormed(puts, ttl) && i < |puts| && j <= |puts|
    ensures puts[i] in puts[j..] <==> j <= i
  {
    if j <= i {
      assert puts[j..][i - j] == puts[i];
    }
    if puts[i] in puts[j..] {
      var k: nat :| k < |puts[j..]| && puts[j..][k] == puts[i];
      assert puts[j + k].token == puts[i].token;
    }
  }

  /** Clock readings that never go back, and a put at its own capture time. */
  ghost predicate OrderlyClock(run: seq<Access>, ttl: int) {
    && ttl > 0
    && (forall i :: 0 <= i < |run| && run[i].Put? ==> run[i].snapshot.capturedAt == run[i].now)
    && (forall i, j :: 0 <= i < j < |run| ==> run[i].now <= run[j].now)
  }

  /** With an orderly clock: exactly the last max puts that have not expired at the latest access. */
  lemma HeldNow(run: seq<Access>, max: nat, ttl: int, p: nat)
    requires max >= 1 && p < |run| && run[p].Put? && WellFormed(Puts(run), ttl) && OrderlyClock(run, ttl)
    ensures run[p].snapshot in After(run, max)
       <==> PutCount(run) - PutCount(run[..p]) <= max && Alive(run[p].snapshot, run[|run| - 1].now)
  {
    hide After;
    HeldIff(run, max, ttl, p);
    StartIff(run, max, ttl, p);
    ExpiresOf(Puts(run), ttl, PutCount(run[..p]));
    assert forall q :: p < q < |run| ==> run[q].now <= run[|run| - 1].now;
  }

  lemma ExpiresOf(puts: seq<Snapshot>, ttl: int, i: nat)
    requires WellFormed(puts, ttl) && i < |puts|
    ensures puts[i].expiresAt == puts[i].capturedAt + ttl
  {
  }

  /** Whatever the clock read: only what was put is held, so a token always names the same snapshot. */
  lemma TokenFixesSnapshot(run: seq<Access>, later: seq<Access>, max: nat, ttl: int, s: Snapshot, t: Snapshot)
    requires max >= 1 && WellFormed(Puts(run + later), ttl) && s.token == t.token
    requires s in After(run, max) && t in After(run + later, max)
    ensures s == t
  {
    hide After, WellFormed, Start;
    PutsPrefix(run, later);
    assert Puts(run) == Puts(run + later)[..|Puts(run)|];
    WellFormedPrefix(Puts(run + later), ttl, |Puts(run)|);
    AfterIsSuffix(run, max, ttl);
    AfterIsSuffix(run + later, max, ttl);
    assert s in Puts(run) && t in Puts(run + later);
    OneTokenEach(Puts(run + later), ttl, s, t);
  }

  lemma {:induction false} PutsPrefix(run: seq<Access>, later: seq<Access>)
    ensures Puts(run) <= Puts(run + later)
  {
    if later == [] {
      assert run + later == run;
    } else {
      PutsPrefix(run, later[..|later| - 1]);
      assert run + later == (run + later[..|later| - 1]) + [later[|later| - 1]];
      PutsAppend(run + later[..|later| - 1], later[|later| - 1]);
    }
  }

  lemma WellFormedPrefix(puts: seq<Snapshot>, ttl: int, n: nat)
    requires WellFormed(puts, ttl) && n <= |puts|
    ensures WellFormed(puts[..n], ttl)
  {
  }

  lemma OneTokenEach(puts: seq<Snapshot>, ttl: int, s: Snapshot, t: Snapshot)
    requires WellFormed(puts, ttl) && s in puts && t in puts && s.token == t.token
    ensures s == t
  {
    var i: nat :| i < |puts| && puts[i] == s;
    var j: nat :| j < |puts| && puts[j] == t;
    assert puts[i].token == puts[j].token;
  }

  // ---------- pages of one snapshot ----------

  datatype StateFilter = AllStates | In(group: StateGroup)

  /** A request's filters; the empty text and port 0 mean "any". */
  datatype Filters = Filters(
    state: StateFilter, localIP: Str, remoteIP: Str, localPort: int, remotePort: int,
    search: Str, npmOnly: bool,
    decimal: int -> Str,                    // strconv.Itoa
    found: (LiveConnection, Str) -> bool)   // liveConnectionMatches

  predicate Wanted(f: Filters, c: LiveConnection) {
    && (f.state.In? ==> c.state == f.state.group)
    && (f.localIP != [] ==> c.local.ip == f.localIP)
    && (f.remoteIP != [] ==> c.remote.ip == f.remoteIP)
    && (f.localPort != 0 ==> c.local.port == f.decimal(f.localPort))
    && (f.remotePort != 0 ==> c.remote.port == f.decimal(f.remotePort))
    && (f.search != [] ==> f.found(c, f.search))
    && (f.npmOnly ==> c.streams > 0)
  }

  /** The filters of f switched off. */
  function Cleared(f: Filters): Filters {
    Filters(AllStates, [], [], 0, 0, [], false, f.decimal, f.found)
  }

  /** What each filter asks of a connection when it is the only one. */
  lemma EachFilter(f: Filters, group: StateGroup, v: Str, port: int, c: LiveConnection)
    requires v != [] && port != 0
    ensures Wanted(Cleared(f), c)
    ensures Wanted(Cleared(f).(state := In(group)), c) <==> c.state == group
    ensures Wanted(Cleared(f).(localIP := v), c) <==> c.local.ip == v
    ensures Wanted(Cleared(f).(remoteIP := v), c) <==> c.remote.ip == v
    ensures Wanted(Cleared(f).(localPort := port), c) <==> c.local.port == f.decimal(port)
    ensures Wanted(Cleared(f).(remotePort := port), c) <==> c.remote.port == f.decimal(port)
    ensures Wanted(Cleared(f).(search := v), c) <==> f.found(c, v)
    ensures Wanted(Cleared(f).(npmOnly := true), c) <==> c.streams > 0
  {
  }

  /** Several filters ask for all that each of them asks alone. */
  lemma FiltersCombine(f: Filters, c: LiveConnection)
    ensures Wanted(f, c)
       <==> && Wanted(Cleared(f).(state := f.state), c)
            && Wanted(Cleared(f).(localIP := f.localIP), c)
            && Wanted(Cleared(f).(remoteIP := f.remoteIP), c)
            && Wanted(Cleared(f).(localPort := f.localPort), c)
            && Wanted(Cleared(f).(remotePort := f.remotePort), c)
            && Wanted(Cleared(f).(search := f.search), c)
            && Wanted(Cleared(f).(npmOnly := f.npmOnly), c)
  {
  }

  function WantedBy(f: Filters): LiveConnection -> bool {
    (c: LiveConnection) => Wanted(f, c)
  }

  /** filterLiveConnections. */
  method FilterConnections(connections: seq<LiveConnection>, f: Filters) returns (filtered: seq<LiveConnection>)
    ensures filtered == Select(connections, WantedBy(f))
  {
    filtered := [];
    for i := 0 to |connections|
      invariant filtered == Select(connections[..i], WantedBy(f))
    {
      var c := connections[i];
      assert connections[..i + 1] == connections[..i] + [c];
      SelectAppend(connections[..i], c, WantedBy(f));
      if f.state.In? && c.state != f.state.group {
        continue;
      }
      if f.localIP != [] && c.local.ip != f.localIP {
        continue;
      }
      if f.remoteIP != [] && c.remote.ip != f.remoteIP {
        continue;
      }
      if f.localPort != 0 && c.local.port != f.decimal(f.localPort) {
        continue;
      }
      if f.remotePort != 0 && c.remote.port != f.decimal(f.remotePort) {
        continue;
      }
      if f.search != [] && !f.found(c, f.search) {
        continue;
      }
      if f.npmOnly && c.streams == 0 {
        continue;
      }
      filtered := filtered + [c];
    }
    assert connections[..|connections|] == connections;
  }

  /** The page from an offset, and whether there is more behind it. */
  datatype LivePage<C> = LivePage(page: seq<C>, total: nat, hasMore: bool)

  function PageAt<C>(filtered: seq<C>, offset: nat, limit: nat): LivePage<C> {
    var start := if offset > |filtered| then |filtered| else offset;
    var end := if start + limit > |filtered| then |filtered| else start + limit;
    LivePage(filtered[start..end], |filtered|, end < |filtered|)
  }

  /** Everything read by asking for the next offset while there is more. */
  function ReadAll<C>(filtered: seq<C>, offset: nat, limit: nat): seq<C>
    requires limit >= 1
    decreases if offset < |filtered| then |filtered| - offset else 0
  {
    var p := PageAt(filtered, offset, limit);
    if p.hasMore then p.page + ReadAll(filtered, offset + |p.page|, limit) else p.page
  }

  /** The pages tile the filtered list: nothing is skipped and nothing is repeated. */
  lemma {:induction false} PagesTile<C>(filtered: seq<C>, offset: nat, limit: nat)
    requires limit >= 1 && offset <= |filtered|
    ensures ReadAll(filtered, offset, limit) == filtered[offset..]
    decreases |filtered| - offset
  {
    var p := PageAt(filtered, offset, limit);
    if p.hasMore {
      PagesTile(filtered, offset + limit, limit);
      assert filtered[offset..] == filtered[offset..offset + limit] + filtered[offset + limit..];
    } else {
      assert p.page == filtered[offset..];
    }
  }
}
