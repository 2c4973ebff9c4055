/**
 * What a task of the slave table does from its own point of view, whatever the others do in between:
 * how often a restore dials, when it stops, and that a sweep goes on to visit every entry it copied.
 */
module SlaveRestore {
  import opened Options
  import opened Text
  import opened SlaveRegistry
  import opened SlaveTasks

  /** One action of a task: the world it found, and what its dial, ping or clock answered. */
  datatype Move = Move(world: World, input: Input)

  // ---------- one task in a run ----------

  /** The task after its moves. */
  function TaskAfter(task: Task, moves: seq<Move>): Task
    decreases moves
  {
    if moves == [] then task
    else TaskAfter(Act(moves[0].world, task, moves[0].input).1, moves[1..])
  }

  /** The task as it was before each of its moves. */
  function Trail(task: Task, moves: seq<Move>): seq<Task>
    decreases moves
  {
    if moves == [] then [] else [task] + Trail(Act(moves[0].world, task, moves[0].input).1, moves[1..])
  }

  lemma {:induction false} TrailSplit(task: Task, a: seq<Move>, b: seq<Move>)
    ensures TaskAfter(task, a + b) == TaskAfter(TaskAfter(task, a), b)
    ensures Trail(task, a + b) == Trail(task, a) + Trail(TaskAfter(task, a), b)
    decreases a
  {
    hide Act;
    if a == [] {
      assert a + b == b;
    } else {
      TrailSplit(Act(a[0].world, task, a[0].input).1, a[1..], b);
      assert (a + b)[1..] == a[1..] + b;
    }
  }

  /** The moves that task t makes in a run after its first n events. */
  function MovesSince(run: seq<Event>, n: nat, t: nat): seq<Move> {
    if |run| <= n then []
    else
      var before, last := run[..|run| - 1], run[|run| - 1];
      MovesSince(before, n, t)
      + if last.Advance? && last.t == t then [Move(After(before).world, last.input)] else []
  }

  /** In every run a task is where its own moves bring it, in the worlds that the run gave them. */
  lemma {:induction false} TaskFollows(run: seq<Event>, n: nat, t: nat)
    requires n <= |run| && t < |After(run[..n]).tasks|
    ensures t < |After(run).tasks|
    ensures After(run).tasks[t] == TaskAfter(After(run[..n]).tasks[t], MovesSince(run, n, t))
  {
    hide Act;
    if n == |run| {
      assert run[..n] == run;
    } else {
      var before := run[..|run| - 1];
      assert before[..n] == run[..n];
      TaskFollows(before, n, t);
      var moves, k := MovesSince(run, n, t), |MovesSince(before, n, t)|;
      TrailSplit(After(run[..n]).tasks[t], moves[..k], moves[k..]);
    }
  }

  /** The dials: each registration starts with one. */
  function Dials(trail: seq<Task>): nat {
    if trail == [] then 0 else (if trail[0].Registering? then 1 else 0) + Dials(trail[1..])
  }

  lemma {:induction false} DialsSplit(a: seq<Task>, b: seq<Task>)
    ensures Dials(a + b) == Dials(a) + Dials(b)
  {
    if a == [] {
      assert a + b == b;
    } else {
      DialsSplit(a[1..], b);
      assert (a + b)[1..] == a[1..] + b;
    }
  }

  ghost predicate NoVisit(trail: seq<Task>) {
    forall i :: 0 <= i < |trail| ==> !trail[i].Sweeping?
  }

  // ---------- one registration ----------

  ghost predicate Present(t: seq<Entry>, addr: Str) {
    exists i :: 0 <= i < |t| && t[i].addr == addr
  }

  /** The first row with the address or the name holds a connection, which a registration then closes. */
  ghost predicate DisplacesConnection(t: seq<Entry>, addr: Str, name: Str) {
    exists i :: 0 <= i < |t| && (t[i].addr == addr || t[i].name == name) && t[i].conn.Some?
      && forall j :: 0 <= j < i ==> t[j].addr != addr && t[j].name != name
  }

  /** The moves of a registration that is refused, cannot dial, or whose first ping fails. */
  predicate Failed(addr: Str, name: Str, m: seq<Move>) {
    || (|m| == 1 && (addr == [] || name == [] || !m[0].input.ok))
    || (|m| == 3 && addr != [] && name != [] && m[0].input.ok && !m[1].input.ok)
  }

  /** The moves of a registration that succeeds: dial, ping, stamp, publish, and close what it displaced. */
  ghost predicate Succeeded(addr: Str, name: Str, m: seq<Move>) {
    && addr != [] && name != [] && 4 <= |m| <= 5 && m[0].input.ok && m[1].input.ok
    && (|m| == 5 <==> DisplacesConnection(m[3].world.table, addr, name))
  }

  lemma FindMeans(t: seq<Entry>, addr: Str)
    ensures FindByAddr(t, addr).Some? <==> Present(t, addr)
  {
  }

  lemma ReplacedMeans(t: seq<Entry>, e: Entry)
    ensures (match Replaced(t, e) case Some(x) => x.conn.Some? case None => false)
       <==> DisplacesConnection(t, e.addr, e.name)
  {
    if DisplacesConnection(t, e.addr, e.name) {
      var i: nat :| i < |t| && (t[i].addr == e.addr || t[i].name == e.name) && t[i].conn.Some?
        && forall j :: 0 <= j < i ==> t[j].addr != e.addr && t[j].name != e.name;
      SlotIs(t, e, i);
    }
    var s := SlotOf(t, e);
    assert forall j :: 0 <= j < s ==> !Clashes(t[j], e);
  }

  /** Any five moves begin with the moves of one registration that ended. */
  lemma EveryAttemptEnds(addr: Str, name: Str, m: seq<Move>) returns (n: nat)
    requires |m| >= 5
    ensures 1 <= n <= 5 && (Failed(addr, name, m[..n]) || Succeeded(addr, name, m[..n]))
  {
    if addr == [] || name == [] || !m[0].input.ok {
      return 1;
    }
    if !m[1].input.ok {
      return 3;
    }
    return if DisplacesConnection(m[3].world.table, addr, name) then 5 else 4;
  }

  /** The tasks of a trail, given one by one. */
  lemma {:induction false} TrailIs(tasks: seq<Task>, m: seq<Move>)
    requires |tasks| == |m| + 1
    requires forall i :: 0 <= i < |m| ==> Act(m[i].world, tasks[i], m[i].input).1 == tasks[i + 1]
    ensures TaskAfter(tasks[0], m) == tasks[|m|] && Trail(tasks[0], m) == tasks[..|m|]
  {
    hide Act;
    if m != [] {
      assert forall i :: 0 <= i < |m[1..]| ==> m[1..][i] == m[i + 1];
      TrailIs(tasks[1..], m[1..]);
      assert tasks[..|m|] == [tasks[0]] + tasks[1..][..|m| - 1];
    }
  }

  /** A trail of one registration: one dial, and no visit of another slave. */
  lemma OneDial(trail: seq<Task>)
    requires trail != [] && trail[0].Registering?
    requires forall i :: 1 <= i < |trail| ==> !trail[i].Registering? && !trail[i].Sweeping?
    ensures Dials(trail) == 1 && NoVisit(trail)
  {
    NoDial(trail[1..]);
  }

  lemma {:induction false} NoDial(trail: seq<Task>)
    requires forall i :: 0 <= i < |trail| ==> !trail[i].Registering?
    ensures Dials(trail) == 0
  {
    if trail != [] {
      NoDial(trail[1..]);
    }
  }

  lemma {:induction false} FailureReturns(addr: Str, name: Str, k: Caller, m: seq<Move>)
    requires Failed(addr, name, m)
    ensures TaskAfter(Registering(addr, name, k), m) == Return(addr, name, k, false)
    ensures Dials(Trail(Registering(addr, name, k), m)) == 1 && NoVisit(Trail(Registering(addr, name, k), m))
  {
    hide TaskAfter, Trail, Dials, NoVisit, Return;
    var h := |m[0].world.closes|;
    var t0, t1, t2 := Registering(addr, name, k), Probing(h, addr, name, k), Discarding(h, addr, name, k);
    var tasks := if |m| == 1 then [t0, Return(addr, name, k, false)] else [t0, t1, t2, Return(addr, name, k, false)];
    TrailIs(tasks, m);
    OneDial(tasks[..|m|]);
  }

  /** A successful registration publishes the handle it dialled under its address and its name. */
  lemma {:induction false} SuccessReturns(addr: Str, name: Str, k: Caller, m: seq<Move>)
    requires Succeeded(addr, name, m)
    ensures TaskAfter(Registering(addr, name, k), m) == Return(addr, name, k, true)
    ensures Dials(Trail(Registering(addr, name, k), m)) == 1 && NoVisit(Trail(Registering(addr, name, k), m))
    ensures var e := Entry(addr, name, Some(|m[0].world.closes|), m[2].input.now, m[2].input.stamp);
      TaskAfter(Registering(addr, name, k), m[..3]) == Publishing(|m[0].world.closes|, e, k)
  {
    hide TaskAfter, Trail, Dials, NoVisit, Return, Registered, Replaced, DisplacesConnection;
    var h := |m[0].world.closes|;
    var e := Entry(addr, name, Some(h), m[2].input.now, m[2].input.stamp);
    var first := [Registering(addr, name, k), Probing(h, addr, name, k), Stamping(h, addr, name, k)];
    var t3 := Publishing(h, e, k);
    ReplacedMeans(m[3].world.table, e);
    var t4 := Act(m[3].world, t3, m[3].input).1;
    var tasks := first + [t3, t4] + if |m| == 5 then [Return(addr, name, k, true)] else [];
    TrailIs(first + [t3], m[..3]);
    TrailIs(tasks, m);
    OneDial(tasks[..|m|]);
  }

  /** The step that publishes puts the entry into the table. */
  lemma PublishedIsListed(w: World, h: nat, e: Entry, k: Caller, x: Input)
    ensures e in Act(w, Publishing(h, e, k), x).0.table
  {
    var i := SlotOf(w.table, e);
    assert Registered(w.table, e)[i] == e;
  }

  // ---------- the restore ----------

  /** One round of a restore: a look at the table, then a registration. */
  datatype Round = Round(look: Move, attempt: seq<Move>)

  function Played(rounds: seq<Round>): seq<Move> {
    if rounds == [] then []
    else Played(rounds[..|rounds| - 1]) + [rounds[|rounds| - 1].look] + rounds[|rounds| - 1].attempt
  }

  /** The look does not find the address, and the registration fails. */
  ghost predicate Fruitless(r: Round, addr: Str, name: Str) {
    !Present(r.look.world.table, addr) && Failed(addr, name, r.attempt)
  }

  ghost predicate AllFruitless(rounds: seq<Round>, addr: Str, name: Str) {
    forall i :: 0 <= i < |rounds| ==> Fruitless(rounds[i], addr, name)
  }

  /** How a restore ends: three fruitless rounds, a look that finds the address, or a success. */
  ghost predicate Ends(addr: Str, name: Str, rounds: seq<Round>, tail: seq<Move>) {
    && AllFruitless(rounds, addr, name)
    && (|| (|rounds| == 3 && tail == [])
        || (|rounds| < 3 && |tail| == 1 && Present(tail[0].world.table, addr))
        || (|rounds| < 3 && |tail| > 1 && !Present(tail[0].world.table, addr) && Succeeded(addr, name, tail[1..])))
  }

  /** Before the look of the next round. */
  function Waiting(addr: Str, name: Str, rest: seq<Entry>, failures: nat): Task {
    if failures == 0 then Restoring(addr, name, rest) else Retrying(failures - 1, addr, name, rest)
  }

  lemma LookMeans(w: World, x: Input, addr: Str, name: Str, rest: seq<Entry>, failures: nat)
    ensures Act(w, Waiting(addr, name, rest, failures), x).1
         == if Present(w.table, addr) then Sweeping(rest) else Registering(addr, name, FromRestore(failures, rest))
  {
    FindMeans(w.table, addr);
  }

  /** A look that does not find the address, and then a registration. */
  lemma OneRound(addr: Str, name: Str, rest: seq<Entry>, failures: nat, look: Move, m: seq<Move>)
    requires !Present(look.world.table, addr) && (Failed(addr, name, m) || Succeeded(addr, name, m))
    ensures var t0 := Waiting(addr, name, rest, failures);
      && TaskAfter(t0, [look] + m) == Return(addr, name, FromRestore(failures, rest), Succeeded(addr, name, m))
      && Dials(Trail(t0, [look] + m)) == 1 && NoVisit(Trail(t0, [look] + m))
  {
    hide Act, Return, Present, Succeeded;
    var t0, t1 := Waiting(addr, name, rest, failures), Registering(addr, name, FromRestore(failures, rest));
    LookMeans(look.world, look.input, addr, name, rest, failures);
    assert ([look] + m)[1..] == m;
    assert Trail(t0, [look] + m) == [t0] + Trail(t1, m);
    assert Dials([t0] + Trail(t1, m)) == Dials(Trail(t1, m));
    if Succeeded(addr, name, m) {
      SuccessReturns(addr, name, FromRestore(failures, rest), m);
      EitherEnd(addr, name, m);
    } else {
      FailureReturns(addr, name, FromRestore(failures, rest), m);
    }
  }

  lemma EitherEnd(addr: Str, name: Str, m: seq<Move>)
    requires Succeeded(addr, name, m)
    ensures !Failed(addr, name, m)
  {
  }

  lemma Continues(t0: Task, a: seq<Move>, b: seq<Move>)
    ensures TaskAfter(t0, a + b) == TaskAfter(TaskAfter(t0, a), b)
    ensures Dials(Trail(t0, a + b)) == Dials(Trail(t0, a)) + Dials(Trail(TaskAfter(t0, a), b))
    ensures NoVisit(Trail(t0, a)) && NoVisit(Trail(TaskAfter(t0, a), b)) ==> NoVisit(Trail(t0, a + b))
  {
    TrailSplit(t0, a, b);
    DialsSplit(Trail(t0, a), Trail(TaskAfter(t0, a), b));
  }

  lemma NoMoves(t0: Task)
    ensures TaskAfter(t0, []) == t0 && Dials(Trail(t0, [])) == 0 && NoVisit(Trail(t0, []))
  {
  }

  /** Every fruitless round dials once; after the third the restore gives up. */
  lemma {:induction false} RoundsDial(addr: Str, name: Str, rest: seq<Entry>, rounds: seq<Round>)
    requires |rounds| <= 3 && AllFruitless(rounds, addr, name)
    ensures var t0 := Restoring(addr, name, rest);
      && TaskAfter(t0, Played(rounds))
         == (if |rounds| == 3 then Sweeping(rest) else Waiting(addr, name, rest, |rounds|))
      && Dials(Trail(t0, Played(rounds))) == |rounds| && NoVisit(Trail(t0, Played(rounds)))
  {
    hide TaskAfter, Trail, Dials, NoVisit, Act, Present, Failed, Succeeded;
    var t0 := Restoring(addr, name, rest);
    if rounds == [] {
      NoMoves(t0);
    } else {
      var before, last := rounds[..|rounds| - 1], rounds[|rounds| - 1];
      assert forall i :: 0 <= i < |before| ==> before[i] == rounds[i];
      RoundsDial(addr, name, rest, before);
      assert Fruitless(last, addr, name);
      FailureIsNoSuccess(addr, name, last.attempt);
      OneRound(addr, name, rest, |before|, last.look, last.attempt);
      Continues(t0, Played(before), [last.look] + last.attempt);
      assert Played(rounds) == Played(before) + ([last.look] + last.attempt);
    }
  }

  /**
   * A restore dials once for each fruitless round, and once more for the round that succeeds; it goes
   * on to the rest of its sweep when it ends, and not before.
   */
  lemma RestoreDials(addr: Str, name: Str, rest: seq<Entry>, rounds: seq<Round>, tail: seq<Move>)
    requires Ends(addr, name, rounds, tail)
    ensures var t0 := Restoring(addr, name, rest);
      && TaskAfter(t0, Played(rounds) + tail) == Sweeping(rest)
      && Dials(Trail(t0, Played(rounds) + tail)) == |rounds| + (if |tail| > 1 then 1 else 0)
      && NoVisit(Trail(t0, Played(rounds) + tail))
  {
    hide TaskAfter, Trail, Dials, NoVisit, Act, Present, Failed, Succeeded;
    var t0, t1 := Restoring(addr, name, rest), Waiting(addr, name, rest, |rounds|);
    RoundsDial(addr, name, rest, rounds);
    Continues(t0, Played(rounds), tail);
    if tail == [] {
      assert Played(rounds) + tail == Played(rounds);
    } else if |tail| == 1 {
      FoundAgain(addr, name, rest, |rounds|, tail);
    } else {
      assert tail == [tail[0]] + tail[1..];
      OneRound(addr, name, rest, |rounds|, tail[0], tail[1..]);
    }
  }

  lemma {:induction false} FoundAgain(addr: Str, name: Str, rest: seq<Entry>, failures: nat, tail: seq<Move>)
    requires |tail| == 1 && Present(tail[0].world.table, addr)
    ensures var t0 := Waiting(addr, name, rest, failures);
      && TaskAfter(t0, tail) == Sweeping(rest) && Dials(Trail(t0, tail)) == 0 && NoVisit(Trail(t0, tail))
  {
    LookMeans(tail[0].world, tail[0].input, addr, name, rest, failures);
    var t0 := Waiting(addr, name, rest, failures);
    TrailIs([t0, Sweeping(rest)], tail);
    assert Trail(t0, tail) == [t0];
  }

  lemma FailureIsNoSuccess(addr: Str, name: Str, m: seq<Move>)
    requires Failed(addr, name, m)
    ensures !Succeeded(addr, name, m)
  {
  }

  lemma PlayedMore(rounds: seq<Round>, r: Round)
    ensures Played(rounds + [r]) == Played(rounds) + ([r.look] + r.attempt)
  {
    assert (rounds + [r])[..|rounds|] == rounds;
  }

  /** Any six moves begin with a look that finds the address, or with a whole round. */
  lemma EveryRoundEnds(addr: Str, name: Str, m: seq<Move>) returns (n: nat)
    requires |m| >= 6
    ensures 1 <= n <= 6 && (Present(m[0].world.table, addr) <==> n == 1)
    ensures n > 1 ==> Failed(addr, name, m[1..n]) || Succeeded(addr, name, m[1..n])
  {
    hide Present, Failed, Succeeded;
    if Present(m[0].world.table, addr) {
      return 1;
    }
    n := EveryAttemptEnds(addr, name, m[1..]);
    assert m[1..][..n] == m[1..n + 1];
    n := n + 1;
  }

  /** Whatever happens around it, a restore ends in one of these ways within eighteen moves. */
  lemma EveryRestoreEnds(addr: Str, name: Str, moves: seq<Move>) returns (rounds: seq<Round>, tail: seq<Move>)
    requires |moves| >= 18
    ensures Ends(addr, name, rounds, tail) && Played(rounds) + tail <= moves
  {
    hide Present, Failed, Succeeded, Played;
    rounds, tail := [], [];
    NothingPlayed();
    while |rounds| < 3
      invariant |rounds| <= 3 && AllFruitless(rounds, addr, name)
      invariant |Played(rounds)| <= 6 * |rounds| && Played(rounds) <= moves
    {
      var m := moves[|Played(rounds)|..];
      assert moves == Played(rounds) + m;
      var n := EveryRoundEnds(addr, name, m);
      assert Played(rounds) + m[..n] <= moves;
      if n == 1 || Succeeded(addr, name, m[1..n]) {
        tail := m[..n];
        assert n > 1 ==> tail[1..] == m[1..n];
        return;
      }
      PlayedMore(rounds, Round(m[0], m[1..n]));
      assert m[..n] == [m[0]] + m[1..n];
      rounds := rounds + [Round(m[0], m[1..n])];
    }
  }

  lemma NothingPlayed()
    ensures Played([]) == []
  {
  }

  /** In every run: a restore whose moves ended it has reached the rest of its sweep. */
  lemma RestoreInRun(run: seq<Event>, n: nat, t: nat, addr: Str, name: Str, rest: seq<Entry>, rounds: seq<Round>,
                     tail: seq<Move>)
    requires n <= |run| && t < |After(run[..n]).tasks| && After(run[..n]).tasks[t] == Restoring(addr, name, rest)
    requires Ends(addr, name, rounds, tail) && MovesSince(run, n, t) == Played(rounds) + tail
    ensures t < |After(run).tasks| && After(run).tasks[t] == Sweeping(rest)
  {
    TaskFollows(run, n, t);
    RestoreDials(addr, name, rest, rounds, tail);
  }

  /** A registration by request ends the request if it fails and goes on to a sweep of the table if it succeeds. */
  lemma RequestMeans(addr: Str, name: Str, m: seq<Move>, w: World, x: Input)
    requires Failed(addr, name, m) || Succeeded(addr, name, m)
    ensures var task := TaskAfter(Registering(addr, name, FromRequest), m);
      if Failed(addr, name, m) then task == Finished else Act(w, task, x) == (w, Sweeping(w.table))
  {
    hide TaskAfter;
    if Failed(addr, name, m) {
      FailureReturns(addr, name, FromRequest, m);
    } else {
      SuccessReturns(addr, name, FromRequest, m);
    }
  }

  // ---------- one visit ----------

  /** All pings but the last failed. */
  predicate LastDecides(pings: seq<Move>) {
    1 <= |pings| <= 4 && forall i :: 0 <= i < |pings| - 1 ==> !pings[i].input.ok
  }

  /** A sweep pings a live handle once, and its check three times more; the first answer marks the slave. */
  lemma VisitPings(c: Entry, rest: seq<Entry>, pings: seq<Move>)
    requires c.conn.Some? && LastDecides(pings)
    ensures pings[|pings| - 1].input.ok ==> TaskAfter(Sweeping([c] + rest), pings) == Marking(c, rest)
    ensures !pings[|pings| - 1].input.ok && |pings| == 4 ==> TaskAfter(Sweeping([c] + rest), pings) == Removing(c, rest)
  {
    hide TaskAfter;
    assert ([c] + rest)[1..] == rest;
    var on := [Sweeping([c] + rest), Checking(c, 0, rest), Checking(c, 1, rest), Checking(c, 2, rest)];
    var end := if pings[|pings| - 1].input.ok then Marking(c, rest) else Removing(c, rest);
    if pings[|pings| - 1].input.ok || |pings| == 4 {
      TrailIs(on[..|pings|] + [end], pings);
    }
  }

  /** Without a handle the row is removed unpinged. */
  lemma VisitWithoutHandle(c: Entry, rest: seq<Entry>, m: seq<Move>)
    requires c.conn.None? && |m| == 2
    ensures TaskAfter(Sweeping([c] + rest), m) == Removing(c, rest)
  {
    assert ([c] + rest)[1..] == rest;
    TrailIs([Sweeping([c] + rest), Checking(c, 0, rest), Removing(c, rest)], m);
  }

  /** The check finds a row to remove: its address, and any stamp or its stamp. */
  ghost predicate Removable(t: seq<Entry>, c: Entry) {
    exists i :: 0 <= i < |t| && t[i].addr == c.addr && (c.entryTime == 0 || t[i].entryTime == c.entryTime)
  }

  /**
   * After a removal the restore follows, behind the close if the row held a handle; where no row was
   * removed the world stays as it is and the sweep goes on.
   */
  lemma RemovalMeans(w: World, c: Entry, rest: seq<Entry>, x: Input)
    ensures var (w', task) := Act(w, Removing(c, rest), x);
      if Removable(w.table, c) then
        |w'.table| == |w.table| - 1 && (task == Restoring(c.addr, c.name, rest) || task.ClosingRemoved?)
      else w' == w && task == Sweeping(rest)
    ensures var task := Act(w, Removing(c, rest), x).1;
      task.ClosingRemoved? ==> forall v: World, y: Input :: task.h < |v.closes| ==>
        Act(v, task, y) == (v.(closes := v.closes[task.h := v.closes[task.h] + 1]), Restoring(c.addr, c.name, rest))
  {
    var i := RemovalIndex(w.table, c.addr, c.entryTime);
    assert i < |w.table| ==> Expected(w.table[i], c.addr, c.entryTime);
    if Removable(w.table, c) {
      var j :| 0 <= j < |w.table| && Expected(w.table[j], c.addr, c.entryTime);
    }
  }

  // ---------- the whole sweep ----------

  /** The task is inside a sweep: visiting, checking, restoring, or done with it. */
  predicate InSweep(task: Task) {
    match task
    case Listing => false
    case Registering(_, _, k) => k.FromRestore?
    case Probing(_, _, _, k) => k.FromRestore?
    case Discarding(_, _, _, k) => k.FromRestore?
    case Stamping(_, _, _, k) => k.FromRestore?
    case Publishing(_, _, k) => k.FromRestore?
    case ClosingReplaced(_, _, _, k) => k.FromRestore?
    case _ => true
  }

  /** What a sweep still has to visit. */
  function Left(task: Task): seq<Entry>
    requires InSweep(task)
  {
    match task
    case Finished => []
    case Registering(_, _, k) => k.rest
    case Probing(_, _, _, k) => k.rest
    case Discarding(_, _, _, k) => k.rest
    case Stamping(_, _, _, k) => k.rest
    case Publishing(_, _, k) => k.rest
    case ClosingReplaced(_, _, _, k) => k.rest
    case _ => task.rest
  }

  /** The entries a sweep turned to, in order. */
  function Visited(trail: seq<Task>): seq<Entry> {
    if trail == [] then []
    else (if trail[0].Sweeping? && trail[0].rest != [] then [trail[0].rest[0]] else []) + Visited(trail[1..])
  }

  lemma SweepStep(w: World, task: Task, x: Input)
    requires InSweep(task)
    ensures var task' := Act(w, task, x).1;
      InSweep(task') && Left(task) == Visited([task]) + Left(task')
  {
    hide FindByAddr, Registered, Replaced, Without, Removed, Marked;
  }

  /** At any moment, the entries visited and those left to visit are the entries of the sweep, in order. */
  lemma {:induction false} SweepKeeps(task: Task, m: seq<Move>)
    requires InSweep(task)
    ensures InSweep(TaskAfter(task, m)) && Left(task) == Visited(Trail(task, m)) + Left(TaskAfter(task, m))
    decreases m
  {
    hide Act, Left;
    if m != [] {
      SweepStep(m[0].world, task, m[0].input);
      SweepKeeps(Act(m[0].world, task, m[0].input).1, m[1..]);
    }
  }

  /**
   * In every run, whatever fails and whoever interferes: a sweep that starts at some moment and has
   * finished turned to every row that was in the table at that moment, each once, in table order.
   */
  lemma SweepVisitsAll(run: seq<Event>, n: nat, t: nat)
    requires n <= |run| && t < |After(run[..n]).tasks| && After(run[..n]).tasks[t] == Listing
    requires MovesSince(run, n, t) != []
    ensures t < |After(run).tasks|
    ensures After(run).tasks[t] == Finished ==>
      Visited(Trail(Listing, MovesSince(run, n, t))) == MovesSince(run, n, t)[0].world.table
  {
    hide After, MovesSince, Act;
    TaskFollows(run, n, t);
    var m := MovesSince(run, n, t);
    ListingMeans(m[0]);
    SweepKeeps(Sweeping(m[0].world.table), m[1..]);
  }

  lemma ListingMeans(m: Move)
    ensures Act(m.world, Listing, m.input) == (m.world, Sweeping(m.world.table))
  {
  }

  // ---------- a slave that comes back ----------

  /** Removal and close, the look, and a registration whose dial and ping answer. */
  const COMEBACK: seq<Event> := [
    Advance(1, LOST), Advance(1, LOST), Advance(1, LOST),
    Advance(1, PROBE), Advance(1, PROBE), Advance(1, PROBE), Advance(1, PROBE)]

  /** The check takes the row out, and the close follows. */
  lemma RemovedAndClosed(addr: Str, name: Str)
    requires addr != [] && name != []
    ensures var e := Entry(addr, name, Some(0), 5, 7);
      After(Register(0, addr, name) + CHECK + COMEBACK[..2])
      == State(World([], [1], [e]), [Listing, Restoring(addr, name, [])])
  {
    hide After, Without, Removed;
    var e := Entry(addr, name, Some(0), 5, 7);
    var run := Register(0, addr, name) + CHECK;
    CheckHeldUp(addr, name);
    FirstSlot(e, e);
    AfterOne(run, Advance(1, LOST));
    AfterOne(run + [Advance(1, LOST)], Advance(1, LOST));
    assert run + COMEBACK[..2] == run + [Advance(1, LOST)] + [Advance(1, LOST)];
  }

  /** A restore that finds the table empty and dials. */
  lemma ComesBack(run: seq<Event>, addr: Str, name: Str, e: Entry)
    requires addr != [] && name != []
    requires After(run) == State(World([], [1], [e]), [Listing, Restoring(addr, name, [])])
    ensures var e1 := Entry(addr, name, Some(1), 5, 7);
      After(run + COMEBACK[2..]) == State(World([e1], [1, 0], [e, e1]), [Listing, Sweeping([])])
  {
    hide After, Registered, Replaced, FindByAddr;
    NoSlot(Entry(addr, name, Some(1), 5, 7));
    FindMeans([], addr);
    AfterOne(run, Advance(1, LOST));
    AfterFour(run + [Advance(1, LOST)], Advance(1, PROBE), Advance(1, PROBE), Advance(1, PROBE), Advance(1, PROBE));
    assert run + COMEBACK[2..] == run + [Advance(1, LOST)]
      + [Advance(1, PROBE), Advance(1, PROBE), Advance(1, PROBE), Advance(1, PROBE)];
  }

  /**
   * From the empty state: a slave registers, three pings fail, its row goes and its handle 0 is closed;
   * the restore dials once and the address is in the table again, with handle 1.
   */
  lemma RemovedSlaveComesBack(addr: Str, name: Str)
    requires addr != [] && name != []
    ensures var run := Register(0, addr, name) + CHECK;
      && After(run + COMEBACK[..2]).world.table == []
      && After(run + COMEBACK).world.table == [Entry(addr, name, Some(1), 5, 7)]
      && After(run + COMEBACK).world.closes == [1, 0]
      && After(run + COMEBACK).tasks == [Listing, Sweeping([])]
  {
    hide After, Register;
    var run := Register(0, addr, name) + CHECK;
    RemovedAndClosed(addr, name);
    ComesBack(run + COMEBACK[..2], addr, name, Entry(addr, name, Some(0), 5, 7));
    assert run + COMEBACK == run + COMEBACK[..2] + COMEBACK[2..];
  }
}
