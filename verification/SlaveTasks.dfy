/**
 * The concurrent tasks around the slave table: registration, the ping sweep, check-and-remove
 * and restore. Every step between two lock acquisitions, dials, pings or closes is one atomic
 * action, and a run is any interleaving of such actions.
 */
module SlaveTasks {
  import opened Options
  import opened Text
  import opened SlaveRegistry

  /** Where a registration returns to. */
  datatype Caller =
    | FromRequest                                        // SetConnection: on success, sweep
    | FromRestore(attempt: nat, rest: seq<Entry>)        // the restore loop, then the rest of the sweep

  /** A task's program counter with its local variables; rest is what a sweep still has to visit. */
  datatype Task =
    | Finished
    | Registering(addr: Str, name: Str, caller: Caller)
    | Probing(h: nat, addr: Str, name: Str, caller: Caller)
    | Discarding(h: nat, addr: Str, name: Str, caller: Caller)
    | Stamping(h: nat, addr: Str, name: Str, caller: Caller)
    | Publishing(h: nat, entry: Entry, caller: Caller)
    | ClosingReplaced(h: nat, addr: Str, name: Str, caller: Caller)
    | Listing
    | Sweeping(rest: seq<Entry>)
    | Checking(c: Entry, attempt: nat, rest: seq<Entry>)
    | Marking(c: Entry, rest: seq<Entry>)
    | Removing(c: Entry, rest: seq<Entry>)
    | ClosingRemoved(h: nat, c: Entry, rest: seq<Entry>)
    | Restoring(addr: Str, name: Str, rest: seq<Entry>)
    | Retrying(attempt: nat, addr: Str, name: Str, rest: seq<Entry>)

  /** Outcome of a dial or ping, and what time.Now returns for LastSeen and EntryTime. */
  datatype Input = Input(ok: bool, now: int, stamp: int)

  /** closes[h] counts the Close calls on handle h; minted lists every entry ever built, in order. */
  datatype World = World(table: seq<Entry>, closes: seq<nat>, minted: seq<Entry>)

  datatype State = State(world: World, tasks: seq<Task>)

  datatype Event =
    | Connect(addr: Str, name: Str)     // a slave announces itself
    | Sweep                             // the periodic ping loop starts a sweep
    | Suspect(i: nat)                   // some reader found a held entry unhealthy
    | Advance(t: nat, input: Input)     // task t performs its next action

  // ---------- actions ----------

  function Return(addr: Str, name: Str, caller: Caller, ok: bool): Task {
    match caller
    case FromRequest => if ok then Listing else Finished
    case FromRestore(attempt, rest) =>
      if !ok && attempt < 2 then Retrying(attempt, addr, name, rest) else Sweeping(rest)
  }

  function Close(w: World, h: nat): World {
    if h < |w.closes| then w.(closes := w.closes[h := w.closes[h] + 1]) else w
  }

  /** One atomic action of a task. */
  function Act(w: World, task: Task, x: Input): (World, Task) {
    match task
    case Finished => (w, Finished)
    case Registering(addr, name, k) =>
      if addr == [] || name == [] || !x.ok then (w, Return(addr, name, k, false))
      else (w.(closes := w.closes + [0]), Probing(|w.closes|, addr, name, k))
    case Probing(h, addr, name, k) =>
      (w, if x.ok then Stamping(h, addr, name, k) else Discarding(h, addr, name, k))
    case Discarding(h, addr, name, k) =>
      (Close(w, h), Return(addr, name, k, false))
    case Stamping(h, addr, name, k) =>
      var e := Entry(addr, name, Some(h), x.now, x.stamp);
      (w.(minted := w.minted + [e]), Publishing(h, e, k))
    case Publishing(h, e, k) =>
      var w' := w.(table := Registered(w.table, e));
      (match Replaced(w.table, e)
       case Some(Entry(_, _, Some(loser), _, _)) => (w', ClosingReplaced(loser, e.addr, e.name, k))
       case _ => (w', Return(e.addr, e.name, k, true)))
    case ClosingReplaced(h, addr, name, k) =>
      (Close(w, h), Return(addr, name, k, true))
    case Listing => (w, Sweeping(w.table))
    case Sweeping(rest) =>
      if rest == [] then (w, Finished)
      else if rest[0].conn.Some? && x.ok then (w, Marking(rest[0], rest[1..]))
      else (w, Checking(rest[0], 0, rest[1..]))
    case Checking(c, attempt, rest) =>
      if c.conn.None? then (w, Removing(c, rest))
      else if x.ok then (w, Marking(c, rest))
      else if attempt < 2 then (w, Checking(c, attempt + 1, rest))
      else (w, Removing(c, rest))
    case Marking(c, rest) =>
      (w.(table := Marked(w.table, c.addr, x.now)), Sweeping(rest))
    case Removing(c, rest) =>
      var w' := w.(table := Without(w.table, c.addr, c.entryTime));
      (match Removed(w.table, c.addr, c.entryTime)
       case Some(Entry(_, _, Some(h), _, _)) => (w', ClosingRemoved(h, c, rest))
       case Some(_) => (w', Restoring(c.addr, c.name, rest))
       case None => (w', Sweeping(rest)))
    case ClosingRemoved(h, c, rest) =>
      (Close(w, h), Restoring(c.addr, c.name, rest))
    case Restoring(addr, name, rest) =>
      (w, if FindByAddr(w.table, addr).Some? then Sweeping(rest)
          else Registering(addr, name, FromRestore(0, rest)))
    case Retrying(attempt, addr, name, rest) =>
      (w, if FindByAddr(w.table, addr).Some? then Sweeping(rest)
          else Registering(addr, name, FromRestore(attempt + 1, rest)))
  }

  function Apply(s: State, ev: Event): State {
    match ev
    case Connect(addr, name) => s.(tasks := s.tasks + [Registering(addr, name, FromRequest)])
    case Sweep => s.(tasks := s.tasks + [Listing])
    case Suspect(i) =>
      if i < |s.world.minted| then s.(tasks := s.tasks + [Checking(s.world.minted[i], 0, [])]) else s
    case Advance(t, x) =>
      if t < |s.tasks| then
        var (w, task) := Act(s.world, s.tasks[t], x);
        State(w, s.tasks[t := task])
      else s
  }

  /** The state after a run; an event that names no task or entry does nothing. */
  function After(run: seq<Event>): State {
    if run == [] then State(World([], [], []), [])
    else Apply(After(run[..|run| - 1]), run[|run| - 1])
  }

  // ---------- every handle has exactly one holder ----------

  /** The handle a task must still publish or close. */
  function Owned(task: Task): Option<nat> {
    match task
    case Probing(h, _, _, _) => Some(h)
    case Discarding(h, _, _, _) => Some(h)
    case Stamping(h, _, _, _) => Some(h)
    case Publishing(h, _, _) => Some(h)
    case ClosingReplaced(h, _, _, _) => Some(h)
    case ClosingRemoved(h, _, _) => Some(h)
    case _ => None
  }

  function Bit(b: bool): nat { if b then 1 else 0 }

  function Owners(tasks: seq<Task>, h: nat): nat {
    if tasks == [] then 0 else Bit(Owned(tasks[0]) == Some(h)) + Owners(tasks[1..], h)
  }

  function Rows(table: seq<Entry>, h: nat): nat {
    if table == [] then 0 else Bit(table[0].conn == Some(h)) + Rows(table[1..], h)
  }

  function Closes(w: World, h: nat): nat {
    if h < |w.closes| then w.closes[h] else 0
  }

  /** Tasks holding h, rows holding h and Close calls on h, together. */
  function Holders(s: State, h: nat): nat {
    Owners(s.tasks, h) + Rows(s.world.table, h) + Closes(s.world, h)
  }

  /** The handles dialled so far are 0, 1, ..., |closes| - 1. */
  predicate Opened(s: State, h: nat) {
    h < |s.world.closes|
  }

  lemma {:induction false} OwnersSplit(a: seq<Task>, b: seq<Task>, h: nat)
    ensures Owners(a + b, h) == Owners(a, h) + Owners(b, h)
  {
    if a == [] {
      assert a + b == b;
    } else {
      OwnersSplit(a[1..], b, h);
      assert (a + b)[1..] == a[1..] + b;
    }
  }

  lemma OwnersUpdate(ts: seq<Task>, t: nat, task: Task, h: nat)
    requires t < |ts|
    ensures Owners(ts[t := task], h) + Bit(Owned(ts[t]) == Some(h)) == Owners(ts, h) + Bit(Owned(task) == Some(h))
  {
    assert ts == ts[..t] + ([ts[t]] + ts[t + 1..]);
    assert ts[t := task] == ts[..t] + ([task] + ts[t + 1..]);
    OwnersSplit(ts[..t], [ts[t]] + ts[t + 1..], h);
    OwnersSplit(ts[..t], [task] + ts[t + 1..], h);
  }

  lemma {:induction false} RowsSplit(a: seq<Entry>, b: seq<Entry>, h: nat)
    ensures Rows(a + b, h) == Rows(a, h) + Rows(b, h)
  {
    if a == [] {
      assert a + b == b;
    } else {
      RowsSplit(a[1..], b, h);
      assert (a + b)[1..] == a[1..] + b;
    }
  }

  lemma RowsAround(t: seq<Entry>, i: nat, h: nat)
    requires i < |t|
    ensures Rows(t, h) == Rows(t[..i], h) + Bit(t[i].conn == Some(h)) + Rows(t[i + 1..], h)
  {
    assert t == t[..i] + ([t[i]] + t[i + 1..]);
    RowsSplit(t[..i], [t[i]] + t[i + 1..], h);
  }

  lemma RowsReplace(t: seq<Entry>, i: nat, e: Entry, h: nat)
    requires i < |t|
    ensures Rows(t[i := e], h) + Bit(t[i].conn == Some(h)) == Rows(t, h) + Bit(e.conn == Some(h))
  {
    RowsAround(t, i, h);
    RowsAround(t[i := e], i, h);
    assert t[i := e][..i] == t[..i] && t[i := e][i + 1..] == t[i + 1..];
  }

  lemma RowsRegistered(t: seq<Entry>, e: Entry, h: nat)
    ensures Rows(Registered(t, e), h) + (match Replaced(t, e) case Some(x) => Bit(x.conn == Some(h)) case None => 0)
         == Rows(t, h) + Bit(e.conn == Some(h))
  {
    var i := SlotOf(t, e);
    if i < |t| {
      RowsReplace(t, i, e, h);
    } else {
      RowsSplit(t, [e], h);
    }
  }

  lemma RowsWithout(t: seq<Entry>, addr: Str, stamp: int, h: nat)
    ensures Rows(Without(t, addr, stamp), h)
         + (match Removed(t, addr, stamp) case Some(x) => Bit(x.conn == Some(h)) case None => 0)
         == Rows(t, h)
  {
    var i := RemovalIndex(t, addr, stamp);
    if i < |t| {
      RowsAround(t, i, h);
      RowsSplit(t[..i], t[i + 1..], h);
    }
  }

  lemma RowsMarked(t: seq<Entry>, addr: Str, now: int, h: nat)
    ensures Rows(Marked(t, addr, now), h) == Rows(t, h)
  {
    var i := FirstIndex(t, (x: Entry) => x.addr == addr);
    if i < |t| {
      RowsReplace(t, i, t[i].(lastSeen := now), h);
    }
  }

  /** The entry a Publishing task carries holds the handle that task owns. */
  predicate CarriesOwn(task: Task) {
    task.Publishing? ==> task.entry.conn == Some(task.h)
  }

  predicate OwnsOpened(w: World, task: Task) {
    Owned(task).Some? ==> Owned(task).value < |w.closes|
  }

  /** What an action leaves of handle h in its task, the table and the close counts. */
  function Share(w: World, task: Task, h: nat): nat {
    Bit(Owned(task) == Some(h)) + Rows(w.table, h) + Closes(w, h)
  }

  predicate TouchesTable(task: Task) {
    task.Publishing? || task.Marking? || task.Removing?
  }

  lemma ActConservesQuietly(w: World, task: Task, x: Input, h: nat)
    requires CarriesOwn(task) && OwnsOpened(w, task) && !TouchesTable(task)
    ensures var (w', task') := Act(w, task, x);
      Share(w', task', h) == Share(w, task, h) + Bit(|w.closes| <= h < |w'.closes|)
  {
  }

  lemma PublishConserves(w: World, task: Task, x: Input, h: nat)
    requires CarriesOwn(task) && task.Publishing?
    ensures var (w', task') := Act(w, task, x);
      w'.closes == w.closes && Share(w', task', h) == Share(w, task, h)
  {
    RowsRegistered(w.table, task.entry, h);
  }

  lemma RemoveConserves(w: World, task: Task, x: Input, h: nat)
    requires task.Removing?
    ensures var (w', task') := Act(w, task, x);
      w'.closes == w.closes && Share(w', task', h) == Share(w, task, h)
  {
    RowsWithout(w.table, task.c.addr, task.c.entryTime, h);
  }

  lemma MarkConserves(w: World, task: Task, x: Input, h: nat)
    requires task.Marking?
    ensures var (w', task') := Act(w, task, x);
      w'.closes == w.closes && Share(w', task', h) == Share(w, task, h)
  {
    RowsMarked(w.table, task.c.addr, x.now, h);
  }

  /** One action moves a handle between its holders, and creates one only by dialling. */
  lemma ActConserves(w: World, task: Task, x: Input, h: nat)
    requires CarriesOwn(task) && OwnsOpened(w, task)
    ensures var (w', task') := Act(w, task, x);
      Share(w', task', h) == Share(w, task, h) + Bit(|w.closes| <= h < |w'.closes|)
  {
    if task.Publishing? {
      PublishConserves(w, task, x, h);
    } else if task.Removing? {
      RemoveConserves(w, task, x, h);
    } else if task.Marking? {
      MarkConserves(w, task, x, h);
    } else {
      ActConservesQuietly(w, task, x, h);
    }
  }

  lemma ActShape(w: World, task: Task, x: Input)
    ensures var (w', task') := Act(w, task, x);
      CarriesOwn(task') && |w.closes| <= |w'.closes| <= |w.closes| + 1
  {
  }

  ghost predicate Conserved(s: State) {
    && (forall t :: 0 <= t < |s.tasks| ==> CarriesOwn(s.tasks[t]))
    && (forall h: nat :: Holders(s, h) == Bit(Opened(s, h)))
  }

  lemma OwnerIsOpened(s: State, t: nat)
    requires Conserved(s) && t < |s.tasks|
    ensures OwnsOpened(s.world, s.tasks[t])
  {
    if Owned(s.tasks[t]).Some? {
      var h := Owned(s.tasks[t]).value;
      assert Holders(s, h) == Bit(Opened(s, h));
      assert s.tasks == s.tasks[..t] + ([s.tasks[t]] + s.tasks[t + 1..]);
      OwnersSplit(s.tasks[..t], [s.tasks[t]] + s.tasks[t + 1..], h);
    }
  }

  lemma ApplyConserves(s: State, ev: Event)
    requires Conserved(s)
    ensures Conserved(Apply(s, ev))
  {
    var s' := Apply(s, ev);
    if ev.Advance? && ev.t < |s.tasks| {
      OwnerIsOpened(s, ev.t);
      forall h: nat ensures Holders(s', h) == Bit(Opened(s', h)) {
        assert Holders(s, h) == Bit(Opened(s, h));
        ActConserves(s.world, s.tasks[ev.t], ev.input, h);
        ActShape(s.world, s.tasks[ev.t], ev.input);
        OwnersUpdate(s.tasks, ev.t, s'.tasks[ev.t], h);
      }
      ActShape(s.world, s.tasks[ev.t], ev.input);
    } else if s' != s {
      forall h: nat ensures Holders(s', h) == Bit(Opened(s', h)) {
        assert Holders(s, h) == Bit(Opened(s, h));
        OwnersSplit(s.tasks, s'.tasks[|s.tasks|..], h);
        assert s'.tasks == s.tasks + s'.tasks[|s.tasks|..];
      }
    }
  }

  /**
   * In every interleaving each dialled handle has exactly one holder: one task that still has
   * to publish or close it, one row of the table, or one Close call that was made on it.
   */
  lemma {:induction false} OneHolder(run: seq<Event>)
    ensures Conserved(After(run))
  {
    if run != [] {
      OneHolder(run[..|run| - 1]);
      ApplyConserves(After(run[..|run| - 1]), run[|run| - 1]);
    }
  }

  lemma RowCounts(t: seq<Entry>, i: nat, h: nat)
    requires i < |t| && t[i].conn == Some(h)
    ensures Rows(t, h) >= 1
    ensures forall j :: 0 <= j < |t| && j != i && t[j].conn == Some(h) ==> Rows(t, h) >= 2
  {
    RowsAround(t, i, h);
    forall j | 0 <= j < |t| && j != i && t[j].conn == Some(h) ensures Rows(t, h) >= 2 {
      if j < i {
        RowsAround(t[..i], j, h);
      } else {
        RowsAround(t[i + 1..], j - i - 1, h);
      }
    }
  }

  lemma ConservedRow(s: State, i: nat, h: nat)
    requires Conserved(s) && i < |s.world.table| && s.world.table[i].conn == Some(h)
    ensures Opened(s, h) && s.world.closes[h] == 0
    ensures forall j :: 0 <= j < |s.world.table| && j != i ==> s.world.table[j].conn != Some(h)
  {
    assert Holders(s, h) == Bit(Opened(s, h));
    RowCounts(s.world.table, i, h);
  }

  /** No handle in the table was ever closed. */
  ghost predicate TableIsOpen(s: State) {
    forall i, h: nat :: 0 <= i < |s.world.table| && s.world.table[i].conn == Some(h) ==>
      Opened(s, h) && s.world.closes[h] == 0
  }

  /** No handle sits in two rows. */
  ghost predicate RowsDisjoint(s: State) {
    forall i, j :: 0 <= i < j < |s.world.table| && s.world.table[i].conn.Some? ==>
      s.world.table[i].conn != s.world.table[j].conn
  }

  /** A handle in the table was never closed, and no handle is in two rows or closed twice. */
  lemma TableHandlesAreOpen(run: seq<Event>)
    ensures TableIsOpen(After(run)) && RowsDisjoint(After(run))
    ensures forall h :: 0 <= h < |After(run).world.closes| ==> After(run).world.closes[h] <= 1
  {
    OneHolder(run);
    var s := After(run);
    forall i, h: nat | 0 <= i < |s.world.table| && s.world.table[i].conn == Some(h)
      ensures Opened(s, h) && s.world.closes[h] == 0
    {
      ConservedRow(s, i, h);
    }
    forall i, j | 0 <= i < j < |s.world.table| && s.world.table[i].conn.Some?
      ensures s.world.table[i].conn != s.world.table[j].conn
    {
      ConservedRow(s, i, s.world.table[i].conn.value);
    }
    forall h | 0 <= h < |s.world.closes| ensures s.world.closes[h] <= 1 {
      assert Holders(s, h) == Bit(Opened(s, h));
    }
  }

  lemma NoOwners(ts: seq<Task>, h: nat)
    requires forall t :: 0 <= t < |ts| ==> ts[t] == Finished
    ensures Owners(ts, h) == 0
  {
  }

  lemma RowsWitness(t: seq<Entry>, h: nat)
    requires Rows(t, h) > 0
    ensures exists i :: 0 <= i < |t| && t[i].conn == Some(h)
  {
    if t[0].conn != Some(h) {
      RowsWitness(t[1..], h);
      var i :| 0 <= i < |t[1..]| && t[1..][i].conn == Some(h);
      assert t[i + 1].conn == Some(h);
    }
  }

  /** Nothing leaks: once all tasks have finished, a handle is in the table iff it was not closed. */
  lemma QuiescentHandles(run: seq<Event>, h: nat)
    requires h < |After(run).world.closes|
    requires forall t :: 0 <= t < |After(run).tasks| ==> After(run).tasks[t] == Finished
    ensures var w := After(run).world;
      (exists i :: 0 <= i < |w.table| && w.table[i].conn == Some(h)) <==> w.closes[h] == 0
  {
    OneHolder(run);
    TableHandlesAreOpen(run);
    var s := After(run);
    assert Holders(s, h) == Bit(Opened(s, h));
    NoOwners(s.tasks, h);
    if s.world.closes[h] == 0 {
      RowsWitness(s.world.table, h);
    }
  }

  // ---------- a stale check removes only its own registration ----------

  /** Two copies of one entry; only LastSeen may differ. */
  predicate SameRegistration(x: Entry, y: Entry) {
    x.(lastSeen := 0) == y.(lastSeen := 0)
  }

  ghost predicate Known(w: World, x: Entry) {
    exists i :: 0 <= i < |w.minted| && SameRegistration(w.minted[i], x)
  }

  ghost predicate AllKnown(w: World, es: seq<Entry>) {
    forall i :: 0 <= i < |es| ==> Known(w, es[i])
  }

  /** Every entry a task holds was minted by some registration. */
  ghost predicate HoldsKnown(w: World, task: Task) {
    match task
    case Registering(_, _, k) => CallerKnown(w, k)
    case Probing(_, _, _, k) => CallerKnown(w, k)
    case Discarding(_, _, _, k) => CallerKnown(w, k)
    case Stamping(_, _, _, k) => CallerKnown(w, k)
    case Publishing(_, e, k) => Known(w, e) && CallerKnown(w, k)
    case ClosingReplaced(_, _, _, k) => CallerKnown(w, k)
    case Sweeping(rest) => AllKnown(w, rest)
    case Checking(c, _, rest) => Known(w, c) && AllKnown(w, rest)
    case Marking(c, rest) => Known(w, c) && AllKnown(w, rest)
    case Removing(c, rest) => Known(w, c) && AllKnown(w, rest)
    case ClosingRemoved(_, c, rest) => Known(w, c) && AllKnown(w, rest)
    case Restoring(_, _, rest) => AllKnown(w, rest)
    case Retrying(_, _, _, rest) => AllKnown(w, rest)
    case _ => true
  }

  ghost predicate CallerKnown(w: World, k: Caller) {
    k.FromRestore? ==> AllKnown(w, k.rest)
  }

  ghost predicate Traceable(s: State) {
    && AllKnown(s.world, s.world.table)
    && (forall t :: 0 <= t < |s.tasks| ==> HoldsKnown(s.world, s.tasks[t]))
  }

  lemma KnownLater(w: World, w': World, x: Entry)
    requires w.minted <= w'.minted && Known(w, x)
    ensures Known(w', x)
  {
    var i :| 0 <= i < |w.minted| && SameRegistration(w.minted[i], x);
    assert w'.minted[i] == w.minted[i];
  }

  lemma AllKnownLater(w: World, w': World, es: seq<Entry>)
    requires w.minted <= w'.minted && AllKnown(w, es)
    ensures AllKnown(w', es)
  {
    forall i | 0 <= i < |es| ensures Known(w', es[i]) {
      KnownLater(w, w', es[i]);
    }
  }

  lemma CallerKnownLater(w: World, w': World, k: Caller)
    requires w.minted <= w'.minted && CallerKnown(w, k)
    ensures CallerKnown(w', k)
  {
    if k.FromRestore? {
      AllKnownLater(w, w', k.rest);
    }
  }

  lemma HoldsKnownLater(w: World, w': World, task: Task)
    requires w.minted <= w'.minted && HoldsKnown(w, task)
    ensures HoldsKnown(w', task)
  {
    match task {
      case Registering(_, _, k) => CallerKnownLater(w, w', k);
      case Probing(_, _, _, k) => CallerKnownLater(w, w', k);
      case Discarding(_, _, _, k) => CallerKnownLater(w, w', k);
      case Stamping(_, _, _, k) => CallerKnownLater(w, w', k);
      case Publishing(_, e, k) => KnownLater(w, w', e); CallerKnownLater(w, w', k);
      case ClosingReplaced(_, _, _, k) => CallerKnownLater(w, w', k);
      case Checking(c, _, rest) => KnownLater(w, w', c); AllKnownLater(w, w', rest);
      case Marking(c, rest) => KnownLater(w, w', c); AllKnownLater(w, w', rest);
      case Removing(c, rest) => KnownLater(w, w', c); AllKnownLater(w, w', rest);
      case ClosingRemoved(_, c, rest) => KnownLater(w, w', c); AllKnownLater(w, w', rest);
      case Sweeping(rest) => AllKnownLater(w, w', rest);
      case Restoring(_, _, rest) => AllKnownLater(w, w', rest);
      case Retrying(_, _, _, rest) => AllKnownLater(w, w', rest);
      case _ =>
    }
  }

  lemma MarkedKnown(w: World, addr: Str, now: int)
    requires AllKnown(w, w.table)
    ensures AllKnown(w, Marked(w.table, addr, now))
  {
    var t' := Marked(w.table, addr, now);
    forall i | 0 <= i < |t'| ensures Known(w, t'[i]) {
      var k :| 0 <= k < |w.minted| && SameRegistration(w.minted[k], w.table[i]);
      assert SameRegistration(w.minted[k], t'[i]);
    }
  }

  lemma RegisteredKnown(w: World, e: Entry)
    requires AllKnown(w, w.table) && Known(w, e)
    ensures AllKnown(w, Registered(w.table, e))
  {
  }

  lemma WithoutKnown(w: World, addr: Str, stamp: int)
    requires AllKnown(w, w.table)
    ensures AllKnown(w, Without(w.table, addr, stamp))
  {
  }

  /** The table after an action still holds only entries known before or minted by it. */
  lemma ActTableKnown(w: World, task: Task, x: Input)
    requires AllKnown(w, w.table) && HoldsKnown(w, task)
    ensures var w' := Act(w, task, x).0;
      w.minted <= w'.minted && AllKnown(w, w'.table)
  {
    match task
    case Publishing(_, e, _) => RegisteredKnown(w, e);
    case Removing(c, _) => WithoutKnown(w, c.addr, c.entryTime);
    case Marking(c, _) => MarkedKnown(w, c.addr, x.now);
    case _ =>
  }

  lemma ActTaskKnown(w: World, task: Task, x: Input)
    requires AllKnown(w, w.table) && HoldsKnown(w, task)
    ensures !task.Stamping? ==> HoldsKnown(w, Act(w, task, x).1)
    ensures task.Stamping? ==> HoldsKnown(Act(w, task, x).0, Act(w, task, x).1)
  {
    if task.Stamping? {
      var (w', task') := Act(w, task, x);
      assert SameRegistration(w'.minted[|w.minted|], task'.entry);
      HoldsKnownLater(w, w', task);
    }
  }

  lemma ActTraceable(w: World, task: Task, x: Input)
    requires AllKnown(w, w.table) && HoldsKnown(w, task)
    ensures var (w', task') := Act(w, task, x);
      w.minted <= w'.minted && AllKnown(w', w'.table) && HoldsKnown(w', task')
  {
    var (w', task') := Act(w, task, x);
    ActTableKnown(w, task, x);
    ActTaskKnown(w, task, x);
    AllKnownLater(w, w', w'.table);
    if !task.Stamping? {
      HoldsKnownLater(w, w', task');
    }
  }

  lemma ApplyTraceable(s: State, ev: Event)
    requires Traceable(s)
    ensures Traceable(Apply(s, ev))
  {
    var s' := Apply(s, ev);
    if ev.Advance? && ev.t < |s.tasks| {
      ActTraceable(s.world, s.tasks[ev.t], ev.input);
      forall t | 0 <= t < |s'.tasks| ensures HoldsKnown(s'.world, s'.tasks[t]) {
        if t != ev.t {
          HoldsKnownLater(s.world, s'.world, s.tasks[t]);
        }
      }
    } else if ev.Suspect? && ev.i < |s.world.minted| {
      assert SameRegistration(s.world.minted[ev.i], s.world.minted[ev.i]);
    }
  }

  lemma {:induction false} RunTraceable(run: seq<Event>)
    ensures Traceable(After(run))
  {
    if run != [] {
      RunTraceable(run[..|run| - 1]);
      ApplyTraceable(After(run[..|run| - 1]), run[|run| - 1]);
    }
  }

  /** Registrations of one address have different EntryTimes, and none of them the zero time. */
  ghost predicate DistinctStamps(w: World) {
    forall i, j :: 0 <= i < |w.minted| && 0 <= j < |w.minted| && i != j && w.minted[i].addr == w.minted[j].addr ==>
      w.minted[i].entryTime != ZERO_TIME && w.minted[i].entryTime != w.minted[j].entryTime
  }

  lemma ExpectedIsOwn(w: World, c: Entry, e: Entry)
    requires DistinctStamps(w) && Known(w, c) && Known(w, e)
    ensures Expected(e, c.addr, c.entryTime) <==> SameRegistration(e, c)
  {
    var k :| 0 <= k < |w.minted| && SameRegistration(w.minted[k], c);
    var m :| 0 <= m < |w.minted| && SameRegistration(w.minted[m], e);
    assert m != k && w.minted[k].addr == w.minted[m].addr ==>
      w.minted[k].entryTime != ZERO_TIME && w.minted[k].entryTime != w.minted[m].entryTime;
  }

  /**
   * With distinct stamps per address, whatever happened since a check took its copy c, its removal takes out
   * c's own registration or nothing: every other row stays, in order, and the row it takes out
   * carries the very handle that was pinged.
   */
  lemma StaleCheckRemovesOnlyItsOwn(run: seq<Event>, t: nat, x: Input)
    requires t < |After(run).tasks| && After(run).tasks[t].Removing?
    requires DistinctStamps(After(run).world)
    ensures var s := After(run);
      var c := s.tasks[t].c;
      var table' := Apply(s, Advance(t, x)).world.table;
      if exists i :: 0 <= i < |s.world.table| && SameRegistration(s.world.table[i], c) then
        exists i :: 0 <= i < |s.world.table| && SameRegistration(s.world.table[i], c)
                    && table' == s.world.table[..i] + s.world.table[i + 1..]
      else table' == s.world.table
  {
    RunTraceable(run);
    var s := After(run);
    var w, c := s.world, s.tasks[t].c;
    assert HoldsKnown(w, s.tasks[t]);
    forall i | 0 <= i < |w.table|
      ensures Expected(w.table[i], c.addr, c.entryTime) <==> SameRegistration(w.table[i], c)
    {
      ExpectedIsOwn(w, c, w.table[i]);
    }
    var i := RemovalIndex(w.table, c.addr, c.entryTime);
  }

  /** The check of c takes a row of another registration out of the table. */
  ghost predicate RemovesOther(t: seq<Entry>, c: Entry) {
    var gone := Removed(t, c.addr, c.entryTime);
    gone.Some? && !SameRegistration(gone.value, c)
  }

  /** Row x was registered by someone else for c's address, and c's stamp does not tell the two apart. */
  predicate Mistakable(x: Entry, c: Entry) {
    x.addr == c.addr && !SameRegistration(x, c) && (c.entryTime == ZERO_TIME || x.entryTime == c.entryTime)
  }

  /** A stale check hits another registration iff a mistakable row stands in front of every row of its own. */
  lemma RemovesOtherIff(t: seq<Entry>, c: Entry)
    ensures RemovesOther(t, c) <==> exists i :: 0 <= i < |t| && Mistakable(t[i], c) && NoneOwn(t, i, c)
  {
    var k := RemovalIndex(t, c.addr, c.entryTime);
    if RemovesOther(t, c) {
      forall j | 0 <= j < k ensures !SameRegistration(t[j], c) {
        assert !Expected(t[j], c.addr, c.entryTime);
      }
      assert Mistakable(t[k], c) && NoneOwn(t, k, c);
    }
    forall i | 0 <= i < |t| && Mistakable(t[i], c) && NoneOwn(t, i, c) ensures RemovesOther(t, c) {
      assert Expected(t[i], c.addr, c.entryTime);
    }
  }

  /** No row before i is of c's own registration. */
  ghost predicate NoneOwn(t: seq<Entry>, i: nat, c: Entry)
    requires i <= |t|
  {
    forall j :: 0 <= j < i ==> !SameRegistration(t[j], c)
  }

  /** On a table without repeats: iff there is a mistakable row at all. */
  lemma RemovesOtherUnique(t: seq<Entry>, c: Entry)
    requires Unique(t)
    ensures RemovesOther(t, c) <==> exists i :: 0 <= i < |t| && Mistakable(t[i], c)
  {
    RemovesOtherIff(t, c);
    forall i | 0 <= i < |t| && Mistakable(t[i], c) ensures NoneOwn(t, i, c) {
      forall j | 0 <= j < i ensures !SameRegistration(t[j], c) {
        assert !Clashes(t[j], t[i]);
      }
    }
  }

  /** after is t without one row, a row of another registration than c's. */
  ghost predicate LosesOther(t: seq<Entry>, after: seq<Entry>, c: Entry) {
    exists i :: 0 <= i < |t| && !SameRegistration(t[i], c) && after == t[..i] + t[i + 1..]
  }

  /** Which row is missing afterwards tells which one was removed: rows do not repeat. */
  lemma LosesOtherIff(t: seq<Entry>, c: Entry)
    requires Unique(t)
    ensures LosesOther(t, Without(t, c.addr, c.entryTime), c) <==> RemovesOther(t, c)
  {
    hide SameRegistration;
    var k := RemovalIndex(t, c.addr, c.entryTime);
    var left := Without(t, c.addr, c.entryTime);
    forall i | 0 <= i < |t| && i != k ensures left != t[..i] + t[i + 1..] {
      if k < i {
        RemovalsDiffer(t, k, i);
      } else if k < |t| {
        RemovalsDiffer(t, i, k);
      }
    }
  }

  lemma RemovalsDiffer(t: seq<Entry>, i: nat, k: nat)
    requires Unique(t) && i < k < |t|
    ensures t[..i] + t[i + 1..] != t[..k] + t[k + 1..]
  {
    assert !Clashes(t[i], t[i + 1]);
    assert (t[..i] + t[i + 1..])[i] == t[i + 1] && (t[..k] + t[k + 1..])[i] == t[i];
  }

  lemma RemovingStep(s: State, t: nat, x: Input)
    requires t < |s.tasks| && s.tasks[t].Removing?
    ensures var c := s.tasks[t].c;
      Apply(s, Advance(t, x)).world.table == Without(s.world.table, c.addr, c.entryTime)
  {
  }

  /**
   * At any moment of a run: the removal step of a check takes out the row of another registration iff
   * that row has the check's address and the check's stamp is the zero time or that row's stamp.
   */
  lemma StaleCheckRemovesOtherIff(run: seq<Event>, t: nat, x: Input)
    requires t < |After(run).tasks| && After(run).tasks[t].Removing? && Unique(After(run).world.table)
    ensures var table, c := After(run).world.table, After(run).tasks[t].c;
      var after := Apply(After(run), Advance(t, x)).world.table;
      LosesOther(table, after, c) <==> exists i :: 0 <= i < |table| && Mistakable(table[i], c)
  {
    hide After, Apply, Without, Unique, RemovesOther, LosesOther, Mistakable;
    var s := After(run);
    RemovingStep(s, t, x);
    RemovesOtherUnique(s.world.table, s.tasks[t].c);
    LosesOtherIff(s.world.table, s.tasks[t].c);
  }

  // ---------- the failure at a run ----------

  const PROBE := Input(true, 5, 7)
  const LOST := Input(false, 6, 7)

  /** Registration and announcement of one slave: dial, ping, stamp, publish. */
  function Register(t: nat, addr: Str, name: Str): seq<Event> {
    [Connect(addr, name), Advance(t, PROBE), Advance(t, PROBE), Advance(t, PROBE), Advance(t, PROBE)]
  }

  /** A check of the first registration that fails three pings. */
  const CHECK: seq<Event> := [Suspect(0), Advance(1, LOST), Advance(1, LOST), Advance(1, LOST)]

  lemma AfterOne(run: seq<Event>, ev: Event)
    ensures After(run + [ev]) == Apply(After(run), ev)
  {
    assert (run + [ev])[..|run|] == run;
  }

  lemma AfterFour(run: seq<Event>, a: Event, b: Event, c: Event, d: Event)
    ensures After(run + [a, b, c, d]) == Apply(Apply(Apply(Apply(After(run), a), b), c), d)
  {
    hide After;
    AfterOne(run, a);
    AfterOne(run + [a], b);
    AfterOne(run + [a] + [b], c);
    AfterOne(run + [a] + [b] + [c], d);
    assert run + [a, b, c, d] == run + [a] + [b] + [c] + [d];
  }

  /** What a registration does that nothing disturbs. */
  lemma AfterRegister(run: seq<Event>, addr: Str, name: Str)
    requires addr != [] && name != []
    ensures var s, h := After(run), |After(run).world.closes|;
      var e := Entry(addr, name, Some(h), 5, 7);
      var (w, task) := Act(World(s.world.table, s.world.closes + [0], s.world.minted + [e]),
                           Publishing(h, e, FromRequest), PROBE);
      After(run + Register(|s.tasks|, addr, name)) == State(w, s.tasks + [task])
  {
    hide After;
    var s, t := After(run), |After(run).tasks|;
    AfterOne(run, Connect(addr, name));
    AfterFour(run + [Connect(addr, name)], Advance(t, PROBE), Advance(t, PROBE), Advance(t, PROBE), Advance(t, PROBE));
    assert run + Register(t, addr, name)
        == run + [Connect(addr, name)] + [Advance(t, PROBE), Advance(t, PROBE), Advance(t, PROBE), Advance(t, PROBE)];
  }

  /**
   * A slave registers twice with one clock reading; a check of the first registration, held up behind
   * its third failed ping, then takes the second one out of the table. The connection it takes out,
   * handle 1, is not the one it pinged, handle 0.
   */
  lemma EqualStampsRemoveLater(addr: Str, name: Str)
    requires addr != [] && name != []
    ensures var run := Register(0, addr, name) + CHECK + Register(2, addr, name);
      var first, second := Entry(addr, name, Some(0), 5, 7), Entry(addr, name, Some(1), 5, 7);
      var closing := ClosingReplaced(0, addr, name, FromRequest);
      && After(run).world.table == [second]
      && After(run).tasks == [Listing, Removing(first, []), closing]
      && After(run + [Advance(1, LOST)]).world.table == []
      && After(run + [Advance(1, LOST)]).tasks == [Listing, ClosingRemoved(1, first, []), closing]
  {
    hide After, Registered, Replaced, Without, Removed;
    var e0, e1 := Entry(addr, name, Some(0), 5, 7), Entry(addr, name, Some(1), 5, 7);
    CheckHeldUp(addr, name);
    var r2 := Register(0, addr, name) + CHECK;
    AfterRegister(r2, addr, name);
    FirstSlot(e0, e1);
    AfterOne(r2 + Register(2, addr, name), Advance(1, LOST));
  }

  /** The first registration, and the check of it behind its third failed ping. */
  lemma CheckHeldUp(addr: Str, name: Str)
    requires addr != [] && name != []
    ensures var e := Entry(addr, name, Some(0), 5, 7);
      After(Register(0, addr, name) + CHECK) == State(World([e], [0], [e]), [Listing, Removing(e, [])])
  {
    hide After, Registered, Replaced;
    var e := Entry(addr, name, Some(0), 5, 7);
    var r1 := Register(0, addr, name);
    NothingYet();
    AfterRegister([], addr, name);
    assert [] + r1 == r1;
    NoSlot(e);
    AfterFour(r1, Suspect(0), Advance(1, LOST), Advance(1, LOST), Advance(1, LOST));
  }

  lemma NothingYet()
    ensures After([]) == State(World([], [], []), [])
  {
  }

  lemma NoSlot(e: Entry)
    ensures Registered([], e) == [e] && Replaced([], e) == None
  {
  }

  lemma FirstSlot(e: Entry, newer: Entry)
    requires newer.addr == e.addr && newer.entryTime == e.entryTime
    ensures Registered([e], newer) == [newer] && Replaced([e], newer) == Some(e)
    ensures Without([newer], e.addr, e.entryTime) == [] && Removed([newer], e.addr, e.entryTime) == Some(newer)
  {
    SlotIs([e], newer, 0);
    FirstIndexIs([newer], (x: Entry) => Expected(x, e.addr, e.entryTime), 0);
  }

  // ---------- uniqueness under a one-to-one pairing ----------

  /** Addresses and names pair one-to-one. */
  ghost predicate OneToOne(pairs: set<(Str, Str)>) {
    forall p, q :: p in pairs && q in pairs ==> (p.0 == q.0 <==> p.1 == q.1)
  }

  predicate Requests(run: seq<Event>, pairs: set<(Str, Str)>) {
    forall i :: 0 <= i < |run| && run[i].Connect? ==> (run[i].addr, run[i].name) in pairs
  }

  predicate Paired(e: Entry, pairs: set<(Str, Str)>) {
    (e.addr, e.name) in pairs
  }

  predicate TaskPaired(task: Task, pairs: set<(Str, Str)>) {
    match task
    case Registering(addr, name, _) => (addr, name) in pairs
    case Probing(_, addr, name, _) => (addr, name) in pairs
    case Discarding(_, addr, name, _) => (addr, name) in pairs
    case Stamping(_, addr, name, _) => (addr, name) in pairs
    case Publishing(_, e, _) => Paired(e, pairs)
    case ClosingReplaced(_, addr, name, _) => (addr, name) in pairs
    case Restoring(addr, name, _) => (addr, name) in pairs
    case Retrying(_, addr, name, _) => (addr, name) in pairs
    case _ => true
  }

  ghost predicate AllPaired(s: State, pairs: set<(Str, Str)>) {
    && WorldPaired(s.world, pairs)
    && (forall t :: 0 <= t < |s.tasks| ==> TaskPaired(s.tasks[t], pairs))
  }

  lemma KnownPaired(w: World, x: Entry, pairs: set<(Str, Str)>)
    requires Known(w, x)
    requires forall i :: 0 <= i < |w.minted| ==> Paired(w.minted[i], pairs)
    ensures Paired(x, pairs)
  {
    var i :| 0 <= i < |w.minted| && SameRegistration(w.minted[i], x);
    assert Paired(w.minted[i], pairs);
  }

  lemma RegisteredUnique(w: World, e: Entry, pairs: set<(Str, Str)>)
    requires OneToOne(pairs) && Unique(w.table) && Paired(e, pairs) && AllKnown(w, w.table)
    requires forall i :: 0 <= i < |w.minted| ==> Paired(w.minted[i], pairs)
    ensures Unique(Registered(w.table, e))
  {
    forall i | 0 <= i < |w.table| ensures Paired(w.table[i], pairs) {
      KnownPaired(w, w.table[i], pairs);
    }
    forall i, j | 0 <= i < j < |w.table| ensures !(Clashes(w.table[i], e) && Clashes(w.table[j], e)) {
      var p, q, r := (w.table[i].addr, w.table[i].name), (w.table[j].addr, w.table[j].name), (e.addr, e.name);
      assert p in pairs && q in pairs && r in pairs;
      assert !Clashes(w.table[i], w.table[j]);
    }
    RegistrationKeepsUniqueIff(w.table, e);
  }

  ghost predicate WorldPaired(w: World, pairs: set<(Str, Str)>) {
    Unique(w.table) && forall i :: 0 <= i < |w.minted| ==> Paired(w.minted[i], pairs)
  }

  lemma MarkedUnique(t: seq<Entry>, addr: Str, now: int)
    requires Unique(t)
    ensures Unique(Marked(t, addr, now))
  {
  }

  lemma ActKeepsUnique(w: World, task: Task, x: Input, pairs: set<(Str, Str)>)
    requires OneToOne(pairs) && WorldPaired(w, pairs) && AllKnown(w, w.table)
    requires TaskPaired(task, pairs)
    ensures WorldPaired(Act(w, task, x).0, pairs)
  {
    match task
    case Publishing(_, e, _) => RegisteredUnique(w, e, pairs);
    case Removing(c, _) => WithoutKeepsUnique(w.table, c.addr, c.entryTime);
    case Marking(c, _) => MarkedUnique(w.table, c.addr, x.now);
    case _ =>
  }

  lemma ActTaskPaired(w: World, task: Task, x: Input, pairs: set<(Str, Str)>)
    requires WorldPaired(w, pairs) && HoldsKnown(w, task)
    requires TaskPaired(task, pairs)
    ensures TaskPaired(Act(w, task, x).1, pairs)
  {
    match task
    case Removing(c, _) => KnownPaired(w, c, pairs);
    case ClosingRemoved(_, c, _) => KnownPaired(w, c, pairs);
    case _ =>
  }

  lemma ApplyPaired(s: State, ev: Event, pairs: set<(Str, Str)>)
    requires OneToOne(pairs) && AllPaired(s, pairs) && Traceable(s)
    requires ev.Connect? ==> (ev.addr, ev.name) in pairs
    ensures AllPaired(Apply(s, ev), pairs)
  {
    if ev.Advance? && ev.t < |s.tasks| {
      ActKeepsUnique(s.world, s.tasks[ev.t], ev.input, pairs);
      ActTaskPaired(s.world, s.tasks[ev.t], ev.input, pairs);
    }
  }

  /** If announced addresses and names pair one-to-one, no interleaving ever repeats either in the table. */
  lemma {:induction false} PairedRunsStayUnique(run: seq<Event>, pairs: set<(Str, Str)>)
    requires OneToOne(pairs) && Requests(run, pairs)
    ensures AllPaired(After(run), pairs)
    ensures Unique(After(run).world.table)
  {
    if run != [] {
      var before := run[..|run| - 1];
      PairedRunsStayUnique(before, pairs);
      RunTraceable(before);
      ApplyPaired(After(before), run[|run| - 1], pairs);
    }
  }

  // ---------- every task stops ----------

  /** The attempt counters stay below three. */
  predicate Bounded(task: Task) {
    match task
    case Checking(_, attempt, _) => attempt <= 2
    case Retrying(attempt, _, _, _) => attempt <= 1
    case Registering(_, _, k) => CallerBounded(k)
    case Probing(_, _, _, k) => CallerBounded(k)
    case Discarding(_, _, _, k) => CallerBounded(k)
    case Stamping(_, _, _, k) => CallerBounded(k)
    case Publishing(_, _, k) => CallerBounded(k)
    case ClosingReplaced(_, _, _, k) => CallerBounded(k)
    case _ => true
  }

  predicate CallerBounded(k: Caller) {
    k.FromRestore? ==> k.attempt <= 2
  }

  function CallerRank(k: Caller, local: nat): (nat, nat, nat) {
    match k
    case FromRequest => (1, 0, local)
    case FromRestore(attempt, rest) => (0, |rest| + 1, 8 * (if attempt <= 2 then 2 - attempt else 0) + local)
  }

  /** Decreases lexicographically with every action a task takes. */
  function Rank(task: Task): (nat, nat, nat) {
    match task
    case Finished => (0, 0, 0)
    case Registering(_, _, k) => CallerRank(k, 7)
    case Probing(_, _, _, k) => CallerRank(k, 6)
    case Discarding(_, _, _, k) => CallerRank(k, 5)
    case Stamping(_, _, _, k) => CallerRank(k, 5)
    case Publishing(_, _, k) => CallerRank(k, 4)
    case ClosingReplaced(_, _, _, k) => CallerRank(k, 3)
    case Listing => (1, 0, 1)
    case Sweeping(rest) => (0, |rest| + 1, 0)
    case Checking(_, attempt, rest) => (0, |rest| + 1, if attempt <= 2 then 40 - attempt else 37)
    case Marking(_, rest) => (0, |rest| + 1, 1)
    case Removing(_, rest) => (0, |rest| + 1, 30)
    case ClosingRemoved(_, _, rest) => (0, |rest| + 1, 29)
    case Restoring(_, _, rest) => (0, |rest| + 1, 28)
    case Retrying(attempt, _, _, rest) => (0, |rest| + 1, 8 * (if attempt <= 2 then 2 - attempt else 0) + 2)
  }

  predicate Below(a: (nat, nat, nat), b: (nat, nat, nat)) {
    a.0 < b.0 || (a.0 == b.0 && (a.1 < b.1 || (a.1 == b.1 && a.2 < b.2)))
  }

  lemma ActDescends(w: World, task: Task, x: Input)
    requires Bounded(task)
    ensures var task' := Act(w, task, x).1;
      Bounded(task') && (task.Finished? || Below(Rank(task'), Rank(task)))
  {
  }

  lemma {:induction false} RunBounded(run: seq<Event>)
    ensures forall t :: 0 <= t < |After(run).tasks| ==> Bounded(After(run).tasks[t])
  {
    if run != [] {
      var s, ev := After(run[..|run| - 1]), run[|run| - 1];
      RunBounded(run[..|run| - 1]);
      if ev.Advance? && ev.t < |s.tasks| {
        ActDescends(s.world, s.tasks[ev.t], ev.input);
      }
    }
  }

  /**
   * Whatever the other tasks, the dials and the pings did, each action of an unfinished task
   * moves it strictly closer to its end in a well-founded order: every retry loop stops.
   */
  lemma TasksStop(run: seq<Event>, t: nat, x: Input)
    requires t < |After(run).tasks| && !After(run).tasks[t].Finished?
    ensures Below(Rank(Apply(After(run), Advance(t, x)).tasks[t]), Rank(After(run).tasks[t]))
  {
    RunBounded(run);
    ActDescends(After(run).world, After(run).tasks[t], x);
  }

  /** A check of a live handle goes on to remove the row exactly when three pings in a row failed. */
  lemma ThreeFailuresRemove(w: World, c: Entry, rest: seq<Entry>, x: Input, y: Input, z: Input)
    requires c.conn.Some?
    ensures var t1 := Act(w, Checking(c, 0, rest), x).1;
      var t2 := if t1.Checking? then Act(w, t1, y).1 else t1;
      var t3 := if t2.Checking? then Act(w, t2, z).1 else t2;
      t3 == if x.ok || y.ok || z.ok then Marking(c, rest) else Removing(c, rest)
  {
  }
}
