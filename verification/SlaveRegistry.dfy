/** The master's table of slave connections: the operations that run under its lock. */
module SlaveRegistry {
  import opened Options
  import opened Text

  /** Instants are integers; Go's zero time is 0. */
  const ZERO_TIME: int := 0

  /** One row of the table, as a snapshot copies it. A handle stands for a *grpc.ClientConn. */
  datatype Entry = Entry(addr: Str, name: Str, conn: Option<nat>, lastSeen: int, entryTime: int)

  // ---------- specification on table values ----------

  predicate Clashes(x: Entry, e: Entry) {
    x.addr == e.addr || x.name == e.name
  }

  predicate Expected(x: Entry, addr: Str, expectedEntry: int) {
    x.addr == addr && (expectedEntry == ZERO_TIME || x.entryTime == expectedEntry)
  }

  /** Index of the first row satisfying p, or |t|. */
  function FirstIndex(t: seq<Entry>, p: Entry -> bool): (i: nat)
    ensures i <= |t|
    ensures i < |t| ==> p(t[i])
    ensures forall j :: 0 <= j < i ==> !p(t[j])
  {
    if |t| == 0 || p(t[0]) then 0 else 1 + FirstIndex(t[1..], p)
  }

  function Find(t: seq<Entry>, p: Entry -> bool): Option<Entry> {
    var i := FirstIndex(t, p);
    if i < |t| then Some(t[i]) else None
  }

  function FindByAddr(t: seq<Entry>, addr: Str): Option<Entry> {
    Find(t, (x: Entry) => x.addr == addr)
  }

  function FindByName(t: seq<Entry>, name: Str): Option<Entry> {
    Find(t, (x: Entry) => x.name == name)
  }

  /** The slot a registration of e takes: the first row with its address or its name. */
  function SlotOf(t: seq<Entry>, e: Entry): (i: nat)
    ensures i <= |t|
  {
    FirstIndex(t, (x: Entry) => Clashes(x, e))
  }

  function Registered(t: seq<Entry>, e: Entry): seq<Entry> {
    var i := SlotOf(t, e);
    if i < |t| then t[i := e] else t + [e]
  }

  function Replaced(t: seq<Entry>, e: Entry): Option<Entry> {
    var i := SlotOf(t, e);
    if i < |t| then Some(t[i]) else None
  }

  function RemovalIndex(t: seq<Entry>, addr: Str, expectedEntry: int): (i: nat)
    ensures i <= |t|
  {
    FirstIndex(t, (x: Entry) => Expected(x, addr, expectedEntry))
  }

  function Without(t: seq<Entry>, addr: Str, expectedEntry: int): seq<Entry> {
    var i := RemovalIndex(t, addr, expectedEntry);
    if i < |t| then t[..i] + t[i + 1..] else t
  }

  function Removed(t: seq<Entry>, addr: Str, expectedEntry: int): Option<Entry> {
    var i := RemovalIndex(t, addr, expectedEntry);
    if i < |t| then Some(t[i]) else None
  }

  function Marked(t: seq<Entry>, addr: Str, now: int): seq<Entry> {
    var i := FirstIndex(t, (x: Entry) => x.addr == addr);
    if i < |t| then t[i := t[i].(lastSeen := now)] else t
  }

  // ---------- what the specification promises ----------

  lemma FirstIndexIs(t: seq<Entry>, p: Entry -> bool, i: nat)
    requires i <= |t|
    requires i < |t| ==> p(t[i])
    requires forall j :: 0 <= j < i ==> !p(t[j])
    ensures FirstIndex(t, p) == i
  {
  }

  lemma SlotIs(t: seq<Entry>, e: Entry, i: nat)
    requires i <= |t|
    requires i < |t| ==> Clashes(t[i], e)
    requires forall j :: 0 <= j < i ==> !Clashes(t[j], e)
    ensures SlotOf(t, e) == i
  {
    FirstIndexIs(t, (x: Entry) => Clashes(x, e), i);
  }

  /** The first expected row is the one removed. */
  lemma RemovalIs(t: seq<Entry>, addr: Str, expectedEntry: int, i: nat)
    requires i <= |t|
    requires i < |t| ==> Expected(t[i], addr, expectedEntry)
    requires forall j :: 0 <= j < i ==> !Expected(t[j], addr, expectedEntry)
    ensures Without(t, addr, expectedEntry) == if i < |t| then t[..i] + t[i + 1..] else t
    ensures Removed(t, addr, expectedEntry) == if i < |t| then Some(t[i]) else None
  {
    FirstIndexIs(t, (x: Entry) => Expected(x, addr, expectedEntry), i);
  }

  /** Right after a registration both lookups return the new entry, whatever the table held. */
  lemma RegistrationIsVisible(t: seq<Entry>, e: Entry)
    ensures FindByAddr(Registered(t, e), e.addr) == Some(e)
    ensures FindByName(Registered(t, e), e.name) == Some(e)
  {
    var i := SlotOf(t, e);
    var r := Registered(t, e);
    assert r[i] == e;
    assert forall j :: 0 <= j < i ==> r[j] == t[j] && !Clashes(t[j], e);
    FirstIndexIs(r, (x: Entry) => x.addr == e.addr, i);
    FirstIndexIs(r, (x: Entry) => x.name == e.name, i);
  }

  /** No two rows share an address or a name. */
  ghost predicate Unique(t: seq<Entry>) {
    forall i, j :: 0 <= i < j < |t| ==> !Clashes(t[i], t[j])
  }

  /** At most one row has e's address or e's name. */
  ghost predicate ClashesAtMostOnce(t: seq<Entry>, e: Entry) {
    forall i, j :: 0 <= i < j < |t| ==> !(Clashes(t[i], e) && Clashes(t[j], e))
  }

  /**
   * A registration replaces only the first clashing row, so it keeps the rows unique exactly
   * when address and name do not clash with two different rows.
   */
  lemma RegistrationKeepsUniqueIff(t: seq<Entry>, e: Entry)
    requires Unique(t)
    ensures Unique(Registered(t, e)) <==> ClashesAtMostOnce(t, e)
  {
    var s := SlotOf(t, e);
    var r := Registered(t, e);
    if ClashesAtMostOnce(t, e) {
      forall i, j | 0 <= i < j < |r| ensures !Clashes(r[i], r[j]) {
        if s < |t| && i == s {
          assert Clashes(t[s], e);
          assert !Clashes(t[j], e);
        } else if s < |t| && j == s {
          assert !Clashes(t[i], e);
        } else if j == |t| {
          assert !Clashes(t[i], e);
        }
      }
    } else {
      var i, j :| 0 <= i < j < |t| && Clashes(t[i], e) && Clashes(t[j], e);
      assert s <= i;
      assert r[s] == e && r[j] == t[j];
      assert Clashes(r[s], r[j]);
    }
  }

  /** Address A1 registered under the name that belongs to A2's row leaves two rows for A2's name. */
  lemma RegistrationCanDuplicate(t: seq<Entry>, e: Entry)
    requires |t| == 2 && Unique(t)
    requires e.addr == t[0].addr && e.name == t[1].name
    ensures Registered(t, e) == [e, t[1]]
    ensures !Unique(Registered(t, e))
  {
    FirstIndexIs(t, (x: Entry) => Clashes(x, e), 0);
    var r := Registered(t, e);
    assert Clashes(r[0], r[1]);
  }

  lemma WithoutKeepsUnique(t: seq<Entry>, addr: Str, expectedEntry: int)
    requires Unique(t)
    ensures Unique(Without(t, addr, expectedEntry))
  {
  }

  // ---------- the imperative registry ----------

  /** A row object; the slice refers to it, and only LastSeen is ever assigned after creation. */
  class SlaveConnection {
    const addr: Str
    const name: Str
    const conn: Option<nat>
    const entryTime: int
    var lastSeen: int

    constructor (addr: Str, name: Str, conn: Option<nat>, now: int, entryTime: int)
      ensures Value() == Entry(addr, name, conn, now, entryTime)
    {
      this.addr := addr;
      this.name := name;
      this.conn := conn;
      this.entryTime := entryTime;
      this.lastSeen := now;
    }

    function Value(): Entry
      reads this
    {
      Entry(addr, name, conn, lastSeen, entryTime)
    }
  }

  function Values(rows: seq<SlaveConnection>): (t: seq<Entry>)
    reads rows
    ensures |t| == |rows|
    ensures forall i :: 0 <= i < |rows| ==> t[i] == rows[i].Value()
  {
    if |rows| == 0 then [] else [rows[0].Value()] + Values(rows[1..])
  }

  class Registry {
    var connections: seq<SlaveConnection>

    constructor ()
      ensures Valid() && connections == []
    {
      connections := [];
    }

    /** No row object occurs twice in the slice. */
    ghost predicate Valid()
      reads this
    {
      forall i, j :: 0 <= i < j < |connections| ==> connections[i] != connections[j]
    }

    ghost function Table(): seq<Entry>
      reads this, connections
    {
      Values(connections)
    }

    method GetConnectionByAddr(addr: Str) returns (c: SlaveConnection?)
      ensures c == null <==> FindByAddr(Table(), addr).None?
      ensures c != null ==> c in connections && FindByAddr(Table(), addr) == Some(c.Value())
    {
      ghost var p := (x: Entry) => x.addr == addr;
      for i := 0 to |connections|
        invariant forall j :: 0 <= j < i ==> connections[j].addr != addr
      {
        if connections[i].addr == addr {
          FirstIndexIs(Table(), p, i);
          return connections[i];
        }
      }
      FirstIndexIs(Table(), p, |connections|);
      return null;
    }

    method GetConnectionByMachineName(name: Str) returns (c: SlaveConnection?)
      ensures c == null <==> FindByName(Table(), name).None?
      ensures c != null ==> c in connections && FindByName(Table(), name) == Some(c.Value())
    {
      ghost var p := (x: Entry) => x.name == name;
      for i := 0 to |connections|
        invariant forall j :: 0 <= j < i ==> connections[j].name != name
      {
        if connections[i].name == name {
          FirstIndexIs(Table(), p, i);
          return connections[i];
        }
      }
      FirstIndexIs(Table(), p, |connections|);
      return null;
    }

    method GetConnectionsSnapshot() returns (snapshot: seq<Entry>)
      ensures snapshot == Table()
    {
      snapshot := [];
      for i := 0 to |connections|
        invariant snapshot == Table()[..i]
      {
        snapshot := snapshot + [connections[i].Value()];
      }
    }

    method AddOrReplaceConnection(conn: SlaveConnection) returns (replaced: SlaveConnection?)
      requires Valid() && conn !in connections
      modifies this`connections
      ensures Valid()
      ensures Table() == Registered(old(Table()), conn.Value())
      ensures replaced == null <==> Replaced(old(Table()), conn.Value()).None?
      ensures replaced != null ==> Replaced(old(Table()), conn.Value()) == Some(replaced.Value())
    {
      ghost var t, e := Table(), conn.Value();
      for i := 0 to |connections|
        invariant connections == old(connections)
        invariant forall j :: 0 <= j < i ==> !Clashes(t[j], e)
      {
        if connections[i].addr == conn.addr || connections[i].name == conn.name {
          SlotIs(t, e, i);
          replaced := connections[i];
          connections := connections[i := conn];
          assert Table() == t[i := e];
          return;
        }
      }
      SlotIs(t, e, |t|);
      connections := connections + [conn];
      assert Table() == t + [e];
      return null;
    }

    method RemoveConnection(addr: Str, expectedEntry: int) returns (removed: SlaveConnection?)
      requires Valid()
      modifies this`connections
      ensures Valid()
      ensures Table() == Without(old(Table()), addr, expectedEntry)
      ensures removed == null <==> Removed(old(Table()), addr, expectedEntry).None?
      ensures removed != null ==> Removed(old(Table()), addr, expectedEntry) == Some(removed.Value())
    {
      hide Without, Removed, Values;
      for i := 0 to |connections|
        invariant connections == old(connections)
        invariant forall j :: 0 <= j < i ==> !Expected(connections[j].Value(), addr, expectedEntry)
      {
        if connections[i].addr == addr && (expectedEntry == ZERO_TIME || connections[i].entryTime == expectedEntry) {
          RemovalIs(Table(), addr, expectedEntry, i);
          removed := connections[i];
          connections := connections[..i] + connections[i + 1..];
          assert Table() == old(Table())[..i] + old(Table())[i + 1..];
          return;
        }
      }
      RemovalIs(Table(), addr, expectedEntry, |connections|);
      return null;
    }

    method MarkSlaveHealthy(addr: Str, now: int)
      requires Valid()
      modifies connections
      ensures connections == old(connections)
      ensures Table() == Marked(old(Table()), addr, now)
    {
      hide FirstIndex;
      ghost var p := (x: Entry) => x.addr == addr;
      for i := 0 to |connections|
        invariant forall j :: 0 <= j < i ==> connections[j].addr != addr
        invariant forall j :: 0 <= j < |connections| ==> connections[j].lastSeen == old(connections[j].lastSeen)
      {
        if connections[i].addr == addr {
          FirstIndexIs(old(Table()), p, i);
          connections[i].lastSeen := now;
          assert Table() == Marked(old(Table()), addr, now);
          return;
        }
      }
      FirstIndexIs(old(Table()), p, |connections|);
      assert Table() == Marked(old(Table()), addr, now);
    }
  }
}
