/** The dnsmasq alias file: its printer and parser, and the operations that rewrite it. */
module AliasFile {
  import opened Options
  import opened Lines
  import opened Text
  import opened Sequences

  datatype Entry = Entry(alias: Str, ip: Str)

  const SLASH: Byte := 47
  const HASH: Byte := 35
  /** "# Managed by HyperHive" */
  const MANAGED_COMMENT: Str :=
    [35, 32, 77, 97, 110, 97, 103, 101, 100, 32, 98, 121, 32, 72, 121, 112, 101, 114, 72, 105, 118, 101]
  /** "address=/" */
  const ADDRESS: Str := [97, 100, 100, 114, 101, 115, 115, 61, 47]

  // ---------- reading ----------

  /** The index of the last slash, or -1. */
  function LastSlash(s: Str): (i: int)
    ensures -1 <= i < |s|
    ensures i >= 0 ==> s[i] == SLASH
    ensures forall k :: i < k < |s| ==> s[k] != SLASH
  {
    if s == [] then -1
    else if s[|s| - 1] == SLASH then |s| - 1
    else LastSlash(s[..|s| - 1])
  }

  /** One line of the file, read as an entry or skipped. */
  function ReadLine(raw: Str): Option<Entry> {
    var line := TrimSpace(raw);
    if line == [] || line[0] == HASH || !HasPrefix(line, ADDRESS) then None
    else
      var payload := line[|ADDRESS|..];
      var slash := LastSlash(payload);
      if slash < 1 then None
      else
        var alias, ip := payload[..slash], payload[slash + 1..];
        if alias != [] && ip != [] then Some(Entry(alias, ip)) else None
  }

  function ReadLines(lines: seq<Str>): seq<Entry> {
    if lines == [] then []
    else
      var before := ReadLines(lines[..|lines| - 1]);
      match ReadLine(lines[|lines| - 1])
      case None => before
      case Some(e) => before + [e]
  }

  /** strings.Split(data, "\n"). */
  function Split(data: Str): (lines: seq<Str>)
    ensures forall i :: 0 <= i < |lines| ==> NEWLINE !in lines[i]
    decreases |data|
  {
    var n := LineEnd(data);
    if n == |data| then [data] else [data[..n]] + Split(data[n + 1..])
  }

  /** What the file holds; a missing file holds nothing. */
  function Contents(file: Option<Str>): seq<Entry> {
    if file.None? then [] else ReadLines(Split(file.value))
  }

  lemma ReadLinesAppend(lines: seq<Str>, line: Str)
    ensures ReadLines(lines + [line])
         == ReadLines(lines) + match ReadLine(line) { case None => [] case Some(e) => [e] }
  {
    assert (lines + [line])[..|lines|] == lines;
  }

  method ReadAliases(file: Option<Str>) returns (entries: seq<Entry>)
    ensures entries == Contents(file)
  {
    entries := [];
    if file.None? {
      return;
    }
    var lines := Split(file.value);
    for i := 0 to |lines|
      invariant entries == ReadLines(lines[..i])
    {
      assert lines[..i + 1] == lines[..i] + [lines[i]];
      ReadLinesAppend(lines[..i], lines[i]);
      var entry := ReadLine(lines[i]);
      if entry.None? {
        continue;
      }
      entries := entries + [entry.value];
    }
    assert lines[..|lines|] == lines;
  }

  // ---------- writing ----------

  function Render(e: Entry): Str {
    ADDRESS + e.alias + [SLASH] + e.ip
  }

  function Rendered(entries: seq<Entry>): seq<Str> {
    seq(|entries|, i requires 0 <= i < |entries| => Render(entries[i]))
  }

  function Written(entries: seq<Entry>): Str {
    Unlines([MANAGED_COMMENT] + Rendered(entries))
  }

  method WriteAliases(entries: seq<Entry>) returns (data: Str)
    ensures data == Written(entries)
  {
    data := MANAGED_COMMENT + [NEWLINE];
    var none: seq<Str> := [];
    UnlinesAppend(none, MANAGED_COMMENT);
    NoLines();
    assert none + [MANAGED_COMMENT] == [MANAGED_COMMENT] + Rendered(entries)[..0];
    assert [] + MANAGED_COMMENT == MANAGED_COMMENT;
    for i := 0 to |entries|
      invariant data == Unlines([MANAGED_COMMENT] + Rendered(entries)[..i])
    {
      var line := Render(entries[i]);
      UnlinesAppend([MANAGED_COMMENT] + Rendered(entries)[..i], line);
      assert [MANAGED_COMMENT] + Rendered(entries)[..i + 1] == [MANAGED_COMMENT] + Rendered(entries)[..i] + [line];
      data := data + line + [NEWLINE];
    }
    assert Rendered(entries)[..|entries|] == Rendered(entries);
  }

  // ---------- what survives a round trip ----------

  /** An entry that one line can carry. */
  predicate WellFormed(e: Entry) {
    && e.alias != [] && NEWLINE !in e.alias
    && e.ip != [] && NEWLINE !in e.ip && SLASH !in e.ip && TrailingSpace(e.ip) == 0
  }

  ghost predicate AllWellFormed(entries: seq<Entry>) {
    forall e :: e in entries ==> WellFormed(e)
  }

  lemma {:induction false} LastSlashIs(a: Str, b: Str)
    requires SLASH !in b
    ensures LastSlash(a + [SLASH] + b) == |a|
  {
    var s := a + [SLASH] + b;
    if b != [] {
      LastSlashIs(a, b[..|b| - 1]);
      assert s[..|s| - 1] == a + [SLASH] + b[..|b| - 1];
      assert s[|s| - 1] == b[|b| - 1];
    }
  }

  lemma NothingToTrim(s: Str)
    requires LeadingSpace(s) == 0 && TrailingSpace(s) == 0
    ensures TrimSpace(s) == s
  {
  }

  lemma RenderIsOneLine(e: Entry)
    requires NEWLINE !in e.alias && NEWLINE !in e.ip
    ensures NEWLINE !in Render(e)
  {
  }

  /** An address line whose last slash stands in front of the address reads as the entry. */
  lemma AddressLineReads(line: Str, alias: Str, ip: Str)
    requires alias != [] && ip != []
    requires line == ADDRESS + (alias + [SLASH] + ip)
    requires TrimSpace(line) == line && LastSlash(alias + [SLASH] + ip) == |alias|
    ensures ReadLine(line) == Some(Entry(alias, ip))
  {
    hide TrimSpace, LastSlash;
    var payload := alias + [SLASH] + ip;
    assert line[0] == ADDRESS[0];
    assert line[..|ADDRESS|] == ADDRESS && line[|ADDRESS|..] == payload;
    assert payload[..|alias|] == alias && payload[|alias| + 1..] == ip;
  }

  lemma RenderReads(e: Entry)
    requires WellFormed(e)
    ensures ReadLine(Render(e)) == Some(e)
  {
    hide TrimSpace, LastSlash, ReadLine;
    var line, payload := Render(e), e.alias + [SLASH] + e.ip;
    assert line == ADDRESS + payload;
    assert line[0] == ADDRESS[0];
    EndBehindSlash(ADDRESS + e.alias, e.ip);
    NothingToTrim(line);
    LastSlashIs(e.alias, e.ip);
    AddressLineReads(line, e.alias, e.ip);
  }

  lemma SplitLine(line: Str, rest: Str)
    requires NEWLINE !in line
    ensures Split(line + [NEWLINE] + rest) == [line] + Split(rest)
  {
    hide LineEnd;
    var data := line + [NEWLINE] + rest;
    assert data[..|line|] == line && data[|line| + 1..] == rest;
    LineEndIs(data, |line|);
  }

  lemma SplitNothing()
    ensures Split([]) == [[]]
  {
  }

  lemma {:induction false} SplitUnlines(lines: seq<Str>)
    requires forall i :: 0 <= i < |lines| ==> NEWLINE !in lines[i]
    ensures Split(Unlines(lines)) == lines + [[]]
  {
    hide Unlines, Split;
    if lines == [] {
      NoLines();
      SplitNothing();
    } else {
      SplitUnlines(lines[1..]);
      UnlinesFront(lines);
      SplitLine(lines[0], Unlines(lines[1..]));
      assert lines == [lines[0]] + lines[1..];
    }
  }

  lemma CommentIsSkipped()
    ensures ReadLine(MANAGED_COMMENT) == None
  {
    hide TrimSpace;
    NothingToTrim(MANAGED_COMMENT);
  }

  lemma {:induction false} RenderedReads(entries: seq<Entry>)
    requires AllWellFormed(entries)
    ensures ReadLines([MANAGED_COMMENT] + Rendered(entries)) == entries
  {
    hide ReadLine, Render, WellFormed;
    if entries == [] {
      assert [MANAGED_COMMENT] + Rendered(entries) == [] + [MANAGED_COMMENT];
      ReadLinesAppend([], MANAGED_COMMENT);
      CommentIsSkipped();
    } else {
      var init, last := entries[..|entries| - 1], entries[|entries| - 1];
      RenderedReads(init);
      assert [MANAGED_COMMENT] + Rendered(entries) == [MANAGED_COMMENT] + Rendered(init) + [Render(last)];
      ReadLinesAppend([MANAGED_COMMENT] + Rendered(init), Render(last));
      RenderReads(last);
    }
  }

  /** What is behind a byte that no white-space character contains ends in white space iff the whole does. */
  lemma EndBehindSlash(a: Str, b: Str)
    ensures TrailingSpace(a + [SLASH] + b) == TrailingSpace(b)
  {
    var s := a + [SLASH] + b;
    assert s[|a|] == SLASH && s[|a| + 1..] == b;
    assert forall i :: 0 <= i < |b| ==> s[|a| + 1 + i] == b[i];
  }

  lemma TrimmedEnd(s: Str)
    ensures var t := TrimSpace(s); TrailingSpace(t) == 0 && forall b :: b in t ==> b in s
  {
    TrimRightEnd(s);
    TrimLeftEnd(TrimRight(s));
  }

  lemma {:induction false} TrimRightEnd(s: Str)
    ensures var t := TrimRight(s); TrailingSpace(t) == 0 && forall b :: b in t ==> b in s
    decreases |s|
  {
    if TrailingSpace(s) > 0 {
      TrimRightEnd(s[..|s| - TrailingSpace(s)]);
    }
  }

  lemma {:induction false} TrimLeftEnd(s: Str)
    requires TrailingSpace(s) == 0
    ensures var t := TrimLeft(s); TrailingSpace(t) == 0 && forall b :: b in t ==> b in s
    decreases |s|
  {
    if LeadingSpace(s) > 0 {
      SuffixEnd(s, LeadingSpace(s));
      TrimLeftEnd(s[LeadingSpace(s)..]);
    }
  }

  lemma SuffixEnd(s: Str, n: nat)
    requires TrailingSpace(s) == 0 && n <= |s|
    ensures TrailingSpace(s[n..]) == 0
  {
    var t := s[n..];
    assert forall i :: 0 <= i < |t| ==> t[i] == s[n + i];
  }

  lemma ReadIsWellFormed(line: Str)
    requires NEWLINE !in line && ReadLine(line).Some?
    ensures WellFormed(ReadLine(line).value)
  {
    hide TrimSpace, TrailingSpace, LastSlash;
    var t := TrimSpace(line);
    TrimmedEnd(line);
    var payload := t[|ADDRESS|..];
    var slash := LastSlash(payload);
    var alias, ip := payload[..slash], payload[slash + 1..];
    assert t == ADDRESS + alias + [SLASH] + ip;
    EndBehindSlash(ADDRESS + alias, ip);
    assert forall b :: b in alias || b in ip ==> b in t;
    assert forall k :: 0 <= k < |ip| ==> ip[k] == payload[slash + 1 + k];
  }

  lemma {:induction false} AllReadWellFormed(lines: seq<Str>)
    requires forall i :: 0 <= i < |lines| ==> NEWLINE !in lines[i]
    ensures AllWellFormed(ReadLines(lines))
  {
    if lines != [] {
      var last := lines[|lines| - 1];
      AllReadWellFormed(lines[..|lines| - 1]);
      if ReadLine(last).Some? {
        ReadIsWellFormed(last);
      }
    }
  }

  /** Whatever is read from a file is well formed. */
  lemma ContentsWellFormed(file: Option<Str>)
    ensures AllWellFormed(Contents(file))
  {
    if file.Some? {
      AllReadWellFormed(Split(file.value));
    }
  }

  /** Reading undoes writing exactly when every entry is well formed. */
  lemma RoundTripIff(entries: seq<Entry>)
    ensures Contents(Some(Written(entries))) == entries <==> AllWellFormed(entries)
  {
    if AllWellFormed(entries) {
      var lines := [MANAGED_COMMENT] + Rendered(entries);
      forall i | 0 <= i < |lines| ensures NEWLINE !in lines[i] {
        if i > 0 {
          assert entries[i - 1] in entries;
          RenderIsOneLine(entries[i - 1]);
        }
      }
      SplitUnlines(lines);
      ReadLinesAppend(lines, []);
      assert ReadLine([]) == None;
      RenderedReads(entries);
    } else {
      ContentsWellFormed(Some(Written(entries)));
    }
  }

  // ---------- the operations on the entries ----------

  function Differs(alias: Str, ip: Str): Entry -> bool {
    (e: Entry) => !(e.alias == alias && e.ip == ip)
  }

  /** The index of the first entry with the alias, or the length. */
  function FirstWith(entries: seq<Entry>, alias: Str): (i: nat)
    ensures i <= |entries|
    ensures forall k :: 0 <= k < i ==> entries[k].alias != alias
    ensures i < |entries| ==> entries[i].alias == alias
  {
    if entries == [] || entries[0].alias == alias then 0
    else
      var i := FirstWith(entries[1..], alias);
      assert forall k :: 1 <= k < i + 1 ==> entries[k] == entries[1..][k - 1];
      i + 1
  }

  /** AddAlias on the list: replace the address of the first such alias, or append. */
  function Upserted(entries: seq<Entry>, alias: Str, ip: Str): seq<Entry> {
    var i := FirstWith(entries, alias);
    if i < |entries| then entries[i := Entry(alias, ip)] else entries + [Entry(alias, ip)]
  }

  datatype Outcome = Unchanged | Updated | Missing

  /** The loop that updates the entries in place. */
  method SetAddress(entries: array<Entry>, alias: Str, ip: Str) returns (outcome: Outcome)
    modifies entries
    ensures var before, i := old(entries[..]), FirstWith(old(entries[..]), alias);
      && (outcome == Missing <==> i == |before|)
      && (outcome == Unchanged <==> i < |before| && before[i] == Entry(alias, ip))
      && entries[..] == if i < |before| then before[i := Entry(alias, ip)] else before
  {
    outcome := Missing;
    for i := 0 to entries.Length
      invariant entries[..] == old(entries[..])
      invariant forall k :: 0 <= k < i ==> entries[k].alias != alias
    {
      if entries[i].alias == alias {
        assert FirstWith(entries[..], alias) == i;
        if entries[i].ip == ip {
          assert entries[i] == Entry(alias, ip);
          return Unchanged;
        }
        entries[i] := entries[i].(ip := ip);
        return Updated;
      }
    }
  }

  /** The loop that filters into the front of the same array. */
  method FilterInPlace(entries: array<Entry>, alias: Str, ip: Str) returns (kept: nat, removed: bool)
    modifies entries
    ensures kept <= entries.Length
    ensures entries[..kept] == Select(old(entries[..]), Differs(alias, ip))
    ensures removed <==> Entry(alias, ip) in old(entries[..])
  {
    hide Select;
    kept, removed := 0, false;
    ghost var before := entries[..];
    SelectNone([], Differs(alias, ip));
    for i := 0 to entries.Length
      invariant kept <= i
      invariant entries[..kept] == Select(before[..i], Differs(alias, ip))
      invariant forall k :: i <= k < entries.Length ==> entries[k] == before[k]
      invariant removed <==> Entry(alias, ip) in before[..i]
    {
      var entry := entries[i];
      assert before[..i + 1] == before[..i] + [entry];
      SelectAppend(before[..i], entry, Differs(alias, ip));
      if entry.alias == alias && entry.ip == ip {
        removed := true;
        continue;
      }
      ghost var filtered := entries[..kept];
      entries[kept] := entry;
      kept := kept + 1;
      assert entries[..kept] == filtered + [entry];
    }
    assert before[..|before|] == before;
  }

  // ---------- the operations on the file ----------

  const FORBIDDEN: set<Byte> := {32, 9, 13, 10, 44}

  /** validateAliasIP: both arguments are trimmed here, and only here. */
  predicate Validates(parses: Str -> bool, alias: Str, ip: Str) {
    var a, i := TrimSpace(alias), TrimSpace(ip);
    && a != [] && i != []
    && (forall k :: 0 <= k < |a| ==> a[k] !in FORBIDDEN)
    && parses(i)
  }

  /** A blank alias, a blank address, an address that does not parse, or an alias with a space, tab or comma in it. */
  lemma Refused(parses: Str -> bool, alias: Str, ip: Str)
    ensures TrimSpace(alias) == [] || TrimSpace(ip) == [] || !parses(TrimSpace(ip)) ==> !Validates(parses, alias, ip)
    ensures forall before, after, c: Byte :: TrimSpace(alias) == before + [c] + after && c in {9, 10, 13, 32, 44} ==>
      !Validates(parses, alias, ip)
  {
    forall before: Str, after: Str, c: Byte | TrimSpace(alias) == before + [c] + after && c in {9, 10, 13, 32, 44}
      ensures !Validates(parses, alias, ip)
    {
      assert TrimSpace(alias)[|before|] == c;
    }
  }

  /** Every other pair is accepted. */
  lemma Accepted(parses: Str -> bool, alias: Str, ip: Str)
    requires TrimSpace(alias) != [] && TrimSpace(ip) != [] && parses(TrimSpace(ip))
    requires forall c :: c in TrimSpace(alias) ==> c !in {9, 10, 13, 32, 44}
    ensures Validates(parses, alias, ip)
  {
    var a := TrimSpace(alias);
    assert forall k :: 0 <= k < |a| ==> a[k] in a;
  }

  /**
   * What goes wrong around the file: reading it, creating its directory before the write, or the
   * include line and the restart behind the write.
   */
  datatype Fault = NoFault | ReadFault | DirectoryFault | LateFault

  datatype Status = Done | Invalid | NotFound | Failed

  class AliasStore {
    const parses: Str -> bool         // net.ParseIP succeeds
    var file: Option<Str>

    constructor (parses: Str -> bool, file: Option<Str>)
      ensures this.parses == parses && this.file == file
    {
      this.parses, this.file := parses, file;
    }

    method GetAlias(alias: Str, ip: Str, fault: Fault) returns (status: Status, found: bool)
      ensures status == if !Validates(parses, alias, ip) then Invalid else if fault == ReadFault then Failed else Done
      ensures found <==> status == Done && Entry(alias, ip) in Contents(file)
    {
      hide Validates, Contents, Written, FirstWith;
      if !Validates(parses, alias, ip) {
        return Invalid, false;
      }
      if fault == ReadFault {
        return Failed, false;
      }
      var entries := ReadAliases(file);
      for i := 0 to |entries|
        invariant Entry(alias, ip) !in entries[..i]
      {
        if entries[i].alias == alias && entries[i].ip == ip {
          assert entries[i] == Entry(alias, ip);
          return Done, true;
        }
      }
      assert entries[..|entries|] == entries;
      return Done, false;
    }

    /** AddAlias: an invalid pair changes nothing, and a pair that is there already writes nothing. */
    method AddAlias(alias: Str, ip: Str, fault: Fault) returns (status: Status)
      modifies this
      ensures var entries, i := Contents(old(file)), FirstWith(Contents(old(file)), alias);
        var present := i < |entries| && entries[i].ip == ip;
        && status == (if !Validates(parses, alias, ip) then Invalid
                      else if fault == NoFault || (present && fault != ReadFault) then Done else Failed)
        && file == (if status == Invalid || fault in {ReadFault, DirectoryFault} || present then old(file)
                    else Some(Written(Upserted(entries, alias, ip))))
    {
      hide Validates, Contents, Written, FirstWith;
      if !Validates(parses, alias, ip) {
        return Invalid;
      }
      if fault == ReadFault {
        return Failed;
      }
      var entries := ReadAliases(file);
      var a := new Entry[|entries|](i requires 0 <= i < |entries| => entries[i]);
      assert a[..] == entries;
      var outcome := SetAddress(a, alias, ip);
      if outcome == Unchanged {
        return Done;
      }
      var next := a[..];
      if outcome == Missing {
        next := next + [Entry(alias, ip)];
      }
      if fault == DirectoryFault {
        return Failed;
      }
      var data := WriteAliases(next);
      file := Some(data);
      return if fault == LateFault then Failed else Done;
    }

    method RemoveAlias(alias: Str, ip: Str, fault: Fault) returns (status: Status)
      modifies this
      ensures var entries := Contents(old(file));
        var present := Entry(alias, ip) in entries;
        && status == (if !Validates(parses, alias, ip) then Invalid
                      else if fault == ReadFault then Failed
                      else if !present then NotFound
                      else if fault == NoFault then Done else Failed)
        && file == (if status == Invalid || fault in {ReadFault, DirectoryFault} || !present then old(file)
                    else Some(Written(Select(entries, Differs(alias, ip)))))
    {
      hide Validates, Contents, Written, FirstWith;
      if !Validates(parses, alias, ip) {
        return Invalid;
      }
      if fault == ReadFault {
        return Failed;
      }
      var entries := ReadAliases(file);
      var a := new Entry[|entries|](i requires 0 <= i < |entries| => entries[i]);
      assert a[..] == entries;
      var kept, removed := FilterInPlace(a, alias, ip);
      if !removed {
        return NotFound;
      }
      if fault == DirectoryFault {
        return Failed;
      }
      var data := WriteAliases(a[..kept]);
      file := Some(data);
      return if fault == LateFault then Failed else Done;
    }
  }

  // ---------- what the operations mean ----------

  /** No alias twice. */
  ghost predicate UniqueAliases(entries: seq<Entry>) {
    forall i, j :: 0 <= i < j < |entries| ==> entries[i].alias != entries[j].alias
  }

  /** The list as a table; of repeated aliases the last counts. */
  function Table(entries: seq<Entry>): map<Str, Str> {
    if entries == [] then map[]
    else
      var last := entries[|entries| - 1];
      Table(entries[..|entries| - 1])[last.alias := last.ip]
  }

  lemma {:induction false} TableHolds(entries: seq<Entry>)
    requires UniqueAliases(entries)
    ensures forall a, ip :: a in Table(entries) && Table(entries)[a] == ip <==> Entry(a, ip) in entries
  {
    if entries != [] {
      TableHolds(entries[..|entries| - 1]);
      assert entries == entries[..|entries| - 1] + [entries[|entries| - 1]];
    }
  }

  /** After a successful AddAlias the pair is found if and only if one line can carry it. */
  lemma AddPersistsIff(file: Option<Str>, alias: Str, ip: Str)
    ensures Entry(alias, ip) in Contents(Some(Written(Upserted(Contents(file), alias, ip))))
       <==> WellFormed(Entry(alias, ip))
  {
    var next := Upserted(Contents(file), alias, ip);
    ContentsWellFormed(file);
    ContentsWellFormed(Some(Written(next)));
    if WellFormed(Entry(alias, ip)) {
      UpsertedMembers(Contents(file), alias, ip);
      RoundTripIff(next);
    }
  }

  lemma UpsertedMembers(entries: seq<Entry>, alias: Str, ip: Str)
    ensures Entry(alias, ip) in Upserted(entries, alias, ip)
    ensures forall e :: e in Upserted(entries, alias, ip) ==> e in entries || e == Entry(alias, ip)
  {
    var i, next := FirstWith(entries, alias), Upserted(entries, alias, ip);
    assert next[i] == Entry(alias, ip);
  }

  /** AddAlias with a well-formed pair is an upsert of the table, and keeps aliases unique. */
  lemma AddIsUpsert(file: Option<Str>, alias: Str, ip: Str)
    requires WellFormed(Entry(alias, ip)) && UniqueAliases(Contents(file))
    ensures var after := Contents(Some(Written(Upserted(Contents(file), alias, ip))));
      && after == Upserted(Contents(file), alias, ip)
      && UniqueAliases(after)
      && Table(after) == Table(Contents(file))[alias := ip]
  {
    var entries := Contents(file);
    var next := Upserted(entries, alias, ip);
    ContentsWellFormed(file);
    UpsertedMembers(entries, alias, ip);
    RoundTripIff(next);
    UpsertTable(entries, alias, ip);
  }

  lemma UpsertTable(entries: seq<Entry>, alias: Str, ip: Str)
    requires UniqueAliases(entries)
    ensures UniqueAliases(Upserted(entries, alias, ip))
    ensures Table(Upserted(entries, alias, ip)) == Table(entries)[alias := ip]
  {
    hide FirstWith;
    var i, next := FirstWith(entries, alias), Upserted(entries, alias, ip);
    if i < |entries| {
      UpdateTable(entries, i, ip);
    } else {
      assert next[..|entries|] == entries;
    }
  }

  lemma {:induction false} UpdateTable(entries: seq<Entry>, i: nat, ip: Str)
    requires i < |entries| && UniqueAliases(entries)
    ensures Table(entries[i := Entry(entries[i].alias, ip)]) == Table(entries)[entries[i].alias := ip]
  {
    var n := |entries| - 1;
    var next := entries[i := Entry(entries[i].alias, ip)];
    if i < n {
      UpdateTable(entries[..n], i, ip);
      assert next[..n] == entries[..n][i := Entry(entries[i].alias, ip)];
      assert entries[i].alias != entries[n].alias;
    } else {
      assert next[..n] == entries[..n];
    }
  }

  /** RemoveAlias drops the matching pair and nothing else. */
  lemma RemoveDropsOnlyThePair(file: Option<Str>, alias: Str, ip: Str)
    requires UniqueAliases(Contents(file)) && Entry(alias, ip) in Contents(file)
    ensures var after := Contents(Some(Written(Select(Contents(file), Differs(alias, ip)))));
      && after == Select(Contents(file), Differs(alias, ip))
      && UniqueAliases(after)
      && Table(after) == Table(Contents(file)) - {alias}
  {
    var entries := Contents(file);
    ContentsWellFormed(file);
    RoundTripIff(Select(entries, Differs(alias, ip)));
    RemoveTable(entries, alias, ip);
  }

  lemma {:induction false} SelectUnique(entries: seq<Entry>, p: Entry -> bool)
    requires UniqueAliases(entries)
    ensures UniqueAliases(Select(entries, p))
  {
    if entries != [] {
      var init, last := entries[..|entries| - 1], entries[|entries| - 1];
      SelectUnique(init, p);
      forall i | 0 <= i < |Select(init, p)| ensures Select(init, p)[i].alias != last.alias {
        assert Select(init, p)[i] in init;
      }
    }
  }

  lemma RemoveTable(entries: seq<Entry>, alias: Str, ip: Str)
    requires UniqueAliases(entries) && Entry(alias, ip) in entries
    ensures UniqueAliases(Select(entries, Differs(alias, ip)))
    ensures Table(Select(entries, Differs(alias, ip))) == Table(entries) - {alias}
  {
    var after := Select(entries, Differs(alias, ip));
    SelectUnique(entries, Differs(alias, ip));
    TableHolds(entries);
    TableHolds(after);
    var t, u := Table(entries), Table(after);
    forall a ensures a in u <==> a in t && a != alias {
      if a in u {
        assert Entry(a, u[a]) in after;
      }
      if a in t && a != alias {
        assert Entry(a, t[a]) in after;
      }
    }
    forall a | a in u ensures u[a] == t[a] {
      assert Entry(a, u[a]) in entries;
    }
  }

  /**
   * Validation trims, storing does not: the address "::" is accepted with a space or with a no-break
   * space behind it, and then not found again.
   */
  lemma UntrimmedAddressIsLost(parses: Str -> bool, ip: Str)
    requires parses([58, 58]) && ip in {[58, 58, 32], [58, 58, 0xC2, 0xA0]}
    ensures Validates(parses, [97], ip)
    ensures Entry([97], ip) !in Contents(Some(Written(Upserted(Contents(None), [97], ip))))
  {
    NothingToTrim([97]);
    NothingToTrim([58, 58]);
    assert ip[..|ip| - TrailingSpace(ip)] == [58, 58];
    AddPersistsIff(None, [97], ip);
  }
}
