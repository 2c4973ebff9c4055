/** Reading a log family, and deleting entries by rewriting it line by line. */
module LogRewrite {
  import opened Options
  import opened Lines
  import opened Text
  import opened Sequences
  import opened Telemetry

  /** A line of this many bytes or more does not fit the scanner's buffer. */
  const MAX_LINE: nat := 1024 * 1024

  /** How lines parse and which entries to delete; a blank line never parses. */
  datatype Rules = Rules(parse: Str -> Option<LogEntry>, remove: LogEntry -> bool) {
    ghost predicate Valid() {
      parse([]) == None
    }

    /** parse and remove, for a line already trimmed. */
    predicate Removes(line: Str) {
      parse(line).Some? && remove(parse(line).value)
    }
  }

  function Keeps(r: Rules): Str -> bool {
    (line: Str) => !r.Removes(line)
  }

  // ---------- bufio.Scanner with ScanLines ----------

  /** The lines before the end, or before the first line that is too long. */
  datatype Scanned = Scanned(lines: seq<Str>, tooLong: bool)

  /** One trailing carriage return is not part of the line. */
  function DropCR(line: Str): Str {
    if |line| > 0 && line[|line| - 1] == CARRIAGE_RETURN then line[..|line| - 1] else line
  }

  function Behind(content: Str): Str {
    var n := LineEnd(content);
    if n < |content| then content[n + 1..] else []
  }

  function Scan(content: Str): Scanned
    decreases |content|
  {
    if content == [] then Scanned([], false)
    else
      var n := LineEnd(content);
      if n >= MAX_LINE then Scanned([], true)
      else
        var rest := Scan(Behind(content));
        Scanned([DropCR(content[..n])] + rest.lines, rest.tooLong)
  }

  /** The lines with the white space around them trimmed: all that reading looks at. */
  function Trimmed(lines: seq<Str>): seq<Str> {
    seq(|lines|, i requires 0 <= i < |lines| => TrimSpace(lines[i]))
  }

  function LinesOf(content: Str): seq<Str> {
    Trimmed(Scan(content).lines)
  }

  // ---------- reading ----------

  /** The entries of the lines that parse, in order. */
  function Entries(r: Rules, lines: seq<Str>): seq<LogEntry> {
    if lines == [] then []
    else
      var before := Entries(r, lines[..|lines| - 1]);
      match r.parse(lines[|lines| - 1])
      case None => before
      case Some(e) => before + [e]
  }

  lemma EntriesAppend(r: Rules, lines: seq<Str>, line: Str)
    ensures Entries(r, lines + [line])
         == Entries(r, lines) + match r.parse(line) { case None => [] case Some(e) => [e] }
  {
    assert (lines + [line])[..|lines|] == lines;
  }

  /** readStreamLogFile: blank and unparsable lines are skipped, a line that is too long is an error. */
  method ReadFile(r: Rules, content: Str) returns (entries: Option<seq<LogEntry>>)
    requires r.Valid()
    ensures entries == if Scan(content).tooLong then None else Some(Entries(r, LinesOf(content)))
  {
    hide Scan, TrimSpace;
    var scanned := Scan(content);
    var found: seq<LogEntry> := [];
    for i := 0 to |scanned.lines|
      invariant found == Entries(r, LinesOf(content)[..i])
    {
      var line := TrimSpace(scanned.lines[i]);
      assert LinesOf(content)[..i + 1] == LinesOf(content)[..i] + [line];
      EntriesAppend(r, LinesOf(content)[..i], line);
      if line == [] {
        continue;
      }
      var entry := r.parse(line);
      if entry.None? {
        continue;
      }
      found := found + [entry.value];
    }
    assert LinesOf(content)[..|scanned.lines|] == LinesOf(content);
    if scanned.tooLong {
      return None;
    }
    return Some(found);
  }

  // ---------- rewriting one file ----------

  function Survives(r: Rules): Str -> bool {
    (line: Str) => !r.Removes(TrimSpace(line))
  }

  /** What is written back if it differs in length: the surviving lines, newline-terminated. */
  function Kept(r: Rules, content: Str): Str {
    Unlines(Select(Scan(content).lines, Survives(r)))
  }

  function Deleted(r: Rules, content: Str): nat {
    |Scan(content).lines| - |Select(Scan(content).lines, Survives(r))|
  }

  lemma KeptAppend(r: Rules, lines: seq<Str>, line: Str)
    ensures Select(lines + [line], Survives(r))
         == Select(lines, Survives(r)) + if r.Removes(TrimSpace(line)) then [] else [line]
    ensures Unlines(Select(lines + [line], Survives(r)))
         == Unlines(Select(lines, Survives(r))) + if r.Removes(TrimSpace(line)) then [] else line + [NEWLINE]
  {
    hide TrimSpace, Select, Unlines;
    var kept := Select(lines, Survives(r));
    SelectAppend(lines, line, Survives(r));
    if r.Removes(TrimSpace(line)) {
      assert kept + [] == kept && Unlines(kept) + [] == Unlines(kept);
    } else {
      UnlinesAppend(kept, line);
      assert Unlines(kept) + line + [NEWLINE] == Unlines(kept) + (line + [NEWLINE]);
    }
  }

  /** The file after a rewrite that met no line too long. */
  function Rewritten(r: Rules, content: Str): Str {
    if |Kept(r, content)| == |content| then content else Kept(r, content)
  }

  /** The part of rewriteStreamLogFamily for one file: how many deletions were counted, and the new content. */
  method RewriteFile(r: Rules, content: Str) returns (deleted: nat, after: Option<Str>)
    ensures deleted == Deleted(r, content)
    ensures after == if Scan(content).tooLong then None else Some(Rewritten(r, content))
  {
    hide Scan, TrimSpace, Unlines, Select, Survives;
    var scanned := Scan(content);
    var kept: Str := [];
    NoLines();
    SelectNone([], Survives(r));
    deleted := 0;
    for i := 0 to |scanned.lines|
      invariant kept == Unlines(Select(scanned.lines[..i], Survives(r)))
      invariant deleted == i - |Select(scanned.lines[..i], Survives(r))|
    {
      var line := scanned.lines[i];
      assert scanned.lines[..i + 1] == scanned.lines[..i] + [line];
      KeptAppend(r, scanned.lines[..i], line);
      var entry := r.parse(TrimSpace(line));
      if entry.Some? && r.remove(entry.value) {
        deleted := deleted + 1;
        continue;
      }
      kept := kept + line;
      kept := kept + [NEWLINE];
    }
    assert scanned.lines[..|scanned.lines|] == scanned.lines;
    if scanned.tooLong {
      return deleted, None;
    }
    if |kept| == |content| {
      return deleted, Some(content);
    }
    return deleted, Some(kept);
  }

  // ---------- what is written reads back ----------

  /** Lines that a newline-terminated file can hold. */
  ghost predicate Scannable(lines: seq<Str>) {
    forall i :: 0 <= i < |lines| ==> |lines[i]| < MAX_LINE && NEWLINE !in lines[i]
  }

  lemma ScanLine(line: Str, rest: Str)
    requires |line| < MAX_LINE && NEWLINE !in line
    ensures Scan(line + [NEWLINE] + rest) == Scanned([DropCR(line)] + Scan(rest).lines, Scan(rest).tooLong)
  {
    var content := line + [NEWLINE] + rest;
    assert content[..|line|] == line && content[|line|] == NEWLINE && content[|line| + 1..] == rest;
    LineEndIs(content, |line|);
  }

  /** The line as the scanner gives it: without the one carriage return that may end it. */
  ghost predicate WithoutCR(line: Str, raw: Str) {
    raw == line + [13] || (raw == line && (raw == [] || raw[|raw| - 1] != 13))
  }

  ghost predicate Unbroken(lines: seq<Str>) {
    forall i :: 0 <= i < |lines| ==> NEWLINE !in lines[i]
  }

  /** The raw lines of a content: the terminated ones, and what is behind the last newline if anything is. */
  function RawLines(raw: seq<Str>, last: Str): seq<Str> {
    if last == [] then raw else raw + [last]
  }

  /** A scan fails iff some raw line has 1048576 bytes or more; otherwise it gives every line, without its CR. */
  ghost predicate ScansAs(s: Scanned, all: seq<Str>) {
    && (s.tooLong <==> exists i :: 0 <= i < |all| && |all[i]| >= 1_048_576)
    && (!s.tooLong ==> |s.lines| == |all| && forall i :: 0 <= i < |all| ==> WithoutCR(s.lines[i], all[i]))
  }

  lemma {:induction false} ScanMeans(raw: seq<Str>, last: Str)
    requires Unbroken(raw) && NEWLINE !in last
    ensures ScansAs(Scan(Unlines(raw) + last), RawLines(raw, last))
  {
    hide Scan, ScansAs, Unlines;
    NoLines();
    if raw == [] {
      ScanLast(last);
      assert Unlines(raw) + last == last;
    } else {
      var rest := Unlines(raw[1..]) + last;
      ScanMeans(raw[1..], last);
      UnlinesFront(raw);
      assert Unlines(raw) + last == raw[0] + [NEWLINE] + rest;
      assert RawLines(raw, last) == [raw[0]] + RawLines(raw[1..], last);
      ScanFirst(raw[0], rest, RawLines(raw[1..], last));
    }
  }

  lemma ScanLast(last: Str)
    requires NEWLINE !in last
    ensures ScansAs(Scan(last), RawLines([], last))
  {
    assert forall i :: 0 <= i < |last| ==> last[i] != NEWLINE;
    assert last[..|last|] == last && Behind(last) == [];
    DropCRMeans(last);
    assert last != [] ==> RawLines([], last) == [last];
    assert |RawLines([], last)| > 0 ==> RawLines([], last)[0] == last;
  }

  lemma ScanFirst(line: Str, rest: Str, all: seq<Str>)
    requires NEWLINE !in line && ScansAs(Scan(rest), all)
    ensures ScansAs(Scan(line + [NEWLINE] + rest), [line] + all)
  {
    hide Scan, DropCR, WithoutCR;
    var longer := [line] + all;
    assert longer[0] == line && longer[1..] == all;
    if |line| < MAX_LINE {
      ScanLine(line, rest);
      DropCRMeans(line);
      if i :| 0 <= i < |all| && |all[i]| >= 1_048_576 {
        assert |longer[i + 1]| >= 1_048_576;
      }
    } else {
      ScanTooLong(line, rest);
    }
  }

  lemma ScanTooLong(line: Str, rest: Str)
    requires NEWLINE !in line && |line| >= MAX_LINE
    ensures Scan(line + [NEWLINE] + rest) == Scanned([], true)
  {
    var content := line + [NEWLINE] + rest;
    assert content[..|line|] == line && content[|line|] == NEWLINE;
    LineEndIs(content, |line|);
  }

  lemma DropCRMeans(line: Str)
    ensures WithoutCR(DropCR(line), line)
  {
  }

  /** Every content is so many terminated lines and a last one. */
  lemma {:induction false} EveryContentHasLines(content: Str) returns (raw: seq<Str>, last: Str)
    ensures Unbroken(raw) && NEWLINE !in last && content == Unlines(raw) + last
    decreases |content|
  {
    var n := LineEnd(content);
    if n == |content| {
      NoLines();
      return [], content;
    }
    raw, last := EveryContentHasLines(content[n + 1..]);
    var longer := [content[..n]] + raw;
    assert longer[1..] == raw;
    UnlinesFront(longer);
    raw := longer;
  }

  /** Written lines scan as themselves, but for a carriage return at their end. */
  lemma {:induction false} ScanUnlines(lines: seq<Str>)
    requires Scannable(lines)
    ensures !Scan(Unlines(lines)).tooLong
    ensures Trimmed(Scan(Unlines(lines)).lines) == Trimmed(lines)
  {
    if lines != [] {
      ScanUnlines(lines[1..]);
      UnlinesFront(lines);
      ScanLine(lines[0], Unlines(lines[1..]));
      TrimDropsCR(lines[0]);
      var scanned := Scan(Unlines(lines[1..])).lines;
      TrimmedCons(DropCR(lines[0]), scanned);
      TrimmedCons(lines[0], lines[1..]);
      assert lines == [lines[0]] + lines[1..];
    }
  }

  lemma TrimmedCons(line: Str, lines: seq<Str>)
    ensures Trimmed([line] + lines) == [TrimSpace(line)] + Trimmed(lines)
  {
  }

  lemma TrimDropsCR(line: Str)
    ensures TrimSpace(DropCR(line)) == TrimSpace(line)
  {
  }

  lemma {:induction false} ScannedIsScannable(content: Str)
    ensures Scannable(Scan(content).lines)
    decreases |content|
  {
    if content != [] && LineEnd(content) < MAX_LINE {
      ScannedIsScannable(Behind(content));
      var line := content[..LineEnd(content)];
      assert NEWLINE !in line;
      assert NEWLINE !in DropCR(line);
    }
  }

  lemma SurvivorsAreScannable(lines: seq<Str>, p: Str -> bool)
    requires Scannable(lines)
    ensures Scannable(Select(lines, p))
  {
    var s := Select(lines, p);
    forall i | 0 <= i < |s| ensures |s[i]| < MAX_LINE && NEWLINE !in s[i] {
      assert s[i] in lines;
    }
  }

  lemma TrimmedAppend(lines: seq<Str>, line: Str)
    ensures Trimmed(lines + [line]) == Trimmed(lines) + [TrimSpace(line)]
  {
  }

  /** Trimming the survivors is surviving among the trimmed. */
  lemma {:induction false} TrimmedSurvivors(r: Rules, lines: seq<Str>)
    ensures Trimmed(Select(lines, Survives(r))) == Select(Trimmed(lines), Keeps(r))
  {
    hide TrimSpace, Trimmed;
    if lines == [] {
      TrimmedNothing();
    } else {
      var init, last := lines[..|lines| - 1], lines[|lines| - 1];
      TrimmedSurvivors(r, init);
      assert lines == init + [last];
      TrimmedAppend(init, last);
      TrimmedAppend(Select(init, Survives(r)), last);
      SelectAppend(init, last, Survives(r));
      SelectAppend(Trimmed(init), TrimSpace(last), Keeps(r));
    }
  }

  lemma TrimmedNothing()
    ensures Trimmed([]) == []
  {
  }

  // ---------- the length shortcut ----------

  lemma EmptySurvives(r: Rules)
    requires r.Valid()
    ensures Survives(r)([])
  {
    hide TrimLeft, TrimRight;
    NothingInNothing();
  }

  lemma NothingInNothing()
    ensures TrimSpace([]) == []
  {
  }

  lemma UnlinesKept(r: Rules, line: Str, lines: seq<Str>)
    ensures Unlines(Select([line] + lines, Survives(r)))
         == (if Survives(r)(line) then line + [NEWLINE] else []) + Unlines(Select(lines, Survives(r)))
    ensures |[line] + lines| - |Select([line] + lines, Survives(r))|
         == (if Survives(r)(line) then 0 else 1) + |lines| - |Select(lines, Survives(r))|
  {
    hide TrimSpace, Select, Survives;
    SelectFront(line, lines, Survives(r));
    var kept := Select(lines, Survives(r));
    if Survives(r)(line) {
      UnlinesFront([line] + kept);
      assert ([line] + kept)[1..] == kept;
    } else {
      assert [] + kept == kept;
    }
  }

  lemma {:induction false} UnlinesShrinks(r: Rules, content: Str)
    requires r.Valid()
    ensures |Kept(r, content)| <= |content| + 1
    ensures Deleted(r, content) > 0 ==> |Kept(r, content)| < |content|
    decreases |content|
  {
    hide TrimSpace, Survives, Unlines;
    EmptySurvives(r);
    NoLines();
    if content == [] || LineEnd(content) >= MAX_LINE {
      assert Scan(content).lines == [];
    } else {
      var n, line := LineEnd(content), DropCR(content[..LineEnd(content)]);
      UnlinesShrinks(r, Behind(content));
      UnlinesKept(r, line, Scan(Behind(content)).lines);
      assert Scan(content).lines == [line] + Scan(Behind(content)).lines;
      assert |line| <= n && (line == [] || n > 0);
      assert n == |content| ==> Kept(r, Behind(content)) == [];
    }
  }

  lemma {:induction false} SelectFront(line: Str, lines: seq<Str>, p: Str -> bool)
    ensures Select([line] + lines, p) == (if p(line) then [line] else []) + Select(lines, p)
  {
    if lines == [] {
      assert [line] + lines == [line];
      assert Select([line], p) == if p(line) then [line] else [];
    } else {
      var init, last := lines[..|lines| - 1], lines[|lines| - 1];
      SelectFront(line, init, p);
      assert ([line] + lines)[..|lines|] == [line] + init;
    }
  }

  /** Equal lengths mean that nothing was deleted: the shortcut never hides a deletion. */
  lemma EqualLengthDeletesNothing(r: Rules, content: Str)
    requires r.Valid()
    ensures |Kept(r, content)| == |content| ==> Deleted(r, content) == 0
  {
    UnlinesShrinks(r, content);
  }

  // ---------- the main results for one file ----------

  /**
   * After a successful rewrite the file holds, up to the white space around each line, exactly the
   * old lines without the removed ones, in order; the count returned is how many went.
   */
  lemma RewriteKeepsTheRest(r: Rules, content: Str)
    requires r.Valid() && !Scan(content).tooLong
    ensures !Scan(Rewritten(r, content)).tooLong
    ensures LinesOf(Rewritten(r, content)) == Select(LinesOf(content), Keeps(r))
    ensures Deleted(r, content) == |LinesOf(content)| - |LinesOf(Rewritten(r, content))|
  {
    hide Scan, TrimSpace, Trimmed, Unlines, Select, Survives, Keeps;
    var lines := Scan(content).lines;
    TrimmedSurvivors(r, lines);
    TrimmedLength(lines);
    TrimmedLength(Select(lines, Survives(r)));
    if |Kept(r, content)| == |content| {
      EqualLengthDeletesNothing(r, content);
      NoneDropped(Trimmed(lines), Keeps(r));
    } else {
      ScannedIsScannable(content);
      SurvivorsAreScannable(lines, Survives(r));
      ScanUnlines(Select(lines, Survives(r)));
    }
  }

  lemma TrimmedLength(lines: seq<Str>)
    ensures |Trimmed(lines)| == |lines|
  {
  }

  function NotRemoved(r: Rules): LogEntry -> bool {
    (e: LogEntry) => !r.remove(e)
  }

  lemma {:induction false} EntriesOfKept(r: Rules, lines: seq<Str>)
    ensures Entries(r, Select(lines, Keeps(r))) == Select(Entries(r, lines), NotRemoved(r))
    ensures |lines| - |Select(lines, Keeps(r))| == |Entries(r, lines)| - |Select(Entries(r, lines), NotRemoved(r))|
  {
    if lines != [] {
      var init, last := lines[..|lines| - 1], lines[|lines| - 1];
      EntriesOfKept(r, init);
      EntriesAppend(r, Select(init, Keeps(r)), last);
      if r.parse(last).Some? {
        SelectAppend(Entries(r, init), r.parse(last).value, NotRemoved(r));
      }
    }
  }

  function Unparsable(r: Rules): Str -> bool {
    (line: Str) => r.parse(line).None?
  }

  /**
   * The file parses to the old entries without the removed ones, every line that does not parse is
   * still there, the count is the number of entries removed, and a second rewrite deletes nothing.
   */
  lemma RewriteMeans(r: Rules, content: Str)
    requires r.Valid() && !Scan(content).tooLong
    ensures var after := Rewritten(r, content);
      && Entries(r, LinesOf(after)) == Select(Entries(r, LinesOf(content)), NotRemoved(r))
      && Deleted(r, content) == |Entries(r, LinesOf(content))| - |Entries(r, LinesOf(after))|
      && Select(LinesOf(after), Unparsable(r)) == Select(LinesOf(content), Unparsable(r))
      && Deleted(r, after) == 0
  {
    hide Scan, TrimSpace, Trimmed, Unlines, Rewritten, Entries;
    var before, after := LinesOf(content), Rewritten(r, content);
    RewriteKeepsTheRest(r, content);
    EntriesOfKept(r, before);
    SelectTwice(before, Keeps(r), Unparsable(r), Unparsable(r));
    NothingLeft(r, after);
  }

  /** Where every line is kept, nothing is deleted. */
  lemma NothingLeft(r: Rules, content: Str)
    requires forall line :: line in LinesOf(content) ==> Keeps(r)(line)
    ensures Deleted(r, content) == 0
  {
    hide Scan, TrimSpace, Trimmed, Survives;
    TrimmedSurvivors(r, Scan(content).lines);
    SelectAll(LinesOf(content), Keeps(r));
    TrimmedLength(Scan(content).lines);
    TrimmedLength(Select(Scan(content).lines, Survives(r)));
  }

  // ---------- the family ----------

  /** The files of the family, oldest first; None is a path that no longer exists. */
  type Family = seq<Option<Str>>

  /** The i-th file was rewritten, or does not exist. */
  ghost predicate FileRewritten(r: Rules, before: Option<Str>, after: Option<Str>) {
    match before
    case None => after == None
    case Some(content) => !Scan(content).tooLong && after == Some(Rewritten(r, content))
  }

  function TotalDeleted(r: Rules, files: Family): nat {
    if files == [] then 0
    else
      TotalDeleted(r, files[..|files| - 1])
      + match files[|files| - 1] { case None => 0 case Some(content) => Deleted(r, content) }
  }

  /** What can go wrong with a file: reading it back (gzip too), or writing and renaming the new one. */
  datatype Fault = NoFault | ReadFault | WriteFault

  /** The file cannot be rewritten: unreadable, a line too long, or the new content not put in place. */
  predicate Stops(r: Rules, content: Str, fault: Fault) {
    || fault == ReadFault
    || Scan(content).tooLong
    || (fault == WriteFault && |Kept(r, content)| != |content|)
  }

  /**
   * File n stops the rewrite; the older ones are rewritten, and nothing else changed. Deletions were
   * counted up to file n, and in it as well if it could be read.
   */
  ghost predicate StoppedAt(r: Rules, files: Family, faults: seq<Fault>, after: Family, deleted: nat, n: nat)
    requires n < |files| == |after| == |faults|
  {
    && files[n].Some? && Stops(r, files[n].value, faults[n])
    && deleted == TotalDeleted(r, if faults[n] == ReadFault then files[..n] else files[..n + 1])
    && (forall i :: 0 <= i < n ==> FileRewritten(r, files[i], after[i]))
    && (forall i :: n <= i < |files| ==> after[i] == files[i])
  }

  /**
   * rewriteStreamLogFamily: it succeeds, with every file rewritten, exactly if no file stops it;
   * otherwise the first such file stops it, with the older files already rewritten and the rest untouched.
   */
  method RewriteFamily(r: Rules, files: Family, faults: seq<Fault>) returns (after: Family, deleted: nat, ok: bool)
    requires |faults| == |files|
    ensures |after| == |files|
    ensures ok <==> forall i :: 0 <= i < |files| && files[i].Some? ==> !Stops(r, files[i].value, faults[i])
    ensures ok ==> deleted == TotalDeleted(r, files)
    ensures ok ==> forall i :: 0 <= i < |files| ==> FileRewritten(r, files[i], after[i])
    ensures !ok ==> exists n :: 0 <= n < |files| && StoppedAt(r, files, faults, after, deleted, n)
  {
    hide Scan, Deleted, Kept;
    after, deleted, ok := files, 0, true;
    for i := 0 to |files|
      invariant |after| == |files| && deleted == TotalDeleted(r, files[..i])
      invariant forall k :: 0 <= k < i ==> FileRewritten(r, files[k], after[k])
      invariant forall k :: 0 <= k < i && files[k].Some? ==> !Stops(r, files[k].value, faults[k])
      invariant forall k :: i <= k < |files| ==> after[k] == files[k]
    {
      assert files[..i + 1][..i] == files[..i];
      if files[i].None? {
        continue;
      }
      if faults[i] == ReadFault {
        assert StoppedAt(r, files, faults, after, deleted, i);
        return after, deleted, false;
      }
      var n, content := RewriteFile(r, files[i].value);
      deleted := deleted + n;
      if content.None? || (faults[i] == WriteFault && |content.value| != |files[i].value|) {
        assert StoppedAt(r, files, faults, after, deleted, i);
        return after, deleted, false;
      }
      after := after[i := content];
    }
    assert files[..|files|] == files;
  }

  /** readStreamLogFamily, for files that read without error: all entries, oldest file first. */
  function FamilyEntries(r: Rules, files: Family): seq<LogEntry> {
    if files == [] then []
    else
      FamilyEntries(r, files[..|files| - 1])
      + match files[|files| - 1] { case None => [] case Some(content) => Entries(r, LinesOf(content)) }
  }

  /** A rewritten family reads as before without the removed entries, and a second rewrite deletes none. */
  lemma {:induction false} FamilyRewriteMeans(r: Rules, files: Family, after: Family)
    requires r.Valid() && |after| == |files|
    requires forall i :: 0 <= i < |files| ==> FileRewritten(r, files[i], after[i])
    ensures FamilyEntries(r, after) == Select(FamilyEntries(r, files), NotRemoved(r))
    ensures TotalDeleted(r, files) == |FamilyEntries(r, files)| - |FamilyEntries(r, after)|
    ensures TotalDeleted(r, after) == 0
  {
    hide Scan, Deleted, Rewritten, Entries, LinesOf;
    if files != [] {
      var n := |files| - 1;
      FamilyRewriteMeans(r, files[..n], after[..n]);
      assert FileRewritten(r, files[n], after[n]);
      if files[n].None? {
        assert FamilyEntries(r, files) == FamilyEntries(r, files[..n]);
        assert FamilyEntries(r, after) == FamilyEntries(r, after[..n]);
      } else {
        RewriteMeans(r, files[n].value);
        SelectConcat(FamilyEntries(r, files[..n]), Entries(r, LinesOf(files[n].value)), NotRemoved(r));
      }
    }
  }
}
