/** countAnalyticsSourceDimensions: distinct listeners and destinations per source, by sort and scan. */
module SourceDimensions {
  import opened Text
  import opened Sorting

  /** What the counting reads of a path accumulator. */
  datatype PathRow = PathRow(key: Str, source: Str, listener: Str, destination: Str)

  // ---------- the order of one scan ----------

  /** The comparison given to sort.Slice: source, then the counted field, then the path key. */
  predicate Before(field: PathRow -> Str, a: PathRow, b: PathRow) {
    if a.source != b.source then Less(a.source, b.source)
    else if field(a) != field(b) then Less(field(a), field(b))
    else Less(a.key, b.key)
  }

  function ScanOrder(field: PathRow -> Str): (PathRow, PathRow) -> bool {
    (a, b) => !Before(field, b, a)
  }

  /** A comparison by one string, deferring ties. */
  predicate Lexicographic(x: Str, y: Str, tie: bool) {
    Less(x, y) || (x == y && tie)
  }

  lemma ScanOrderIs(field: PathRow -> Str, a: PathRow, b: PathRow)
    ensures ScanOrder(field)(a, b)
        <==> Lexicographic(a.source, b.source, Lexicographic(field(a), field(b), !Less(b.key, a.key)))
  {
    Compare(a.source, b.source);
    Compare(field(a), field(b));
  }

  lemma Compare(x: Str, y: Str)
    ensures Less(x, y) ==> !Less(y, x) && x != y
    ensures !Less(x, y) && x != y ==> Less(y, x)
  {
    LessTotal(x, y);
    if Less(x, y) {
      LessAsymmetric(x, y);
    }
  }

  lemma LexicographicTransitive(x: Str, y: Str, z: Str, p: bool, q: bool, r: bool)
    requires Lexicographic(x, y, p) && Lexicographic(y, z, q) && (p && q ==> r)
    ensures Lexicographic(x, z, r)
  {
    if Less(x, y) && Less(y, z) {
      LessTransitive(x, y, z);
    }
  }

  lemma ScanOrderTransitive(field: PathRow -> Str, a: PathRow, b: PathRow, c: PathRow)
    requires ScanOrder(field)(a, b) && ScanOrder(field)(b, c)
    ensures ScanOrder(field)(a, c)
  {
    ScanOrderIs(field, a, b);
    ScanOrderIs(field, b, c);
    ScanOrderIs(field, a, c);
    var ab, bc, ac := !Less(b.key, a.key), !Less(c.key, b.key), !Less(c.key, a.key);
    if ab && bc {
      AtMostTransitive(a.key, b.key, c.key);
    }
    var ab', bc', ac' := Lexicographic(field(a), field(b), ab), Lexicographic(field(b), field(c), bc),
      Lexicographic(field(a), field(c), ac);
    if ab' && bc' {
      LexicographicTransitive(field(a), field(b), field(c), ab, bc, ac);
    }
    LexicographicTransitive(a.source, b.source, c.source, ab', bc', ac');
  }

  lemma ScanOrderIsTotalPreorder(field: PathRow -> Str)
    ensures TotalPreorder(ScanOrder(field))
  {
    forall a: PathRow, b: PathRow ensures ScanOrder(field)(a, b) || ScanOrder(field)(b, a) {
      Compare(a.source, b.source);
      Compare(field(a), field(b));
      Compare(a.key, b.key);
    }
    forall a: PathRow, b: PathRow, c: PathRow | ScanOrder(field)(a, b) && ScanOrder(field)(b, c)
      ensures ScanOrder(field)(a, c)
    {
      ScanOrderTransitive(field, a, b, c);
    }
  }

  // ---------- one scan ----------

  /** The different values of a field among the paths of one source. */
  ghost function FieldsOf(paths: seq<PathRow>, source: Str, field: PathRow -> Str): set<Str> {
    set i | 0 <= i < |paths| && paths[i].source == source :: field(paths[i])
  }

  /** A pair that two sorted rows share is also the pair of every row between them. */
  lemma BetweenEquals(paths: seq<PathRow>, field: PathRow -> Str, i: nat, j: nat, k: nat)
    requires SortedBy(paths, ScanOrder(field)) && i <= j < k < |paths|
    requires paths[i].source == paths[k].source && field(paths[i]) == field(paths[k])
    ensures paths[j].source == paths[k].source && field(paths[j]) == field(paths[k])
  {
    if i < j {
      ScanOrderIs(field, paths[i], paths[j]);
      ScanOrderIs(field, paths[j], paths[k]);
      Compare(paths[i].source, paths[j].source);
      Compare(field(paths[i]), field(paths[j]));
    }
  }

  lemma FieldsAppend(paths: seq<PathRow>, i: nat, source: Str, field: PathRow -> Str)
    requires i < |paths|
    ensures FieldsOf(paths[..i + 1], source, field)
         == if paths[i].source == source then FieldsOf(paths[..i], source, field) + {field(paths[i])}
            else FieldsOf(paths[..i], source, field)
    ensures |FieldsOf(paths[..i + 1], source, field)| == |FieldsOf(paths[..i], source, field)|
          + if paths[i].source == source && field(paths[i]) !in FieldsOf(paths[..i], source, field) then 1 else 0
  {
    var more, fewer := FieldsOf(paths[..i + 1], source, field), FieldsOf(paths[..i], source, field);
    forall x | x in more ensures x in fewer || (paths[i].source == source && x == field(paths[i])) {
      var j :| 0 <= j < i + 1 && paths[..i + 1][j].source == source && x == field(paths[..i + 1][j]);
      assert j < i ==> paths[..i][j] == paths[..i + 1][j];
    }
    forall x | x in fewer ensures x in more {
      var j :| 0 <= j < i && paths[..i][j].source == source && x == field(paths[..i][j]);
      assert paths[..i + 1][j] == paths[..i][j];
    }
    if paths[i].source == source {
      assert field(paths[..i + 1][i]) in more;
    }
    assert field(paths[i]) in fewer ==> more == fewer;
  }

  /** The counters are right for the first n paths. */
  ghost predicate Counted(counts: map<Str, int>, selected: set<Str>, paths: seq<PathRow>, field: PathRow -> Str) {
    counts.Keys == selected && forall s :: s in selected ==> counts[s] == |FieldsOf(paths, s, field)|
  }

  /** q is the last selected path before i, or -1 if there is none. */
  ghost predicate LastSelected(q: int, i: nat, paths: seq<PathRow>, selected: set<Str>)
    requires i <= |paths|
  {
    -1 <= q < i && (q >= 0 ==> paths[q].source in selected)
    && forall j :: q < j < i ==> paths[j].source !in selected
  }

  /** The pair of path i has been seen before exactly if the last selected path has it. */
  lemma SeenIffPrevious(paths: seq<PathRow>, field: PathRow -> Str, selected: set<Str>, i: nat, q: int)
    requires SortedBy(paths, ScanOrder(field)) && i < |paths| && paths[i].source in selected
    requires LastSelected(q, i, paths, selected)
    ensures field(paths[i]) in FieldsOf(paths[..i], paths[i].source, field)
       <==> q >= 0 && paths[q].source == paths[i].source && field(paths[q]) == field(paths[i])
  {
    var seen := FieldsOf(paths[..i], paths[i].source, field);
    if field(paths[i]) in seen {
      var m :| 0 <= m < i && paths[..i][m].source == paths[i].source && field(paths[i]) == field(paths[..i][m]);
      assert paths[m] == paths[..i][m];
      BetweenEquals(paths, field, m, q, i);
    }
    if q >= 0 && paths[q].source == paths[i].source && field(paths[q]) == field(paths[i]) {
      assert paths[..i][q] == paths[q];
    }
  }

  /** One more path, counted if its pair is new. */
  lemma CountedStep(counts: map<Str, int>, selected: set<Str>, paths: seq<PathRow>, field: PathRow -> Str, i: nat)
    requires i < |paths| && paths[i].source in selected && Counted(counts, selected, paths[..i], field)
    ensures var s := paths[i].source;
      var isNew := field(paths[i]) !in FieldsOf(paths[..i], s, field);
      Counted(counts[s := counts[s] + if isNew then 1 else 0], selected, paths[..i + 1], field)
  {
    forall s | s in selected
      ensures |FieldsOf(paths[..i + 1], s, field)| == counts[s]
        + if s == paths[i].source && field(paths[i]) !in FieldsOf(paths[..i], s, field) then 1 else 0
    {
      FieldsAppend(paths, i, s, field);
    }
  }

  /** A path of a source that is not selected changes no counter. */
  lemma SkippedStep(counts: map<Str, int>, selected: set<Str>, paths: seq<PathRow>, field: PathRow -> Str, i: nat)
    requires i < |paths| && paths[i].source !in selected && Counted(counts, selected, paths[..i], field)
    ensures Counted(counts, selected, paths[..i + 1], field)
  {
    forall s | s in selected ensures FieldsOf(paths[..i + 1], s, field) == FieldsOf(paths[..i], s, field) {
      FieldsAppend(paths, i, s, field);
    }
  }

  /** The scan: a counter moves when the pair differs from that of the previous selected path. */
  method Scan(paths: seq<PathRow>, selected: set<Str>, field: PathRow -> Str) returns (counts: map<Str, int>)
    requires SortedBy(paths, ScanOrder(field))
    ensures Counted(counts, selected, paths, field)
  {
    counts := map s | s in selected :: 0;
    var previousSource: Str, previousValue: Str := [], [];
    var havePrevious := false;
    ghost var q := -1;
    for i := 0 to |paths|
      invariant Counted(counts, selected, paths[..i], field)
      invariant LastSelected(q, i, paths, selected)
      invariant havePrevious <==> q >= 0
      invariant havePrevious ==> previousSource == paths[q].source && previousValue == field(paths[q])
    {
      var path := paths[i];
      if path.source !in selected {
        SkippedStep(counts, selected, paths, field, i);
        continue;
      }
      SeenIffPrevious(paths, field, selected, i, q);
      CountedStep(counts, selected, paths, field, i);
      if !havePrevious || path.source != previousSource || field(path) != previousValue {
        counts := counts[path.source := counts[path.source] + 1];
        previousSource, previousValue := path.source, field(path);
        havePrevious := true;
      }
      q := i;
    }
    assert paths[..|paths|] == paths;
  }

  // ---------- both scans ----------

  function Listener(): PathRow -> Str {
    (p: PathRow) => p.listener
  }

  function Destination(): PathRow -> Str {
    (p: PathRow) => p.destination
  }

  method SortAndScan(paths: seq<PathRow>, selected: set<Str>, field: PathRow -> Str)
      returns (sorted: seq<PathRow>, counts: map<Str, int>)
    ensures Rearranges(sorted, paths)
    ensures Counted(counts, selected, paths, field)
  {
    ScanOrderIsTotalPreorder(field);
    sorted := Sort(paths, ScanOrder(field));
    counts := Scan(sorted, selected, field);
    RearrangedMembers(sorted, paths);
    forall s | s in selected ensures FieldsOf(sorted, s, field) == FieldsOf(paths, s, field) {
      SameFields(sorted, paths, s, field);
    }
  }

  lemma SameFields(a: seq<PathRow>, b: seq<PathRow>, source: Str, field: PathRow -> Str)
    requires forall p :: p in a <==> p in b
    ensures FieldsOf(a, source, field) == FieldsOf(b, source, field)
  {
    FieldsWithin(a, b, source, field);
    FieldsWithin(b, a, source, field);
  }

  lemma FieldsWithin(a: seq<PathRow>, b: seq<PathRow>, source: Str, field: PathRow -> Str)
    requires forall p :: p in a ==> p in b
    ensures FieldsOf(a, source, field) <= FieldsOf(b, source, field)
  {
    forall x | x in FieldsOf(a, source, field) ensures x in FieldsOf(b, source, field) {
      var i :| 0 <= i < |a| && a[i].source == source && x == field(a[i]);
      assert a[i] in b;
      var j :| 0 <= j < |b| && b[j] == a[i];
      assert field(b[j]) in FieldsOf(b, source, field);
    }
  }

  /**
   * Each selected source ends with the number of its distinct listeners and of its distinct
   * destinations, and the paths, sorted twice in place, are still the same paths.
   */
  method CountDimensions(paths: seq<PathRow>, selected: set<Str>)
      returns (sorted: seq<PathRow>, listeners: map<Str, int>, destinations: map<Str, int>)
    ensures Rearranges(sorted, paths)
    ensures Counted(listeners, selected, paths, Listener())
    ensures Counted(destinations, selected, paths, Destination())
  {
    var byListener;
    byListener, listeners := SortAndScan(paths, selected, Listener());
    sorted, destinations := SortAndScan(byListener, selected, Destination());
    RearrangedMembers(byListener, paths);
    forall s | s in selected ensures FieldsOf(byListener, s, Destination()) == FieldsOf(paths, s, Destination()) {
      SameFields(byListener, paths, s, Destination());
    }
  }
}
