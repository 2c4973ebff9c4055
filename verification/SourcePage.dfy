/** analyticsSourcePage: the smallest identities above a cursor, through a bounded max-heap. */
module SourcePage {
  import opened Sequences
  import opened Text
  import opened Sorting
  import opened Telemetry

  // ---------- the heap, as container/heap drives it ----------

  function Parent(k: nat): nat
    requires k > 0
  {
    (k - 1) / 2
  }

  /** v[i] <= v[j]. */
  predicate Le(v: seq<Str>, i: nat, j: nat)
    requires i < |v| && j < |v|
  {
    !Less(v[j], v[i])
  }

  /** Every element is at most its parent. */
  ghost predicate IsHeap(v: seq<Str>) {
    forall k :: 0 < k < |v| ==> Le(v, k, Parent(k))
  }

  /** A heap but for the edge above j; j's children are at most j's parent. */
  ghost predicate HeapButUp(v: seq<Str>, j: nat) {
    && (forall k :: 0 < k < |v| && k != j ==> Le(v, k, Parent(k)))
    && (forall k :: 0 < k < |v| && 0 < j < |v| && Parent(k) == j ==> Le(v, k, Parent(j)))
  }

  /** A heap but for the edges below i; i's children are at most i's parent. */
  ghost predicate HeapButDown(v: seq<Str>, i: nat) {
    && (forall k :: 0 < k < |v| && Parent(k) != i ==> Le(v, k, Parent(k)))
    && (forall k :: 0 < k < |v| && 0 < i < |v| && Parent(k) == i ==> Le(v, k, Parent(i)))
  }

  function Swapped(v: seq<Str>, i: nat, j: nat): (r: seq<Str>)
    requires i < |v| && j < |v|
    ensures |r| == |v|
  {
    v[i := v[j]][j := v[i]]
  }

  lemma SwappedRearranges(v: seq<Str>, i: nat, j: nat)
    requires i < |v| && j < |v|
    ensures Rearranges(v, Swapped(v, i, j))
  {
  }

  lemma LeTransitive(v: seq<Str>, i: nat, j: nat, k: nat)
    requires i < |v| && j < |v| && k < |v|
    requires Le(v, i, j) && Le(v, j, k)
    ensures Le(v, i, k)
  {
    AtMostTransitive(v[i], v[j], v[k]);
  }

  /** Swapping a too large element with its parent moves the broken edge up. */
  lemma UpStep(v: seq<Str>, j: nat)
    requires 0 < j < |v| && HeapButUp(v, j) && Less(v[Parent(j)], v[j])
    ensures HeapButUp(Swapped(v, Parent(j), j), Parent(j))
  {
    var i := Parent(j);
    var w := Swapped(v, i, j);
    LessAsymmetric(v[i], v[j]);
    forall k | 0 < k < |w| && k != i ensures Le(w, k, Parent(k)) {
      if k != j && Parent(k) == i {
        AtMostTransitive(v[k], v[i], v[j]);
      }
    }
    forall k | 0 < k < |w| && 0 < i && Parent(k) == i ensures Le(w, k, Parent(i)) {
      assert Le(v, i, Parent(i));
      if k != j {
        LeTransitive(v, k, i, Parent(i));
      }
    }
  }

  /** Swapping a too small element with its larger child moves the broken edges down. */
  lemma DownStep(v: seq<Str>, i: nat, j: nat)
    requires i < j < |v| && Parent(j) == i && HeapButDown(v, i) && Less(v[i], v[j])
    requires forall k :: 0 < k < |v| && Parent(k) == i ==> Le(v, k, j)
    ensures HeapButDown(Swapped(v, i, j), j)
  {
    var w := Swapped(v, i, j);
    LessAsymmetric(v[i], v[j]);
    forall k | 0 < k < |w| && Parent(k) != j ensures Le(w, k, Parent(k)) {
      if k == i {
        assert Le(v, j, Parent(i));
      }
    }
    forall k | 0 < k < |w| && Parent(k) == j ensures Le(w, k, Parent(j)) {
      assert Le(v, k, j);
    }
  }

  /** In a heap no element exceeds the root. */
  lemma {:induction false} RootIsLargest(v: seq<Str>, k: nat)
    requires IsHeap(v) && k < |v|
    ensures Le(v, k, 0)
    decreases k
  {
    if k == 0 {
      LessIrreflexive(v[0]);
    } else {
      RootIsLargest(v, Parent(k));
      LeTransitive(v, k, Parent(k), 0);
    }
  }

  class PageHeap {
    var values: seq<Str>

    constructor ()
      ensures values == []
    {
      values := [];
    }

    /** container/heap's up. */
    method Up(start: nat)
      requires start < |values| && HeapButUp(values, start)
      modifies this
      ensures IsHeap(values) && Rearranges(values, old(values))
    {
      var j: nat := start;
      while true
        invariant j < |values| && HeapButUp(values, j) && Rearranges(values, old(values))
        decreases j
      {
        if j == 0 {
          break;
        }
        var i := Parent(j);
        if !Less(values[i], values[j]) {
          break;
        }
        UpStep(values, j);
        SwappedRearranges(values, i, j);
        values := Swapped(values, i, j);
        j := i;
      }
    }

    /** heap.Push. */
    method Push(value: Str)
      requires IsHeap(values)
      modifies this
      ensures IsHeap(values) && Rearranges(values, old(values) + [value])
    {
      values := values + [value];
      ghost var pushed := values;
      forall k | 0 < k < |values| && k != |values| - 1 ensures Le(values, k, Parent(k)) {
        assert Le(old(values), k, Parent(k));
      }
      Up(|values| - 1);
      assert Rearranges(values, pushed);
    }

    /** heap.Fix at the root after its value was replaced: container/heap's down. */
    method FixRoot()
      requires values != [] && HeapButDown(values, 0)
      modifies this
      ensures IsHeap(values) && Rearranges(values, old(values))
    {
      var i := 0;
      while true
        invariant i < |values| && HeapButDown(values, i) && Rearranges(values, old(values))
        decreases |values| - i
      {
        var left := 2 * i + 1;
        if left >= |values| {
          break;
        }
        var j := left;
        if left + 1 < |values| && Less(values[left], values[left + 1]) {
          j := left + 1;
          LessAsymmetric(values[left], values[left + 1]);
        }
        LessIrreflexive(values[j]);
        assert forall k :: 0 < k < |values| && Parent(k) == i ==> k == left || k == left + 1;
        if !Less(values[i], values[j]) {
          forall k | 0 < k < |values| && Parent(k) == i ensures Le(values, k, i) {
            LeTransitive(values, k, j, i);
          }
          break;
        }
        DownStep(values, i, j);
        SwappedRearranges(values, i, j);
        values := Swapped(values, i, j);
        i := j;
      }
    }
  }

  // ---------- the page ----------

  /** The identities a request may still list. */
  ghost function Above(sources: set<Str>, hasCursor: bool, after: Str): set<Str> {
    set x | x in sources && !(hasCursor && !Less(after, x))
  }

  ghost function Min(a: int, b: int): int { if a < b then a else b }

  /** kept holds the n smallest of the seen candidates, or all of them if there are fewer. */
  ghost predicate KeepsSmallest(kept: seq<Str>, seen: set<Str>, n: nat) {
    && Distinct(kept)
    && (forall x :: x in kept ==> x in seen)
    && |kept| == Min(n, |seen|)
    && (forall x, y :: x in kept && y in seen && y !in kept ==> Less(x, y))
  }

  lemma {:induction false} DistinctCount(s: seq<Str>)
    requires Distinct(s)
    ensures |set x | x in s| == |s|
  {
    if s != [] {
      var init, last := s[..|s| - 1], s[|s| - 1];
      DistinctCount(init);
      assert (set x | x in s) == (set x | x in init) + {last};
    }
  }

  /** The invariant does not see the order of what is kept. */
  lemma KeptRearranged(a: seq<Str>, b: seq<Str>, seen: set<Str>, n: nat)
    requires Rearranges(a, b) && KeepsSmallest(b, seen, n)
    ensures KeepsSmallest(a, seen, n)
  {
    RearrangedMembers(a, b);
    RearrangedDistinct(a, b);
  }

  lemma KeptIsAll(kept: seq<Str>, seen: set<Str>, n: nat)
    requires KeepsSmallest(kept, seen, n) && |kept| < n
    ensures forall x :: x in seen ==> x in kept
  {
    DistinctCount(kept);
    var k := set x | x in kept;
    assert k <= seen;
    assert |seen - k| == |seen| - |k|;
    assert seen - k == {};
  }

  /** Room left: the new candidate is kept as well. */
  lemma KeepOneMore(kept: seq<Str>, seen: set<Str>, n: nat, x: Str)
    requires KeepsSmallest(kept, seen, n) && x !in seen && |kept| < n
    ensures KeepsSmallest(kept + [x], seen + {x}, n)
  {
    KeptIsAll(kept, seen, n);
    assert |seen + {x}| == |seen| + 1;
  }

  /** No room, and the new candidate is smaller than the largest kept one: it takes its place. */
  lemma KeepInstead(kept: seq<Str>, seen: set<Str>, n: nat, x: Str)
    requires KeepsSmallest(kept, seen, n) && x !in seen && |kept| == n > 0
    requires forall k :: 0 <= k < |kept| ==> Le(kept, k, 0)
    requires Less(x, kept[0])
    ensures KeepsSmallest(kept[0 := x], seen + {x}, n)
  {
    var kept', top := kept[0 := x], kept[0];
    assert |seen + {x}| == |seen| + 1;
    forall y | y in kept' ensures y == x || (y in kept && y != top) {
      var i :| 0 <= i < |kept'| && kept'[i] == y;
      assert i == 0 || y == kept[i];
    }
    forall z | z in kept && z != top ensures z in kept' {
      var i :| 0 <= i < |kept| && kept[i] == z;
      assert kept'[i] == z;
    }
    forall y | y in kept && y != top ensures Less(y, top) {
      var m :| 0 <= m < |kept| && kept[m] == y;
      assert Le(kept, m, 0);
      LessTotal(y, top);
    }
    assert kept'[0] == x && top in kept;
    forall y, z | y in kept' && z in seen + {x} && z !in kept' ensures Less(y, z) {
      if z !in kept && y == x {
        LessTransitive(x, top, z);
      }
    }
  }

  /** No room, and the new candidate is not smaller: it is dropped. */
  lemma KeepSame(kept: seq<Str>, seen: set<Str>, n: nat, x: Str)
    requires KeepsSmallest(kept, seen, n) && x !in seen && |kept| == n > 0
    requires forall k :: 0 <= k < |kept| ==> Le(kept, k, 0)
    requires !Less(x, kept[0])
    ensures KeepsSmallest(kept, seen + {x}, n)
  {
    assert |seen + {x}| == |seen| + 1;
    forall y, z | y in kept && z in seen + {x} && z !in kept ensures Less(y, z) {
      if z == x {
        var m :| 0 <= m < |kept| && kept[m] == y;
        assert Le(kept, m, 0);
        assert kept[0] in kept;
        AtMostTransitive(y, kept[0], x);
        LessTotal(y, x);
      }
    }
  }

  /** Sorted and cut, what is kept is the start of the candidates in ascending order. */
  lemma SortedIsStart(sorted: seq<Str>, seen: set<Str>, n: nat)
    requires KeepsSmallest(sorted, seen, n) && SortedBy(sorted, AtMost())
    ensures |sorted| <= |InOrder(seen)| && sorted == InOrder(seen)[..|sorted|]
  {
    forall i, j | 0 <= i < j < |sorted| ensures Less(sorted[i], sorted[j]) {
      assert AtMost()(sorted[i], sorted[j]);
      LessTotal(sorted[i], sorted[j]);
    }
    StartIsPrefix(sorted, InOrder(seen));
  }

  /** sort.Strings. */
  method SortStrings(s: seq<Str>) returns (r: seq<Str>)
    ensures SortedBy(r, AtMost()) && Rearranges(r, s)
  {
    AtMostIsTotalPreorder();
    r := Sort(s, AtMost());
  }

  /** One candidate offered to the heap. */
  method Offer(heap: PageHeap, x: Str, n: nat, ghost seen: set<Str>)
    requires n > 0 && IsHeap(heap.values) && KeepsSmallest(heap.values, seen, n) && x !in seen
    modifies heap
    ensures IsHeap(heap.values) && KeepsSmallest(heap.values, seen + {x}, n)
  {
    if |heap.values| < n {
      KeepOneMore(heap.values, seen, n, x);
      ghost var next := heap.values + [x];
      heap.Push(x);
      KeptRearranged(heap.values, next, seen + {x}, n);
      return;
    }
    forall k | 0 <= k < |heap.values| ensures Le(heap.values, k, 0) {
      RootIsLargest(heap.values, k);
    }
    if Less(x, heap.values[0]) {
      KeepInstead(heap.values, seen, n, x);
      ghost var before := heap.values;
      heap.values := heap.values[0 := x];
      forall k | 0 < k < |heap.values| && Parent(k) != 0 ensures Le(heap.values, k, Parent(k)) {
        assert Le(before, k, Parent(k));
      }
      ghost var next := heap.values;
      heap.FixRoot();
      KeptRearranged(heap.values, next, seen + {x}, n);
    } else {
      KeepSame(heap.values, seen, n, x);
    }
  }

  lemma AboveStep(done: set<Str>, x: Str, hasCursor: bool, after: Str)
    ensures Above(done + {x}, hasCursor, after)
         == if hasCursor && !Less(after, x) then Above(done, hasCursor, after) else Above(done, hasCursor, after) + {x}
  {
  }

  /** The loop over the map: done grows in an order nothing is known about. */
  method Collect(sources: set<Str>, after: Str, hasCursor: bool, n: nat) returns (heap: PageHeap)
    requires n > 0
    ensures KeepsSmallest(heap.values, Above(sources, hasCursor, after), n)
  {
    heap := new PageHeap();
    var rest := sources;
    ghost var done: set<Str> := {};
    while rest != {}
      invariant done !! rest && done + rest == sources
      invariant fresh(heap) && IsHeap(heap.values)
      invariant KeepsSmallest(heap.values, Above(done, hasCursor, after), n)
      decreases |rest|
    {
      var identity := Pick(rest);
      rest := rest - {identity};
      AboveStep(done, identity, hasCursor, after);
      if !hasCursor || Less(after, identity) {
        Offer(heap, identity, n, Above(done, hasCursor, after));
      }
      done := done + {identity};
    }
    assert done == sources;
  }

  /**
   * For every visiting order of the source map: the page is the first limit identities above the
   * cursor in ascending order, and hasMore says whether any remain.
   */
  method Page(sources: set<Str>, after: Str, hasCursor: bool, limit: nat)
      returns (page: seq<Str>, hasMore: bool)
    requires limit >= 1
    ensures var all := InOrder(Above(sources, hasCursor, after));
      && page == all[..Min(limit, |all|)]
      && (hasMore <==> |all| > limit)
  {
    var heap := Collect(sources, after, hasCursor, limit + 1);
    ghost var seen := Above(sources, hasCursor, after);
    var sorted := SortStrings(heap.values);
    KeptRearranged(sorted, heap.values, seen, limit + 1);
    SortedIsStart(sorted, seen, limit + 1);
    hasMore := |sorted| > limit;
    page := if hasMore then sorted[..limit] else sorted;
  }
}
