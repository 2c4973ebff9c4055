/** What the sort package promises: an ordered rearrangement, for any total preorder. */
module Sorting {
  import opened Sequences
  import opened Text

  ghost predicate TotalPreorder<T(!new)>(leq: (T, T) -> bool) {
    && (forall x, y :: leq(x, y) || leq(y, x))
    && (forall x, y, z :: leq(x, y) && leq(y, z) ==> leq(x, z))
  }

  ghost predicate SortedBy<T>(s: seq<T>, leq: (T, T) -> bool) {
    forall i, j :: 0 <= i < j < |s| ==> leq(s[i], s[j])
  }

  ghost predicate Rearranges<T>(a: seq<T>, b: seq<T>) {
    multiset(a) == multiset(b)
  }

  lemma InsertedIsSorted<T>(s: seq<T>, k: nat, x: T, leq: (T, T) -> bool)
    requires SortedBy(s, leq) && k <= |s|
    requires forall j :: 0 <= j < k ==> leq(s[j], x)
    requires forall j :: k <= j < |s| ==> leq(x, s[j])
    ensures SortedBy(s[..k] + [x] + s[k..], leq)
  {
    var r := s[..k] + [x] + s[k..];
    assert forall i :: 0 <= i < k ==> r[i] == s[i];
    assert forall i :: k < i < |r| ==> r[i] == s[i - 1];
  }

  method Insert<T(!new)>(s: seq<T>, x: T, leq: (T, T) -> bool) returns (r: seq<T>)
    requires TotalPreorder(leq) && SortedBy(s, leq)
    ensures SortedBy(r, leq) && Rearranges(r, s + [x])
  {
    var k := |s|;
    while k > 0 && !leq(s[k - 1], x)
      invariant 0 <= k <= |s|
      invariant forall j :: k <= j < |s| ==> leq(x, s[j])
    {
      k := k - 1;
    }
    r := s[..k] + [x] + s[k..];
    forall j | 0 <= j < k ensures leq(s[j], x) {
      assert j < k - 1 ==> leq(s[j], s[k - 1]);
    }
    InsertedIsSorted(s, k, x, leq);
    assert s == s[..k] + s[k..];
  }

  method Sort<T(!new)>(s: seq<T>, leq: (T, T) -> bool) returns (r: seq<T>)
    requires TotalPreorder(leq)
    ensures SortedBy(r, leq) && Rearranges(r, s)
  {
    r := [];
    for i := 0 to |s|
      invariant SortedBy(r, leq) && Rearranges(r, s[..i])
    {
      assert s[..i + 1] == s[..i] + [s[i]];
      r := Insert(r, s[i], leq);
    }
    assert s[..|s|] == s;
  }

  lemma RearrangedMembers<T>(a: seq<T>, b: seq<T>)
    requires Rearranges(a, b)
    ensures |a| == |b| && forall x :: x in a <==> x in b
  {
    assert |multiset(a)| == |multiset(b)|;
    forall x ensures x in a <==> x in b {
      assert x in a <==> x in multiset(a);
      assert x in b <==> x in multiset(b);
    }
  }

  lemma TwiceMeansTwo<T>(a: seq<T>, i: nat, j: nat)
    requires i < j < |a| && a[i] == a[j]
    ensures multiset(a)[a[i]] >= 2
  {
    assert a == a[..j] + ([a[j]] + a[j + 1..]);
    assert a[..j][i] in multiset(a[..j]);
  }

  lemma {:induction false} OnceMeansOne<T>(b: seq<T>, x: T)
    requires Distinct(b)
    ensures multiset(b)[x] <= 1
  {
    if b != [] {
      var init, last := b[..|b| - 1], b[|b| - 1];
      OnceMeansOne(init, x);
      assert b == init + [last];
      if last == x {
        assert x !in init;
        assert x !in multiset(init);
      }
    }
  }

  lemma RearrangedDistinct<T>(a: seq<T>, b: seq<T>)
    requires Rearranges(a, b) && Distinct(b)
    ensures Distinct(a)
  {
    RearrangedMembers(a, b);
    forall i, j | 0 <= i < j < |a| ensures a[i] != a[j] {
      if a[i] == a[j] {
        TwiceMeansTwo(a, i, j);
        OnceMeansOne(b, a[i]);
      }
    }
  }

  /** Without repeats, the same members are the same multiset. */
  lemma SameMembersRearrange<T>(a: seq<T>, b: seq<T>)
    requires Distinct(a) && Distinct(b) && forall x :: x in a <==> x in b
    ensures Rearranges(a, b)
  {
    forall x ensures multiset(a)[x] == multiset(b)[x] {
      OnceMeansOne(a, x);
      OnceMeansOne(b, x);
      assert x in a <==> x in multiset(a);
      assert x in b <==> x in multiset(b);
    }
  }

  ghost predicate AntisymmetricOn<T>(s: seq<T>, leq: (T, T) -> bool) {
    forall i, j :: 0 <= i < |s| && 0 <= j < |s| && leq(s[i], s[j]) && leq(s[j], s[i]) ==> s[i] == s[j]
  }

  lemma HeadsAgree<T>(a: seq<T>, b: seq<T>, leq: (T, T) -> bool)
    requires SortedBy(a, leq) && SortedBy(b, leq) && Rearranges(a, b)
    requires AntisymmetricOn(a, leq) && a != [] && b != []
    ensures a[0] == b[0]
  {
    RearrangedMembers(a, b);
    assert b[0] in b && a[0] in a;
    var i :| 0 <= i < |a| && a[i] == b[0];
    var j :| 0 <= j < |b| && b[j] == a[0];
    assert i == 0 || leq(a[0], a[i]);
    assert j == 0 || leq(b[0], b[j]);
  }

  lemma TailsRearrange<T>(a: seq<T>, b: seq<T>)
    requires Rearranges(a, b) && a != [] && b != [] && a[0] == b[0]
    ensures Rearranges(a[1..], b[1..])
  {
    assert a == [a[0]] + a[1..] && b == [b[0]] + b[1..];
    assert multiset(a[1..]) == multiset(a) - multiset{a[0]};
    assert multiset(b[1..]) == multiset(b) - multiset{b[0]};
  }

  /** Where no two different elements tie, the order of the result is determined. */
  lemma {:induction false} SortedIsUnique<T>(a: seq<T>, b: seq<T>, leq: (T, T) -> bool)
    requires SortedBy(a, leq) && SortedBy(b, leq) && Rearranges(a, b)
    requires AntisymmetricOn(a, leq)
    ensures a == b
  {
    RearrangedMembers(a, b);
    if a != [] {
      HeadsAgree(a, b, leq);
      TailsRearrange(a, b);
      SortedIsUnique(a[1..], b[1..], leq);
      assert a == [a[0]] + a[1..] && b == [b[0]] + b[1..];
    }
  }

  // ---------- filtering sorted sequences ----------

  lemma {:induction false} SelectCount<T(!new)>(s: seq<T>, p: T -> bool, x: T)
    ensures multiset(Select(s, p))[x] == if p(x) then multiset(s)[x] else 0
  {
    if s != [] {
      SelectCount(s[..|s| - 1], p, x);
      assert s == s[..|s| - 1] + [s[|s| - 1]];
    }
  }

  lemma SelectRearranged<T(!new)>(a: seq<T>, b: seq<T>, p: T -> bool)
    requires Rearranges(a, b)
    ensures Rearranges(Select(a, p), Select(b, p))
  {
    forall x: T ensures multiset(Select(a, p))[x] == multiset(Select(b, p))[x] {
      SelectCount(a, p, x);
      SelectCount(b, p, x);
    }
  }

  lemma {:induction false} SelectSorted<T(!new)>(s: seq<T>, p: T -> bool, leq: (T, T) -> bool)
    requires SortedBy(s, leq)
    ensures SortedBy(Select(s, p), leq)
  {
    if s != [] {
      var init, last := s[..|s| - 1], s[|s| - 1];
      SelectSorted(init, p, leq);
      forall i | 0 <= i < |Select(init, p)| ensures leq(Select(init, p)[i], last) {
        assert Select(init, p)[i] in init;
        var j :| 0 <= j < |init| && init[j] == Select(init, p)[i];
        assert leq(s[j], s[|s| - 1]);
      }
    }
  }

  /** Two disjoint filters, put together, are the filter by either, up to order. */
  lemma SelectEither<T(!new)>(s: seq<T>, p: T -> bool, q: T -> bool, either: T -> bool)
    requires forall x :: either(x) <==> p(x) || q(x)
    requires forall x :: !(p(x) && q(x))
    ensures Rearranges(Select(s, p) + Select(s, q), Select(s, either))
  {
    forall x: T ensures multiset(Select(s, p) + Select(s, q))[x] == multiset(Select(s, either))[x] {
      SelectCount(s, p, x);
      SelectCount(s, q, x);
      SelectCount(s, either, x);
    }
  }

  // ---------- strings ----------

  /** Go's <= on strings. */
  function AtMost(): (Str, Str) -> bool {
    (a, b) => !Less(b, a)
  }

  lemma AtMostIsTotalPreorder()
    ensures TotalPreorder(AtMost())
  {
    forall x: Str, y: Str ensures AtMost()(x, y) || AtMost()(y, x) {
      if Less(x, y) {
        LessAsymmetric(x, y);
      }
    }
    forall x: Str, y: Str, z: Str | AtMost()(x, y) && AtMost()(y, z) ensures AtMost()(x, z) {
      AtMostTransitive(x, y, z);
    }
  }

  lemma AtMostTransitive(x: Str, y: Str, z: Str)
    requires !Less(y, x) && !Less(z, y)
    ensures !Less(z, x)
  {
    LessTotal(x, y);
    LessTotal(y, z);
    if Less(z, x) {
      if x == y {
      } else if y == z {
      } else {
        LessTransitive(x, y, z);
        LessAsymmetric(x, z);
      }
    }
  }

  /** Each element is less than every later one. */
  ghost predicate Ascending(s: seq<Str>) {
    forall i, j :: 0 <= i < j < |s| ==> Less(s[i], s[j])
  }

  /** s lists exactly the members of S, in ascending order. */
  ghost predicate AscendingListing(s: seq<Str>, S: set<Str>) {
    Ascending(s) && forall x :: x in s <==> x in S
  }

  ghost predicate LeastIn(x: Str, S: set<Str>) {
    x in S && forall y :: y in S && y != x ==> Less(x, y)
  }

  lemma {:induction false} LeastExists(S: set<Str>) returns (x: Str)
    requires S != {}
    ensures LeastIn(x, S)
    decreases S
  {
    x :| x in S;
    var rest := S - {x};
    assert forall z :: z in S ==> z == x || z in rest;
    if rest != {} {
      var y := LeastExists(rest);
      LessTotal(x, y);
      if Less(y, x) {
        LessAsymmetric(y, x);
        forall z | z in S && z != y ensures Less(y, z) {
        }
        x := y;
      } else {
        forall z | z in S && z != x ensures Less(x, z) {
          if z != y {
            LessTransitive(x, y, z);
          }
        }
      }
    }
  }

  /** The members of S in ascending order. */
  ghost function InOrder(S: set<Str>): (s: seq<Str>)
    ensures AscendingListing(s, S)
    ensures |s| == |S|
    decreases S
  {
    if S == {} then []
    else
      assert exists x :: LeastIn(x, S) by { var x := LeastExists(S); }
      var x :| LeastIn(x, S);
      assert S == (S - {x}) + {x};
      [x] + InOrder(S - {x})
  }

  lemma AscendingDistinct(s: seq<Str>)
    requires Ascending(s)
    ensures Distinct(s)
  {
    forall i, j | 0 <= i < j < |s| ensures s[i] != s[j] {
      LessAsymmetric(s[i], s[j]);
    }
  }

  lemma FirstsAgree(p: seq<Str>, s: seq<Str>)
    requires Ascending(p) && Ascending(s) && p != []
    requires forall x :: x in p ==> x in s
    requires forall x, y :: x in p && y in s && y !in p ==> Less(x, y)
    ensures s != [] && s[0] == p[0]
  {
    assert p[0] in s;
    var i :| 0 <= i < |s| && s[i] == p[0];
    assert i == 0 || Less(s[0], p[0]);
    if s[0] in p {
      var j :| 0 <= j < |p| && p[j] == s[0];
      assert j == 0 || Less(p[0], s[0]);
    }
    if Less(s[0], p[0]) {
      LessAsymmetric(s[0], p[0]);
    }
  }

  /** An ascending start of S with nothing smaller left out is a prefix of S in order. */
  lemma {:induction false} StartIsPrefix(p: seq<Str>, s: seq<Str>)
    requires Ascending(p) && Ascending(s)
    requires forall x :: x in p ==> x in s
    requires forall x, y :: x in p && y in s && y !in p ==> Less(x, y)
    ensures |p| <= |s| && p == s[..|p|]
  {
    if p != [] {
      FirstsAgree(p, s);
      var p', s' := p[1..], s[1..];
      AscendingDistinct(p);
      AscendingDistinct(s);
      assert p == [p[0]] + p' && s == [s[0]] + s';
      forall x | x in p' ensures x in s' {
        assert x in p && x != p[0];
      }
      forall x, y | x in p' && y in s' && y !in p' ensures Less(x, y) {
        assert y in s && y != s[0];
      }
      StartIsPrefix(p', s');
    }
  }
}
