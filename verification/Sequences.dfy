/** Sequences without repeats, and the elements of a sequence that satisfy a predicate. */
module Sequences {
  ghost predicate Distinct<K>(ks: seq<K>) {
    forall i, j :: 0 <= i < j < |ks| ==> ks[i] != ks[j]
  }

  lemma InitOrLast<T>(s: seq<T>, x: T)
    requires s != []
    ensures x in s <==> x in s[..|s| - 1] || x == s[|s| - 1]
  {
    assert s == s[..|s| - 1] + [s[|s| - 1]];
  }

  // ---------- filtering ----------

  /** The elements that satisfy p, in order. */
  function Select<T(!new)>(es: seq<T>, p: T -> bool): (r: seq<T>)
    ensures |r| <= |es|
    ensures forall e :: e in r <==> e in es && p(e)
  {
    if es == [] then []
    else
      var r := Select(es[..|es| - 1], p);
      if p(es[|es| - 1]) then r + [es[|es| - 1]] else r
  }

  lemma SelectAppend<T(!new)>(es: seq<T>, e: T, p: T -> bool)
    ensures Select(es + [e], p) == if p(e) then Select(es, p) + [e] else Select(es, p)
  {
    assert (es + [e])[..|es|] == es;
  }

  lemma {:induction false} SelectSame<T(!new)>(es: seq<T>, p: T -> bool, q: T -> bool)
    requires forall e :: e in es ==> p(e) == q(e)
    ensures Select(es, p) == Select(es, q)
  {
    if es != [] {
      SelectSame(es[..|es| - 1], p, q);
    }
  }

  /** Filtering twice is filtering by both. */
  lemma {:induction false} SelectTwice<T(!new)>(es: seq<T>, p: T -> bool, q: T -> bool, both: T -> bool)
    requires forall e :: e in es ==> both(e) == (p(e) && q(e))
    ensures Select(Select(es, p), q) == Select(es, both)
  {
    if es != [] {
      var init, last := es[..|es| - 1], es[|es| - 1];
      SelectTwice(init, p, q, both);
      if p(last) {
        SelectAppend(Select(init, p), last, q);
      }
    }
  }

  lemma SelectsCommute<T(!new)>(es: seq<T>, p: T -> bool, q: T -> bool)
    ensures Select(Select(es, p), q) == Select(Select(es, q), p)
  {
    var both := (e: T) => p(e) && q(e);
    SelectTwice(es, p, q, both);
    SelectTwice(es, q, p, both);
  }

  lemma {:induction false} SelectAll<T(!new)>(es: seq<T>, p: T -> bool)
    requires forall e :: e in es ==> p(e)
    ensures Select(es, p) == es
  {
    if es != [] {
      SelectAll(es[..|es| - 1], p);
    }
  }

  lemma {:induction false} SelectNone<T(!new)>(es: seq<T>, p: T -> bool)
    requires forall i :: 0 <= i < |es| ==> !p(es[i])
    ensures Select(es, p) == []
  {
    if es != [] {
      SelectNone(es[..|es| - 1], p);
    }
  }

  /** Where the elements start to satisfy p and never stop, filtering cuts the part before. */
  lemma {:induction false} SelectSuffix<T(!new)>(es: seq<T>, p: T -> bool, k: nat)
    requires k <= |es|
    requires forall i :: 0 <= i < k ==> !p(es[i])
    requires forall i :: k <= i < |es| ==> p(es[i])
    ensures Select(es, p) == es[k..]
  {
    if es != [] {
      var init, last := es[..|es| - 1], es[|es| - 1];
      if k == |es| {
        SelectNone(es, p);
      } else {
        SelectSuffix(init, p, k);
        assert es[k..] == init[k..] + [last];
      }
    }
  }

  lemma {:induction false} SelectConcat<T(!new)>(a: seq<T>, b: seq<T>, p: T -> bool)
    ensures Select(a + b, p) == Select(a, p) + Select(b, p)
  {
    if b == [] {
      assert a + b == a;
    } else {
      SelectConcat(a, b[..|b| - 1], p);
      assert (a + b)[..|a + b| - 1] == a + b[..|b| - 1];
    }
  }

  lemma {:induction false} NoneDropped<T(!new)>(s: seq<T>, p: T -> bool)
    requires |Select(s, p)| == |s|
    ensures Select(s, p) == s
  {
    if s != [] {
      NoneDropped(s[..|s| - 1], p);
    }
  }

  // ---------- the last elements ----------

  /** The last n elements, or all of them if there are fewer. */
  function LastOf<T>(s: seq<T>, n: nat): (r: seq<T>)
    ensures |r| == if |s| < n then |s| else n
  {
    if |s| <= n then s else s[|s| - n..]
  }

  lemma LastOfSuffix<T>(s: seq<T>, k: nat, n: nat)
    requires k <= |s|
    ensures LastOf(s[k..], n) == s[if k < |s| - n then |s| - n else k..]
  {
    if |s[k..]| > n {
      assert s[k..][|s| - k - n..] == s[|s| - n..];
    }
  }

  lemma LastOfAll<T>(s: seq<T>, n: nat)
    requires |s| <= n
    ensures LastOf(s, n) == s
  {
  }
}
