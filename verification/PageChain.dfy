/** Listing all sources by following the next-cursor of each page. */
module PageChain {
  import opened Options
  import opened Text
  import opened Sorting
  import opened SourcePage
  import opened SourceCursor

  const DEFAULT_LIMIT: int := 100
  const MAX_LIMIT: int := 500

  /** The limit that aggregateStreamAnalytics applies. */
  function EffectiveLimit(limit: int): (r: nat)
    ensures 1 <= r <= MAX_LIMIT
    ensures 1 <= limit <= MAX_LIMIT ==> r == limit
  {
    if limit < 1 then DEFAULT_LIMIT else if limit > MAX_LIMIT then MAX_LIMIT else limit
  }

  /** One response: the identities listed and the cursor of the next page, empty after the last one. */
  datatype Response = Response(page: seq<Str>, next: Str)

  /** The sources a cursor leaves to list; none for a refused cursor. */
  ghost function Left(sources: set<Str>, cursor: Str): set<Str> {
    if ParseCursor(cursor).None? then {} else Above(sources, cursor != [], ParseCursor(cursor).value)
  }

  /** What a request promises: the first identities left, and a cursor behind them if there are more. */
  ghost function Answer(sources: set<Str>, cursor: Str, limit: nat): Option<Response>
    requires limit >= 1
  {
    var left := InOrder(Left(sources, cursor));
    if ParseCursor(cursor).None? then None
    else if |left| <= limit then Some(Response(left, []))
    else Some(Response(left[..limit], EncodeCursor(left[limit - 1])))
  }

  lemma PageAnswers(sources: set<Str>, cursor: Str, limit: nat, page: seq<Str>, hasMore: bool)
    requires limit >= 1 && ParseCursor(cursor).Some?
    requires var left := InOrder(Left(sources, cursor));
      page == left[..Min(limit, |left|)] && (hasMore <==> |left| > limit)
    ensures |page| > 0 || !hasMore
    ensures Answer(sources, cursor, limit)
         == Some(Response(page, if hasMore then EncodeCursor(page[|page| - 1]) else []))
  {
    var left := InOrder(Left(sources, cursor));
    assert !hasMore ==> page == left;
  }

  /** One request, from its cursor to the next: None is the bad-request error. */
  method Request(sources: set<Str>, cursor: Str, limit: int) returns (r: Option<Response>)
    ensures r == Answer(sources, cursor, EffectiveLimit(limit))
  {
    var after := ParseCursor(cursor);
    if after.None? {
      return None;
    }
    var n := EffectiveLimit(limit);
    var page, hasMore := Page(sources, after.value, cursor != [], n);
    var next := [];
    if hasMore && |page| > 0 {
      next := EncodeCursor(page[|page| - 1]);
    }
    PageAnswers(sources, cursor, n, page, hasMore);
    r := Some(Response(page, next));
  }

  // ---------- the whole chain ----------

  /** The pages read by following cursors, and whether no cursor was refused on the way. */
  datatype Chain = Chain(pages: seq<seq<Str>>, complete: bool)

  lemma FewerRemain(sources: set<Str>, hasCursor: bool, after: Str, x: Str)
    requires x in Above(sources, hasCursor, after)
    ensures Above(sources, true, x) <= Above(sources, hasCursor, after) - {x}
    ensures |Above(sources, true, x)| < |Above(sources, hasCursor, after)|
  {
    var less, more := Above(sources, true, x), Above(sources, hasCursor, after);
    LessIrreflexive(x);
    forall y | y in less ensures y in more && y != x {
      if hasCursor {
        LessTransitive(after, x, y);
      }
    }
    assert less <= more - {x};
    assert |more - {x}| == |more| - 1;
    CardinalityMonotone(less, more - {x});
  }

  lemma CardinalityMonotone<T>(a: set<T>, b: set<T>)
    requires a <= b
    ensures |a| <= |b|
  {
    assert b == a + (b - a);
  }

  /** The cursor behind an identity leaves what is above it, if it can be parsed at all. */
  lemma CursorLeaves(sources: set<Str>, identity: Str)
    ensures EncodeCursor(identity) != []
    ensures Left(sources, EncodeCursor(identity))
         == if |identity| <= MAX_IDENTITY then Above(sources, true, identity) else {}
  {
    CursorLength(identity);
    CursorRoundTrip(identity);
  }

  lemma FewerLeft(sources: set<Str>, cursor: Str, x: Str)
    requires x in Left(sources, cursor)
    ensures |Left(sources, EncodeCursor(x))| < |Left(sources, cursor)|
  {
    CursorLeaves(sources, x);
    FewerRemain(sources, cursor != [], ParseCursor(cursor).value, x);
  }

  /** Requests repeated with each next-cursor, until there is none or one is refused. */
  ghost function Follow(sources: set<Str>, cursor: Str, limit: nat): Chain
    requires limit >= 1
    decreases |Left(sources, cursor)|
  {
    match Answer(sources, cursor, limit)
    case None => Chain([], false)
    case Some(r) =>
      if r.next == [] then Chain([r.page], true)
      else
        assert |Left(sources, r.next)| < |Left(sources, cursor)| by {
          var left := InOrder(Left(sources, cursor));
          assert left[limit - 1] in left;
          FewerLeft(sources, cursor, left[limit - 1]);
        }
        var rest := Follow(sources, r.next, limit);
        Chain([r.page] + rest.pages, rest.complete)
  }

  /** The sequence cut into pages of the given size; an empty sequence is one empty page. */
  function Cut(s: seq<Str>, limit: nat): (r: seq<seq<Str>>)
    requires limit >= 1
    ensures r != []
  {
    if |s| <= limit then [s] else [s[..limit]] + Cut(s[limit..], limit)
  }

  function Concat(pages: seq<seq<Str>>): seq<Str> {
    if pages == [] then [] else pages[0] + Concat(pages[1..])
  }

  /** Cutting loses nothing, and makes ceil(n / limit) pages, at least one. */
  lemma {:induction false} CutMeans(s: seq<Str>, limit: nat)
    requires limit >= 1
    ensures Concat(Cut(s, limit)) == s
    ensures |Cut(s, limit)| == if s == [] then 1 else (|s| + limit - 1) / limit
  {
    if |s| <= limit {
      assert Cut(s, limit)[1..] == [];
      if s != [] {
        OnePage(|s|, limit);
      }
    } else {
      CutMeans(s[limit..], limit);
      assert Cut(s, limit)[1..] == Cut(s[limit..], limit);
      assert s == s[..limit] + s[limit..];
      OnePageMore(|s|, limit);
    }
  }

  lemma OnePage(n: nat, limit: nat)
    requires 0 < n <= limit
    ensures (n + limit - 1) / limit == 1
  {
    Telemetry.TruncateUnique(n + limit - 1, limit, 1);
  }

  lemma OnePageMore(n: nat, limit: nat)
    requires 0 < limit < n
    ensures (n + limit - 1) / limit == 1 + (n - limit + limit - 1) / limit
  {
    var k := (n - 1) / limit;
    Telemetry.TruncateBounds(n - 1, limit);
    assert limit * (k + 1) == limit * k + limit;
    Telemetry.TruncateUnique(n + limit - 1, limit, k + 1);
  }

  lemma SplitAscending(s: seq<Str>, i: nat, x: Str)
    requires Ascending(s) && i < |s|
    ensures x in s[i + 1..] <==> x in s && Less(s[i], x)
  {
    if x in s && Less(s[i], x) {
      var j: nat :| j < |s| && s[j] == x;
      LessAsymmetric(s[i], x);
      assert Less(s[i], s[j]) && !Less(s[j], s[i]);
      assert s[i + 1..][j - (i + 1)] == x;
    }
  }

  lemma SameListing(a: seq<Str>, b: seq<Str>)
    requires Ascending(a) && Ascending(b) && forall x :: x in a <==> x in b
    ensures a == b
  {
    StartIsPrefix(a, b);
    StartIsPrefix(b, a);
  }

  /** What is above an element of an ascending listing is the part after it. */
  lemma AboveIsTail(sources: set<Str>, hasCursor: bool, after: Str, i: nat)
    requires i < |InOrder(Above(sources, hasCursor, after))|
    ensures var s := InOrder(Above(sources, hasCursor, after));
      InOrder(Above(sources, true, s[i])) == s[i + 1..]
  {
    var s := InOrder(Above(sources, hasCursor, after));
    var less := Above(sources, true, s[i]);
    assert s[i] in s;
    FewerRemain(sources, hasCursor, after, s[i]);
    forall x ensures x in s[i + 1..] <==> x in InOrder(less) {
      SplitAscending(s, i, x);
      assert x in less <==> x in sources && Less(s[i], x);
      assert x in less ==> x in Above(sources, hasCursor, after);
    }
    SameListing(s[i + 1..], InOrder(less));
  }

  /** The pages a chain reads: the cut, as far as the cursors between its pages can be parsed. */
  ghost predicate Reads(c: Chain, cut: seq<seq<Str>>) {
    && 0 < |c.pages| <= |cut| && c.pages == cut[..|c.pages|]
    && (c.complete <==> |c.pages| == |cut|)
    && (forall k :: 0 <= k < |c.pages| - 1 ==> Continues(cut[k]))
    && (!c.complete ==> !Continues(cut[|c.pages| - 1]))
  }

  /** The cursor issued after this page is accepted. */
  ghost predicate Continues(page: seq<Str>) {
    page != [] && |page[|page| - 1]| <= MAX_IDENTITY
  }

  /** With more left than fits on a page, the chain is that page and what its cursor leads to. */
  lemma FollowPage(sources: set<Str>, cursor: Str, limit: nat)
    requires limit >= 1 && ParseCursor(cursor).Some? && |InOrder(Left(sources, cursor))| > limit
    ensures var left := InOrder(Left(sources, cursor));
      var rest := Follow(sources, EncodeCursor(left[limit - 1]), limit);
      Follow(sources, cursor, limit) == Chain([left[..limit]] + rest.pages, rest.complete)
  {
    var last := InOrder(Left(sources, cursor))[limit - 1];
    CursorLeaves(sources, last);
    assert Answer(sources, cursor, limit).value.next == EncodeCursor(last);
  }

  lemma FollowRefused(sources: set<Str>, cursor: Str, limit: nat)
    requires limit >= 1 && ParseCursor(cursor).None?
    ensures Follow(sources, cursor, limit) == Chain([], false)
  {
  }

  lemma FollowLastPage(sources: set<Str>, cursor: Str, limit: nat)
    requires limit >= 1 && ParseCursor(cursor).Some? && |InOrder(Left(sources, cursor))| <= limit
    ensures Follow(sources, cursor, limit) == Chain([InOrder(Left(sources, cursor))], true)
  {
  }

  /** Where the cursor behind a full page leads. */
  lemma NextLeft(sources: set<Str>, cursor: Str, limit: nat)
    requires limit >= 1 && ParseCursor(cursor).Some? && |InOrder(Left(sources, cursor))| > limit
    ensures var left := InOrder(Left(sources, cursor));
      var next := EncodeCursor(left[limit - 1]);
      && |Left(sources, next)| < |Left(sources, cursor)|
      && (ParseCursor(next).Some? <==> Continues(left[..limit]))
      && (ParseCursor(next).Some? ==> InOrder(Left(sources, next)) == left[limit..])
  {
    var left := InOrder(Left(sources, cursor));
    var last := left[limit - 1];
    assert last in left;
    FewerLeft(sources, cursor, last);
    CursorRoundTrip(last);
    CursorLeaves(sources, last);
    AboveIsTail(sources, cursor != [], ParseCursor(cursor).value, limit - 1);
  }

  /** A chain whose first page is full reads the cut if its rest does. */
  lemma ReadsFrom(s: seq<Str>, limit: nat, rest: Chain)
    requires limit >= 1 && |s| > limit
    requires if Continues(s[..limit]) then Reads(rest, Cut(s[limit..], limit)) else rest == Chain([], false)
    ensures Reads(Chain([s[..limit]] + rest.pages, rest.complete), Cut(s, limit))
  {
    var all := Cut(s, limit);
    if Continues(s[..limit]) {
      ReadsMore(s[..limit], rest, Cut(s[limit..], limit));
    } else {
      assert all[..1] == [s[..limit]];
    }
  }

  lemma {:induction false} FollowReads(sources: set<Str>, cursor: Str, limit: nat)
    requires limit >= 1 && ParseCursor(cursor).Some?
    ensures Reads(Follow(sources, cursor, limit), Cut(InOrder(Left(sources, cursor)), limit))
    decreases |Left(sources, cursor)|
  {
    var left := InOrder(Left(sources, cursor));
    if |left| <= limit {
      FollowLastPage(sources, cursor, limit);
    } else {
      var next := EncodeCursor(left[limit - 1]);
      NextLeft(sources, cursor, limit);
      FollowPage(sources, cursor, limit);
      if Continues(left[..limit]) {
        FollowReads(sources, next, limit);
      } else {
        FollowRefused(sources, next, limit);
      }
      ReadsFrom(left, limit, Follow(sources, next, limit));
    }
  }

  lemma ReadsMore(page: seq<Str>, c: Chain, cut: seq<seq<Str>>)
    requires Reads(c, cut) && Continues(page)
    ensures Reads(Chain([page] + c.pages, c.complete), [page] + cut)
  {
    var all := [page] + cut;
    forall k | 0 <= k < |c.pages| ensures Continues(all[k]) || k == |c.pages| {
      if k > 0 {
        assert all[k] == cut[k - 1];
      }
    }
    assert all[..|c.pages| + 1] == [page] + cut[..|c.pages|];
  }

  /**
   * Over a fixed source set, following cursors from the start reads every source exactly once, in
   * ascending order, in ceil(n / limit) pages, if and only if every page but the last ends with an
   * identity of at most 3069 bytes. Otherwise the chain is cut short behind the first such page.
   */
  lemma ChainListsAllIff(sources: set<Str>, limit: nat)
    requires limit >= 1
    ensures ListsAllIff(sources, limit, Follow(sources, [], limit), Cut(InOrder(sources), limit))
  {
    hide Follow, Cut, Reads, Continues;
    StartLeavesAll(sources);
    FollowReads(sources, [], limit);
    CutMeans(InOrder(sources), limit);
    ReadsAllIff(Follow(sources, [], limit), InOrder(sources), limit);
    ReadsCompletely(Follow(sources, [], limit), Cut(InOrder(sources), limit));
  }

  /** The chain reads the cut as far as it goes, and all of it iff every page but the last continues. */
  ghost predicate ListsAllIff(sources: set<Str>, limit: nat, chain: Chain, cut: seq<seq<Str>>)
    requires limit >= 1
  {
    && Reads(chain, cut)
    && (chain.complete <==> forall k :: 0 <= k < |cut| - 1 ==> Continues(cut[k]))
    && (chain.complete <==> Concat(chain.pages) == InOrder(sources))
    && (chain.complete ==> |chain.pages| == if sources == {} then 1 else (|sources| + limit - 1) / limit)
  }

  lemma ReadsCompletely(chain: Chain, cut: seq<seq<Str>>)
    requires Reads(chain, cut)
    ensures chain.complete ==> |chain.pages| == |cut|
  {
  }

  lemma StartLeavesAll(sources: set<Str>)
    ensures ParseCursor([]).Some? && Left(sources, []) == sources
  {
  }

  lemma ReadsAllIff(chain: Chain, s: seq<Str>, limit: nat)
    requires limit >= 1 && Reads(chain, Cut(s, limit)) && Concat(Cut(s, limit)) == s
    ensures chain.complete <==> forall k :: 0 <= k < |Cut(s, limit)| - 1 ==> Continues(Cut(s, limit)[k])
    ensures chain.complete <==> Concat(chain.pages) == s
  {
    var cut, k := Cut(s, limit), |chain.pages|;
    if chain.complete {
      assert chain.pages == cut;
    } else {
      assert k < |cut| && !Continues(cut[k - 1]);
      SomePagesListLess(s, limit, k);
    }
  }

  /** Fewer pages list fewer sources. */
  lemma {:induction false} SomePagesListLess(s: seq<Str>, limit: nat, k: nat)
    requires limit >= 1 && 0 < k < |Cut(s, limit)|
    ensures |Concat(Cut(s, limit)[..k])| < |s|
  {
    var cut := Cut(s, limit);
    assert cut[..k][1..] == Cut(s[limit..], limit)[..k - 1];
    if k > 1 {
      SomePagesListLess(s[limit..], limit, k - 1);
    }
  }

  /** Two sources, the first of 3070 bytes, one a page: the second is never listed. */
  lemma LongIdentityCutsShort(x: Str, y: Str)
    requires x == seq(MAX_IDENTITY + 1, i => 97) && y == [98]
    ensures Follow({x, y}, [], 1) == Chain([[x]], false)
  {
    var s := InOrder({x, y});
    assert Less(x, y) && x != y;
    SameListing(s, [x, y]);
    StartLeavesAll({x, y});
    FollowPage({x, y}, [], 1);
    CursorRoundTrip(x);
    FollowRefused({x, y}, EncodeCursor(x), 1);
  }
}
