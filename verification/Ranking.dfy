/**
 * The ranking that paths, destinations and breakdown items share: most bytes first, then most
 * connections, then the name; cut after a limit.
 */
module Ranking {
  import opened Sequences
  import opened Text
  import opened Sorting
  import opened Telemetry

  datatype Item = Item(name: Str, tally: Tally)

  /** The comparison given to sort.Slice. */
  predicate Higher(a: Item, b: Item) {
    if a.tally.bytes != b.tally.bytes then a.tally.bytes > b.tally.bytes
    else if a.tally.connections != b.tally.connections then a.tally.connections > b.tally.connections
    else Less(a.name, b.name)
  }

  function RankOrder(): (Item, Item) -> bool {
    (a, b) => !Higher(b, a)
  }

  lemma RankOrderIsTotalPreorder()
    ensures TotalPreorder(RankOrder())
  {
    forall a: Item, b: Item ensures RankOrder()(a, b) || RankOrder()(b, a) {
      if Less(a.name, b.name) {
        LessAsymmetric(a.name, b.name);
      }
    }
    forall a: Item, b: Item, c: Item | RankOrder()(a, b) && RankOrder()(b, c) ensures RankOrder()(a, c) {
      if !Less(b.name, a.name) && !Less(c.name, b.name) {
        AtMostTransitive(a.name, b.name, c.name);
      }
    }
  }

  /** items are the rows of the map, each once, in some order. */
  ghost predicate ItemsOf(items: seq<Item>, m: map<Str, Tally>) {
    Distinct(items) && forall x :: x in items <==> x.name in m && x.tally == m[x.name]
  }

  ghost predicate IsRanking(items: seq<Item>, m: map<Str, Tally>) {
    ItemsOf(items, m) && SortedBy(items, RankOrder())
  }

  /** A table has one ranking only: the order its rows were visited in does not show. */
  lemma RankingIsUnique(a: seq<Item>, b: seq<Item>, m: map<Str, Tally>)
    requires IsRanking(a, m) && IsRanking(b, m)
    ensures a == b
  {
    SameMembersRearrange(a, b);
    forall i, j | 0 <= i < |a| && 0 <= j < |a| && RankOrder()(a[i], a[j]) && RankOrder()(a[j], a[i])
      ensures a[i] == a[j]
    {
      LessTotal(a[i].name, a[j].name);
      assert a[i] in a && a[j] in a;
    }
    SortedIsUnique(a, b, RankOrder());
  }

  /** The loop over the map, in whatever order it comes. */
  method Collect(m: map<Str, Tally>) returns (items: seq<Item>)
    ensures ItemsOf(items, m) && |items| == |m|
  {
    items := [];
    var rest := m.Keys;
    while rest != {}
      invariant rest <= m.Keys && |items| + |rest| == |m|
      invariant Distinct(items)
      invariant forall x :: x in items <==> x.name in m && x.name !in rest && x.tally == m[x.name]
      decreases |rest|
    {
      var name := Pick(rest);
      rest := rest - {name};
      items := items + [Item(name, m[name])];
    }
  }

  /** The rows before the limit. */
  function UpTo(items: seq<Item>, limit: nat): seq<Item> {
    if |items| > limit then items[..limit] else items
  }

  /** x stands before y: more bytes; or as many, and more connections; or as many of both, and the smaller name. */
  ghost predicate StandsBefore(x: Item, y: Item) {
    || x.tally.bytes > y.tally.bytes
    || (x.tally.bytes == y.tally.bytes && x.tally.connections > y.tally.connections)
    || (x.tally.bytes == y.tally.bytes && x.tally.connections == y.tally.connections && Less(x.name, y.name))
  }

  /** The page lists rows of the table, each once, and all of them up to the limit. */
  ghost predicate ListsRows(page: seq<Item>, m: map<Str, Tally>, limit: nat) {
    && Distinct(page) && (forall x :: x in page ==> x.name in m && x.tally == m[x.name])
    && |page| == if |m| > limit then limit else |m|
  }

  /** Each listed row stands before the rows listed behind it and before every row left out. */
  ghost predicate BestFirst(page: seq<Item>, m: map<Str, Tally>) {
    && (forall i, j :: 0 <= i < j < |page| ==> StandsBefore(page[i], page[j]))
    && (forall i, name :: 0 <= i < |page| && name in m && Item(name, m[name]) !in page ==>
          StandsBefore(page[i], Item(name, m[name])))
  }

  lemma RankedStandsBefore(items: seq<Item>, m: map<Str, Tally>, i: nat, j: nat)
    requires IsRanking(items, m) && i < j < |items|
    ensures StandsBefore(items[i], items[j])
  {
    assert RankOrder()(items[i], items[j]);
    assert items[i] in items && items[j] in items;
    LessTotal(items[i].name, items[j].name);
  }

  lemma LeftOutIsBehind(ranking: seq<Item>, n: nat, x: Item)
    requires n <= |ranking| && x in ranking && x !in ranking[..n]
    ensures exists j :: n <= j < |ranking| && ranking[j] == x
  {
    assert ranking == ranking[..n] + ranking[n..];
    assert x in ranking[n..];
  }

  lemma RankingIsBestFirst(ranking: seq<Item>, m: map<Str, Tally>, limit: nat)
    requires IsRanking(ranking, m)
    ensures BestFirst(UpTo(ranking, limit), m)
  {
    var page := UpTo(ranking, limit);
    forall i, j | 0 <= i < j < |ranking| ensures StandsBefore(ranking[i], ranking[j]) {
      RankedStandsBefore(ranking, m, i, j);
    }
    forall i, name | 0 <= i < |page| && name in m && Item(name, m[name]) !in page
      ensures StandsBefore(page[i], Item(name, m[name]))
    {
      LeftOutIsBehind(ranking, |page|, Item(name, m[name]));
    }
  }

  /**
   * Whatever the map order: the rows listed are those with the most bytes, then the most connections, then
   * the smallest names, in that order; available counts every row.
   */
  method Top(m: map<Str, Tally>, limit: nat) returns (page: seq<Item>, available: nat)
    ensures ListsRows(page, m, limit) && BestFirst(page, m)
    ensures exists ranking :: IsRanking(ranking, m) && page == UpTo(ranking, limit)
    ensures available == |m|
  {
    var items := Collect(m);
    RankOrderIsTotalPreorder();
    var sorted := Sort(items, RankOrder());
    RearrangedMembers(sorted, items);
    RearrangedDistinct(sorted, items);
    assert IsRanking(sorted, m);
    available := |sorted|;
    page := UpTo(sorted, limit);
    RankingIsBestFirst(sorted, m, limit);
    assert forall x :: x in page ==> x in sorted;
  }
}
