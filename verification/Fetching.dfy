/** What a fetch brings, said of the server's answers and the fields of the items alone
    (tools/oracle/parity.py:260-352 and tools/oracle/parity_suite.py:2525-2639). */
module Fetching {
  import opened Orders
  import opened Paging

  // ---------------------------------------------------------------- the pages

  /** The server answers page `page` with these items and consistent paging fields. */
  ghost predicate Answers(server: Server, page: int, total: int, size: int, items: seq<Item>) {
    server(page) == Some(Payload(Some(items), Some(PagingFields(Some(page), Some(size), Some(total)))))
  }

  /** The pages from `page` on: each as full as it can be, the last and only the last completing the
      total. */
  ghost predicate Serves(server: Server, page: int, total: int, size: int, pages: seq<seq<Item>>) {
    && size > 0 && total >= 0 && pages != []
    && forall k :: 0 <= k < |pages| ==>
         var offset := (page + k - 1) * size;
         && Answers(server, page + k, total, size, pages[k])
         && offset <= total && |pages[k]| == (if size <= total - offset then size else total - offset)
         && (offset + |pages[k]| == total <==> k == |pages| - 1)
  }

  ghost function Joined(pages: seq<seq<Item>>): seq<Item> {
    if pages == [] then [] else pages[0] + Joined(pages[1..])
  }

  lemma ServesRest(server: Server, page: int, total: int, size: int, pages: seq<seq<Item>>)
    requires Serves(server, page, total, size, pages) && |pages| > 1
    ensures Serves(server, page + 1, total, size, pages[1..])
  {
    var rest := pages[1..];
    forall k | 0 <= k < |rest|
      ensures var offset := (page + 1 + k - 1) * size;
              && Answers(server, page + 1 + k, total, size, rest[k])
              && offset <= total && |rest[k]| == (if size <= total - offset then size else total - offset)
              && (offset + |rest[k]| == total <==> k == |rest| - 1)
    {
      assert rest[k] == pages[k + 1] && page + 1 + k - 1 == page + (k + 1) - 1;
    }
  }

  lemma ServesMore(server: Server, page: int, total: int, size: int, first: seq<Item>, rest: seq<seq<Item>>)
    requires Serves(server, page + 1, total, size, rest)
    requires Answers(server, page, total, size, first)
    requires var offset := (page - 1) * size;
             offset <= total && |first| == (if size <= total - offset then size else total - offset) && offset + |first| != total
    ensures Serves(server, page, total, size, [first] + rest)
  {
    var pages := [first] + rest;
    forall k | 0 <= k < |pages|
      ensures var offset := (page + k - 1) * size;
              && Answers(server, page + k, total, size, pages[k])
              && offset <= total && |pages[k]| == (if size <= total - offset then size else total - offset)
              && (offset + |pages[k]| == total <==> k == |pages| - 1)
    {
      if k > 0 {
        assert pages[k] == rest[k - 1] && page + k - 1 == (page + 1) + (k - 1) - 1;
        assert Answers(server, (page + 1) + (k - 1), total, size, rest[k - 1]);
      }
    }
  }

  lemma ReadMeansAnswer(server: Server, page: int, total: Option<int>, size: Option<int>, seen: set<string>)
    requires page >= 1 && server(page).Some? && ReadPage(server(page).value, page, total, size, seen).Some?
    ensures var p := ReadPage(server(page).value, page, total, size, seen).value;
            && Answers(server, page, p.total, p.size, p.items) && p.size > 0 && p.total >= 0
            && var offset := (page - 1) * p.size;
               && offset <= p.total && |p.items| == (if p.size <= p.total - offset then p.size else p.total - offset)
               && (p.done <==> offset + |p.items| == p.total)
               && Matches(p.total, total) && Matches(p.size, size) && NewKeys(p.items, seen)
  {
    hide NewKeys;
  }

  lemma AnswerIsRead(server: Server, page: int, total: int, size: int, items: seq<Item>,
                     expectedTotal: Option<int>, expectedSize: Option<int>, seen: set<string>)
    requires page >= 1 && size > 0 && total >= 0 && Answers(server, page, total, size, items)
    requires var offset := (page - 1) * size; offset <= total && |items| == (if size <= total - offset then size else total - offset)
    requires Matches(total, expectedTotal) && Matches(size, expectedSize) && NewKeys(items, seen)
    ensures ReadPage(server(page).value, page, expectedTotal, expectedSize, seen)
            == Some(Page(items, total, size, (page - 1) * size + |items| == total))
  {
    hide NewKeys;
  }

  /** A fetch that succeeds has been served these pages. */
  lemma {:induction false} FetchedPages(server: Server, page: int, total: Option<int>, size: Option<int>, seen: set<string>)
    returns (pages: seq<seq<Item>>)
    requires Expecting(page, total, size) && Fetch(server, page, total, size, seen).Some?
    ensures var f := Fetch(server, page, total, size, seen).value;
            && Serves(server, page, f.total, f.size, pages) && f.items == Joined(pages) && f.pages == |pages|
            && Matches(f.total, total) && Matches(f.size, size)
    decreases if page == 1 then 1 else 0, ItemsLeft(page, total, size)
  {
    hide ReadPage, NewKeys, KeySet, Serves;
    FetchUnfolds(server, page, total, size, seen);
    ReadMeansAnswer(server, page, total, size, seen);
    var p := ReadPage(server(page).value, page, total, size, seen).value;
    if p.done {
      pages := [p.items];
      assert Joined(pages) == p.items + [] == p.items;
      assert Serves(server, page, p.total, p.size, pages) by { OnlyPage(server, page, p.total, p.size, p.items); }
    } else {
      FewerLeft(server(page).value, page, total, size, seen);
      var rest := FetchedPages(server, page + 1, Some(p.total), Some(p.size), seen + KeySet(p.items));
      pages := [p.items] + rest;
      assert pages[1..] == rest;
      ServesMore(server, page, p.total, p.size, p.items, rest);
    }
  }

  lemma OnlyPage(server: Server, page: int, total: int, size: int, items: seq<Item>)
    requires size > 0 && total >= 0 && Answers(server, page, total, size, items)
    requires var offset := (page - 1) * size;
             offset <= total && |items| == (if size <= total - offset then size else total - offset) && offset + |items| == total
    ensures Serves(server, page, total, size, [items])
  {
  }

  /** A fetch that is served such pages with distinct keys succeeds. */
  lemma {:induction false} PagesFetched(server: Server, page: int, total: Option<int>, size: Option<int>, seen: set<string>,
                                        t: int, z: int, pages: seq<seq<Item>>)
    requires Expecting(page, total, size) && Serves(server, page, t, z, pages)
    requires Matches(t, total) && Matches(z, size) && NewKeys(Joined(pages), seen)
    ensures Fetch(server, page, total, size, seen) == Some(Fetched(Joined(pages), t, z, |pages|))
    decreases |pages|
  {
    hide ReadPage, NewKeys, KeySet, Fetch;
    var first := pages[0];
    assert Joined(pages) == first + Joined(pages[1..]);
    FirstServed(server, page, t, z, pages);
    FirstKeys(first, Joined(pages[1..]), seen);
    AnswerIsRead(server, page, t, z, first, total, size, seen);
    FetchUnfolds(server, page, total, size, seen);
    if |pages| == 1 {
      assert Joined(pages[1..]) == [];
      assert first + [] == first;
    } else {
      ServesRest(server, page, t, z, pages);
      hide Serves;
      PagesFetched(server, page + 1, Some(t), Some(z), seen + KeySet(first), t, z, pages[1..]);
    }
  }

  lemma FirstServed(server: Server, page: int, total: int, size: int, pages: seq<seq<Item>>)
    requires Serves(server, page, total, size, pages)
    ensures var offset := (page - 1) * size;
            && Answers(server, page, total, size, pages[0]) && offset <= total
            && |pages[0]| == (if size <= total - offset then size else total - offset)
            && (offset + |pages[0]| == total <==> |pages| == 1)
  {
    assert page + 0 - 1 == page - 1;
  }

  lemma FirstKeys(a: seq<Item>, b: seq<Item>, seen: set<string>)
    requires NewKeys(a + b, seen)
    ensures NewKeys(a, seen) && NewKeys(b, seen + KeySet(a))
  {
    var c := a + b;
    assert forall i :: 0 <= i < |a| ==> c[i] == a[i];
    NewKeysOfConcat(a, b, seen);
  }

  /** A fetch brings exactly what is served: it succeeds if and only if the server answers page after
      page, consistently, up to the one that completes the total, and no key occurs twice; and then it
      has the items of these pages in order. */
  lemma FetchIsWhatIsServed(server: Server, f: Fetched)
    ensures FetchAll(server) == Some(f)
            <==> exists pages :: && Serves(server, 1, f.total, f.size, pages) && f.items == Joined(pages)
                                 && f.pages == |pages| && NewKeys(f.items, {})
  {
    hide Serves, NewKeys, Fetch;
    if FetchAll(server) == Some(f) {
      var pages := FetchedPages(server, 1, None, None, {});
      FetchIsComplete(server, 1, None, None, {});
    }
    if pages :| && Serves(server, 1, f.total, f.size, pages) && f.items == Joined(pages)
                && f.pages == |pages| && NewKeys(f.items, {}) {
      PagesFetched(server, 1, None, None, {}, f.total, f.size, pages);
    }
  }

  // ---------------------------------------------------------------- the places

  /** The items that are about the project itself while its issues are collected, or the others. */
  ghost function Chosen(items: seq<Item>, filter: Filter, project: bool): seq<Item>
    requires Keyed(items)
  {
    if items == [] then []
    else
      var last := items[|items| - 1];
      Chosen(items[..|items| - 1], filter, project)
      + if (filter.collecting && last.component == Some(filter.project)) == project then [last] else []
  }

  /** Each item has what its place asks for. */
  ghost predicate CanBePlaced(items: seq<Item>, filter: Filter)
    requires Keyed(items)
  {
    forall i :: 0 <= i < |items| ==>
      if filter.collecting && items[i].component == Some(filter.project) then
        items[i].rule.Some? && items[i].rule.value in filter.approved && items[i].message.Some?
      else items[i].canonical.Some?
  }

  ghost predicate IssuesOf(issues: seq<Issue>, items: seq<Item>) {
    && |issues| == |items|
    && forall k :: 0 <= k < |items| ==> items[k].Object? && items[k].canonical == Some(issues[k])
  }

  ghost predicate RowsOf(rows: seq<ProjectRow>, items: seq<Item>) {
    && |rows| == |items|
    && forall k :: 0 <= k < |items| ==>
         && items[k].Object? && items[k].key == Some(rows[k].key) && items[k].rule == Some(rows[k].rule)
         && items[k].message == Some(rows[k].message)
  }

  /** Placing succeeds if and only if each item about the project has an approved rule and a message
      and every other one can be turned into an issue. The issues are those of the other items, in
      order, and the rows are the key, rule and message of the project's items, in order. */
  lemma {:induction false} PlacesAreRight(items: seq<Item>, filter: Filter)
    requires Keyed(items)
    ensures PlaceAll(items, filter).Some? <==> CanBePlaced(items, filter)
    ensures PlaceAll(items, filter).Some? ==>
              && IssuesOf(PlaceAll(items, filter).value.issues, Chosen(items, filter, false))
              && RowsOf(PlaceAll(items, filter).value.rows, Chosen(items, filter, true))
  {
    if items != [] {
      var front, last := items[..|items| - 1], items[|items| - 1];
      PlacesAreRight(front, filter);
      assert items == front + [last];
      CanPlaceMore(front, last, filter);
    }
  }

  lemma CanPlaceMore(front: seq<Item>, last: Item, filter: Filter)
    requires Keyed(front) && HasKey(last)
    ensures Keyed(front + [last])
    ensures CanBePlaced(front + [last], filter) <==> CanBePlaced(front, filter) && CanBePlaced([last], filter)
  {
    var all := front + [last];
    assert forall i :: 0 <= i < |front| ==> all[i] == front[i];
    assert all[|front|] == last && [last][0] == last;
  }

  // ---------------------------------------------------------------- the shards

  ghost function ItemsOf(fetched: seq<Fetched>): seq<Item> {
    if fetched == [] then [] else ItemsOf(fetched[..|fetched| - 1]) + fetched[|fetched| - 1].items
  }

  ghost predicate AllFetched(shards: seq<Server>, fetched: seq<Fetched>) {
    |fetched| == |shards| && forall k :: 0 <= k < |shards| ==> FetchAll(shards[k]) == Some(fetched[k])
  }

  lemma {:induction false} ShardItemsAre(shards: seq<Server>) returns (fetched: seq<Fetched>)
    requires ShardItems(shards).Some?
    ensures AllFetched(shards, fetched) && ShardItems(shards).value == ItemsOf(fetched)
  {
    hide FetchAll;
    if shards == [] {
      fetched := [];
    } else {
      var n := |shards| - 1;
      var front := ShardItemsAre(shards[..n]);
      fetched := front + [FetchAll(shards[n]).value];
      assert fetched[..n] == front;
      forall k | 0 <= k < |shards| ensures FetchAll(shards[k]) == Some(fetched[k]) {
        assert k < n ==> shards[..n][k] == shards[k];
      }
    }
  }

  lemma {:induction false} ShardsGiveItems(shards: seq<Server>, fetched: seq<Fetched>)
    requires AllFetched(shards, fetched)
    ensures ShardItems(shards) == Some(ItemsOf(fetched))
  {
    hide FetchAll;
    if shards != [] {
      var n := |shards| - 1;
      forall k | 0 <= k < n ensures FetchAll(shards[..n][k]) == Some(fetched[..n][k]) {
        assert shards[..n][k] == shards[k] && fetched[..n][k] == fetched[k];
      }
      ShardsGiveItems(shards[..n], fetched[..n]);
    }
  }

  /** A sharded fetch returns these issues and rows if and only if the advertised totals add up to the
      baseline, every shard can be fetched, no key occurs twice within or across shards, the items number
      the baseline, and they are placed as these. */
  lemma ShardsAreWhatIsServed(baseline: Option<int>, totals: seq<Option<int>>, shards: seq<Server>, filter: Filter, s: Placement)
    ensures FetchShards(baseline, totals, shards, filter) == Some(s)
            <==> exists fetched :: && baseline.Some? && AllSome(totals) && Sum(Values(totals)) == baseline.value
                                   && AllFetched(shards, fetched) && NewKeys(ItemsOf(fetched), {})
                                   && |ItemsOf(fetched)| == baseline.value && PlaceAll(ItemsOf(fetched), filter) == Some(s)
  {
    hide ShardItems, PlaceAll, AllFetched, ItemsOf, KeySet;
    if FetchShards(baseline, totals, shards, filter) == Some(s) {
      var fetched := ShardItemsAre(shards);
      KeyCount(ItemsOf(fetched));
    }
    if fetched :| && baseline.Some? && AllSome(totals) && Sum(Values(totals)) == baseline.value
                  && AllFetched(shards, fetched) && NewKeys(ItemsOf(fetched), {})
                  && |ItemsOf(fetched)| == baseline.value && PlaceAll(ItemsOf(fetched), filter) == Some(s) {
      ShardsGiveItems(shards, fetched);
      KeyCount(ItemsOf(fetched));
    }
  }
}
