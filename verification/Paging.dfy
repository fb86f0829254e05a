/** Fetching every page of a search (tools/oracle/parity.py:260-352 and
    tools/oracle/parity_suite.py:2515-2639). The server is an arbitrary function from page numbers
    to answers. */
module Paging {
  import opened Arithmetic
  import opened Orders
  import Freezing

  /** What a well-formed issue becomes. */
  datatype Issue = Issue(rule: string, file: string, message: string)

  /** An entry of a page: the fields that are read, those but the message absent when they are no
      strings, and the issue it is turned into, absent when it cannot be. A message is copied
      whatever it is. */
  datatype Item = NoObject | Object(key: Option<string>, component: Option<string>, rule: Option<string>,
                                    message: Option<Freezing.Json>, canonical: Option<Issue>)

  datatype PagingFields = PagingFields(pageIndex: Option<int>, pageSize: Option<int>, total: Option<int>)

  datatype Payload = Payload(items: Option<seq<Item>>, paging: Option<PagingFields>)

  /** A server that may also fail to answer. */
  type Server = int -> Option<Payload>

  datatype Page = Page(items: seq<Item>, total: int, size: int, done: bool)

  // ------------------------------------------------------------ one page

  predicate HasKey(item: Item) {
    item.Object? && item.key.Some? && item.key.value != ""
  }

  predicate Keyed(items: seq<Item>) {
    forall i :: 0 <= i < |items| ==> HasKey(items[i])
  }

  function KeysOf(items: seq<Item>): (keys: seq<string>)
    requires Keyed(items)
    ensures |keys| == |items| && forall i :: 0 <= i < |items| ==> keys[i] == items[i].key.value
  {
    seq(|items|, i requires 0 <= i < |items| => items[i].key.value)
  }

  predicate NewKeys(items: seq<Item>, seen: set<string>) {
    && Keyed(items)
    && (forall i :: 0 <= i < |items| ==> items[i].key.value !in seen)
    && (forall i, j :: 0 <= i < j < |items| ==> items[i].key.value != items[j].key.value)
  }

  function KeySet(items: seq<Item>): set<string>
    requires Keyed(items)
  {
    set k | k in KeysOf(items)
  }

  predicate Matches(value: int, expected: Option<int>) {
    expected.None? || expected.value == value
  }

  /** The paging fields of an answer, if they fit the request. */
  function ReadPaging(paging: PagingFields, requested: int, expectedTotal: Option<int>, expectedSize: Option<int>): Option<(int, int)> {
    if paging.pageIndex.None? || paging.pageSize.None? || paging.total.None? then None
    else
      var index, size, total := paging.pageIndex.value, paging.pageSize.value, paging.total.value;
      if index != requested || size <= 0 || total < 0 || !Matches(total, expectedTotal) || !Matches(size, expectedSize) then None
      else Some((size, total))
  }

  function Min(a: int, b: int): int {
    if a <= b then a else b
  }

  /** The page an answer holds, if it is the requested one, complete and without repeated keys. */
  function ReadPage(payload: Payload, requested: int, expectedTotal: Option<int>, expectedSize: Option<int>, seen: set<string>): Option<Page> {
    if requested < 1 || payload.items.None? || payload.paging.None? then None
    else
      var paging := ReadPaging(payload.paging.value, requested, expectedTotal, expectedSize);
      if paging.None? then None
      else
        var items, size, total := payload.items.value, paging.value.0, paging.value.1;
        var offset := (requested - 1) * size;
        if offset > total || |items| != Min(size, total - offset) || !NewKeys(items, seen) then None
        else Some(Page(items, total, size, offset + |items| == total))
  }

  /** A set of keys shared between calls. */
  class Seen {
    var keys: set<string>

    constructor ()
      ensures keys == {}
    {
      keys := {};
    }
  }

  /** Extends the caller's keys only on success. */
  method ValidateSearchPage(payload: Payload, requested: int, expectedTotal: Option<int>, expectedSize: Option<int>, seen: Seen)
    returns (page: Option<Page>)
    modifies seen
    ensures page == ReadPage(payload, requested, expectedTotal, expectedSize, old(seen.keys))
    ensures page.None? ==> seen.keys == old(seen.keys)
    ensures page.Some? ==> Keyed(page.value.items) && seen.keys == old(seen.keys) + KeySet(page.value.items)
  {
    if requested < 1 || payload.items.None? || payload.paging.None? {
      return None;
    }
    var paging := ReadPaging(payload.paging.value, requested, expectedTotal, expectedSize);
    if paging.None? {
      return None;
    }
    var items, size, total := payload.items.value, paging.value.0, paging.value.1;
    var offset := (requested - 1) * size;
    if offset > total || |items| != Min(size, total - offset) {
      return None;
    }
    var pageKeys := ItemKeys(items, seen.keys);
    if pageKeys.None? {
      return None;
    }
    seen.keys := seen.keys + pageKeys.value;
    return Some(Page(items, total, size, offset + |items| == total));
  }

  method ItemKeys(items: seq<Item>, seen: set<string>) returns (pageKeys: Option<set<string>>)
    ensures pageKeys.Some? <==> NewKeys(items, seen)
    ensures pageKeys.Some? ==> pageKeys.value == KeySet(items)
  {
    var keys: set<string> := {};
    for i := 0 to |items|
      invariant NewKeys(items[..i], seen)
      invariant forall k :: k in keys <==> exists j :: 0 <= j < i && items[j].key.value == k
    {
      if !HasKey(items[i]) {
        return None;
      }
      var key := items[i].key.value;
      if key in keys || key in seen {
        return None;
      }
      assert forall k :: k in keys + {key} ==> k in keys || items[i].key.value == k;
      keys := keys + {key};
    }
    assert items[..|items|] == items;
    forall k ensures k in keys <==> k in KeySet(items) {
      if k in KeySet(items) {
        var j :| 0 <= j < |items| && KeysOf(items)[j] == k;
        assert items[j].key.value == k;
      }
      if k in keys {
        var j :| 0 <= j < |items| && items[j].key.value == k;
        assert KeysOf(items)[j] == k;
      }
    }
    return Some(keys);
  }

  // ------------------------------------------------------------ all pages

  datatype Fetched = Fetched(items: seq<Item>, total: int, size: int, pages: nat)

  /** The first page, or a later one that still has items to bring. */
  ghost predicate Expecting(page: int, total: Option<int>, size: Option<int>) {
    if page == 1 then total.None? && size.None?
    else page > 1 && total.Some? && size.Some? && size.value > 0 && (page - 1) * size.value < total.value
  }

  ghost function ItemsLeft(page: int, total: Option<int>, size: Option<int>): int {
    if total.Some? && size.Some? then total.value - (page - 1) * size.value else 0
  }

  /** A page that is not the last is full, and the next one starts before the total. */
  lemma NextPageExpected(payload: Payload, page: int, total: Option<int>, size: Option<int>, seen: set<string>)
    requires Expecting(page, total, size) && ReadPage(payload, page, total, size, seen).Some?
    ensures var p := ReadPage(payload, page, total, size, seen).value;
            && p.size > 0 && |p.items| <= p.size && |p.items| <= p.total - (page - 1) * p.size
            && (p.done <==> |p.items| == p.total - (page - 1) * p.size)
            && (!p.done ==> |p.items| == p.size && Expecting(page + 1, Some(p.total), Some(p.size)))
            && (total.Some? ==> total == Some(p.total)) && (size.Some? ==> size == Some(p.size))
            && NewKeys(p.items, seen)
  {
    var p := ReadPage(payload, page, total, size, seen).value;
    assert page * p.size == (page - 1) * p.size + p.size;
  }

  /** The pages from `page` on, up to the one that completes the total. */
  function Fetch(server: Server, page: int, total: Option<int>, size: Option<int>, seen: set<string>): Option<Fetched>
    requires Expecting(page, total, size)
    decreases if page == 1 then 1 else 0, ItemsLeft(page, total, size)
  {
    var payload := server(page);
    if payload.None? then None
    else
      var p := ReadPage(payload.value, page, total, size, seen);
      if p.None? then None
      else
        NextPageExpected(payload.value, page, total, size, seen);
        if p.value.done then Some(Fetched(p.value.items, p.value.total, p.value.size, 1))
        else
          assert (page + 1 - 1) * p.value.size == (page - 1) * p.value.size + p.value.size;
          Prepend(p.value.items, 1, Fetch(server, page + 1, Some(p.value.total), Some(p.value.size), seen + KeySet(p.value.items)))
  }

  function Prepend(items: seq<Item>, pages: nat, rest: Option<Fetched>): Option<Fetched> {
    if rest.None? then None
    else Some(Fetched(items + rest.value.items, rest.value.total, rest.value.size, pages + rest.value.pages))
  }

  function FetchAll(server: Server): Option<Fetched> {
    Fetch(server, 1, None, None, {})
  }

  lemma KeysOfConcat(a: seq<Item>, b: seq<Item>, seen: set<string>)
    requires NewKeys(a, seen) && NewKeys(b, seen + KeySet(a))
    ensures NewKeys(a + b, seen)
  {
    var c := a + b;
    forall i, j | 0 <= i < j < |c| ensures c[i].key.value != c[j].key.value {
      if i < |a| <= j {
        assert KeysOf(a)[i] in KeySet(a);
        assert b[j - |a|].key.value !in KeySet(a);
      }
    }
  }

  /** What is left of the total after the pages before `page`. */
  lemma {:induction false} FetchIsComplete(server: Server, page: int, total: Option<int>, size: Option<int>, seen: set<string>)
    requires Expecting(page, total, size) && Fetch(server, page, total, size, seen).Some?
    ensures var f := Fetch(server, page, total, size, seen).value;
            && f.size > 0 && f.total >= 0 && f.pages >= 1
            && (total.Some? ==> total == Some(f.total)) && (size.Some? ==> size == Some(f.size))
            && |f.items| == f.total - (page - 1) * f.size
            && NewKeys(f.items, seen)
            && |f.items| <= f.pages * f.size && (f.pages == 1 || (f.pages - 1) * f.size < |f.items|)
    decreases if page == 1 then 1 else 0, ItemsLeft(page, total, size)
  {
    hide ReadPage, NewKeys, Keyed, KeySet;
    var payload := server(page).value;
    var p := ReadPage(payload, page, total, size, seen).value;
    NextPageExpected(payload, page, total, size, seen);
    if !p.done {
      assert (page + 1 - 1) * p.size == (page - 1) * p.size + p.size;
      PageKeyed(p.items, seen);
      FetchIsComplete(server, page + 1, Some(p.total), Some(p.size), seen + KeySet(p.items));
      var rest := Fetch(server, page + 1, Some(p.total), Some(p.size), seen + KeySet(p.items)).value;
      KeysOfConcat(p.items, rest.items, seen);
      OneMorePage(rest.pages, p.size);
    }
  }

  lemma PageKeyed(items: seq<Item>, seen: set<string>)
    requires NewKeys(items, seen)
    ensures Keyed(items)
  {
  }

  lemma OneMorePage(pages: nat, size: int)
    ensures (pages + 1) * size == pages * size + size
    ensures pages * size == (pages - 1) * size + size
  {
  }

  /** Division that rounds up. */
  function CeilDiv(n: nat, d: nat): nat
    requires d > 0
  {
    (n + d - 1) / d
  }

  lemma CeilDivUnique(n: nat, d: nat, q: nat)
    requires d > 0 && q >= 1 && (q - 1) * d < n <= q * d
    ensures CeilDiv(n, d) == q
  {
    var m := n + d - 1;
    var r := m - q * d;
    assert q * d == (q - 1) * d + d;
    assert 0 <= r < d && m == q * d + r;
    QuotientUnique(m, d, q, r);
  }

  /** Whatever the server answers, a fetch that returns has exactly the advertised number of items,
      each key once, in as many pages as that number needs. */
  lemma FetchAllIsComplete(server: Server)
    requires FetchAll(server).Some?
    ensures var f := FetchAll(server).value;
            && f.size > 0 && f.total >= 0
            && |f.items| == f.total
            && NewKeys(f.items, {})
            && f.pages == if f.total == 0 then 1 else CeilDiv(f.total, f.size)
  {
    FetchIsComplete(server, 1, None, None, {});
    var f := FetchAll(server).value;
    if f.total > 0 {
      CeilDivUnique(f.total, f.size, f.pages);
    }
  }

  // -------------------------------------------------- issues and project rows

  datatype ProjectRow = ProjectRow(key: string, rule: string, message: Freezing.Json)

  datatype Placement = Placement(issues: seq<Issue>, rows: seq<ProjectRow>)

  /** How a fetch tells project-level issues from file issues. */
  datatype Filter = Filter(collecting: bool, project: string, approved: set<string>)

  predicate IsProjectLevel(item: Item, filter: Filter) {
    filter.collecting && item.Object? && item.component == Some(filter.project)
  }

  /** One item: an approved project-level issue, a file issue, or an error. */
  function Place(item: Item, filter: Filter, sorted: Placement): Option<Placement>
    requires HasKey(item)
  {
    if IsProjectLevel(item, filter) then
      if item.rule.None? || item.rule.value !in filter.approved || item.message.None? then None
      else Some(sorted.(rows := sorted.rows + [ProjectRow(item.key.value, item.rule.value, item.message.value)]))
    else if item.canonical.None? then None
    else Some(sorted.(issues := sorted.issues + [item.canonical.value]))
  }

  function PlaceAll(items: seq<Item>, filter: Filter): Option<Placement>
    requires Keyed(items)
  {
    if items == [] then Some(Placement([], []))
    else
      var before := PlaceAll(items[..|items| - 1], filter);
      if before.None? then None else Place(items[|items| - 1], filter, before.value)
  }

  /** No item is lost or counted twice: file issues and project rows together are the items. */
  lemma {:induction false} PlacedIsPartition(items: seq<Item>, filter: Filter)
    requires Keyed(items) && PlaceAll(items, filter).Some?
    ensures var s := PlaceAll(items, filter).value; |s.issues| + |s.rows| == |items|
    ensures !filter.collecting ==> PlaceAll(items, filter).value.rows == []
  {
    if items != [] {
      PlacedIsPartition(items[..|items| - 1], filter);
    }
  }

  lemma {:induction false} PlacePrefix(items: seq<Item>, filter: Filter, n: nat)
    requires Keyed(items) && n <= |items| && PlaceAll(items, filter).Some?
    ensures Keyed(items[..n]) && PlaceAll(items[..n], filter).Some?
    decreases |items|
  {
    if n == |items| {
      assert items[..n] == items;
    } else {
      var front := items[..|items| - 1];
      PlacePrefix(front, filter, n);
      assert front[..n] == items[..n];
    }
  }

  /** The outcome of a whole fetch whose keys must also be new to `seenIssues`. */
  function FetchIssues(server: Server, filter: Filter, seenIssues: set<string>): Option<Placement> {
    var f := FetchAll(server);
    if f.None? || !NewKeys(f.value.items, seenIssues) then None else PlaceAll(f.value.items, filter)
  }

  /** The list that several fetches add project-level issues to. */
  class ProjectIssues {
    var rows: seq<ProjectRow>

    constructor ()
      ensures rows == []
    {
      rows := [];
    }
  }

  lemma FetchUnfolds(server: Server, page: int, total: Option<int>, size: Option<int>, seen: set<string>)
    requires Expecting(page, total, size)
    ensures server(page).None? ==> Fetch(server, page, total, size, seen) == None
    ensures server(page).Some? ==>
              var p := ReadPage(server(page).value, page, total, size, seen);
              && (p.None? ==> Fetch(server, page, total, size, seen) == None)
              && (p.Some? ==>
                    && Keyed(p.value.items)
                    && if p.value.done then
                         Fetch(server, page, total, size, seen) == Some(Fetched(p.value.items, p.value.total, p.value.size, 1))
                       else
                         && Expecting(page + 1, Some(p.value.total), Some(p.value.size))
                         && Fetch(server, page, total, size, seen)
                            == Prepend(p.value.items, 1, Fetch(server, page + 1, Some(p.value.total), Some(p.value.size), seen + KeySet(p.value.items))))
  {
    hide ReadPage, NewKeys;
    if server(page).Some? && ReadPage(server(page).value, page, total, size, seen).Some? {
      NextPageExpected(server(page).value, page, total, size, seen);
      PageKeyed(ReadPage(server(page).value, page, total, size, seen).value.items, seen);
    }
  }

  lemma PrependTwice(a: seq<Item>, b: seq<Item>, m: nat, n: nat, rest: Option<Fetched>)
    ensures Prepend(a, m, Prepend(b, n, rest)) == Prepend(a + b, m + n, rest)
  {
    if rest.Some? {
      assert a + (b + rest.value.items) == a + b + rest.value.items;
    }
  }

  lemma KeySetConcat(a: seq<Item>, b: seq<Item>)
    requires Keyed(a) && Keyed(b)
    ensures Keyed(a + b) && KeySet(a + b) == KeySet(a) + KeySet(b)
  {
    assert KeysOf(a + b) == KeysOf(a) + KeysOf(b);
  }

  lemma NewKeysOfConcat(a: seq<Item>, b: seq<Item>, seen: set<string>)
    requires Keyed(a)
    ensures NewKeys(a + b, seen) <==> NewKeys(a, seen) && NewKeys(b, seen + KeySet(a))
  {
    var c := a + b;
    if NewKeys(a, seen) && NewKeys(b, seen + KeySet(a)) {
      KeysOfConcat(a, b, seen);
    }
    if NewKeys(c, seen) {
      forall i | 0 <= i < |b| ensures HasKey(b[i]) && b[i].key.value !in seen + KeySet(a) {
        assert b[i] == c[|a| + i];
        forall j | 0 <= j < |a| ensures KeysOf(a)[j] != b[i].key.value {
          assert c[j] == a[j];
        }
      }
      forall i, j | 0 <= i < j < |b| ensures b[i].key.value != b[j].key.value {
        assert b[i] == c[|a| + i] && b[j] == c[|a| + j];
      }
      forall i | 0 <= i < |a| ensures a[i].key.value !in seen {
        assert a[i] == c[i];
      }
      forall i, j | 0 <= i < j < |a| ensures a[i].key.value != a[j].key.value {
        assert a[i] == c[i] && a[j] == c[j];
      }
    }
  }

  /** An item that cannot be placed or repeats a shared key fails the whole fetch. */
  lemma FailsForGood(server: Server, filter: Filter, shared: set<string>, begun: seq<Item>, items: seq<Item>, pages: nat, rest: Option<Fetched>)
    requires FetchAll(server) == Prepend(begun + items, pages, rest)
    requires Keyed(begun) && NewKeys(begun, shared) && Keyed(items)
    requires !(NewKeys(items, shared + KeySet(begun)) && PlaceAll(begun + items, filter).Some?)
    ensures FetchIssues(server, filter, shared).None?
  {
    hide Fetch, NewKeys, PlaceAll;
    if rest.Some? && FetchIssues(server, filter, shared).Some? {
      var all := FetchAll(server).value.items;
      PageKeyed(all, shared);
      assert all == begun + (items + rest.value.items) == begun + items + rest.value.items;
      NewKeysOfConcat(begun, items + rest.value.items, shared);
      NewKeysOfConcat(items, rest.value.items, shared + KeySet(begun));
      assert all[..|begun + items|] == begun + items;
      PlacePrefix(all, filter, |begun + items|);
    }
  }

  /** Places the items of one page, extending the shared keys as it goes. */
  method PlacePage(items: seq<Item>, filter: Filter, projectIssues: ProjectIssues, seenIssueKeys: Seen, found0: seq<Issue>,
                   ghost begun: seq<Item>, ghost rows0: seq<ProjectRow>)
    returns (found: seq<Issue>, ok: bool)
    requires Keyed(items) && Keyed(begun) && PlaceAll(begun, filter).Some?
    requires found0 == PlaceAll(begun, filter).value.issues
    requires projectIssues.rows == rows0 + PlaceAll(begun, filter).value.rows
    modifies projectIssues, seenIssueKeys
    ensures Keyed(begun + items)
    ensures ok <==> NewKeys(items, old(seenIssueKeys.keys)) && PlaceAll(begun + items, filter).Some?
    ensures ok ==>
              var s := PlaceAll(begun + items, filter).value;
              && found == s.issues && projectIssues.rows == rows0 + s.rows
              && seenIssueKeys.keys == old(seenIssueKeys.keys) + KeySet(items)
  {
    hide NewKeys;
    found := found0;
    ghost var shared := seenIssueKeys.keys;
    NewKeysOfNothing(shared);
    assert begun + items[..0] == begun;
    for i := 0 to |items|
      invariant Keyed(items[..i]) && NewKeys(items[..i], shared)
      invariant seenIssueKeys.keys == shared + KeySet(items[..i])
      invariant Keyed(begun + items[..i]) && PlaceAll(begun + items[..i], filter).Some?
      invariant found == PlaceAll(begun + items[..i], filter).value.issues
      invariant projectIssues.rows == rows0 + PlaceAll(begun + items[..i], filter).value.rows
    {
      var item := items[i];
      ghost var before := PlaceAll(begun + items[..i], filter).value;
      OneMoreItem(begun, items, i, shared, filter);
      if item.key.value in seenIssueKeys.keys {
        return found, false;
      }
      seenIssueKeys.keys := seenIssueKeys.keys + {item.key.value};
      if filter.collecting && item.component == Some(filter.project) {
        if item.rule.None? || item.rule.value !in filter.approved || item.message.None? {
          return found, false;
        }
        projectIssues.rows := projectIssues.rows + [ProjectRow(item.key.value, item.rule.value, item.message.value)];
      } else {
        if item.canonical.None? {
          return found, false;
        }
        found := found + [item.canonical.value];
      }
    }
    assert items[..|items|] == items;
    return found, true;
  }

  lemma NewKeysOfNothing(seen: set<string>)
    ensures NewKeys([], seen) && KeySet([]) == {}
  {
  }

  /** What taking one more item of a page means for keys and places. */
  lemma OneMoreItem(begun: seq<Item>, items: seq<Item>, i: nat, shared: set<string>, filter: Filter)
    requires i < |items| && Keyed(items) && Keyed(begun)
    requires NewKeys(items[..i], shared)
    ensures Keyed(items[..i]) && Keyed(items[..i + 1]) && Keyed(begun + items[..i]) && Keyed(begun + items[..i + 1])
    ensures KeySet(items[..i + 1]) == KeySet(items[..i]) + {items[i].key.value}
    ensures NewKeys(items[..i + 1], shared) <==> items[i].key.value !in shared + KeySet(items[..i])
    ensures NewKeys(items, shared) ==> NewKeys(items[..i + 1], shared)
    ensures PlaceAll(begun + items[..i], filter).Some? ==>
              PlaceAll(begun + items[..i + 1], filter) == Place(items[i], filter, PlaceAll(begun + items[..i], filter).value)
    ensures PlaceAll(begun + items, filter).Some? ==> PlaceAll(begun + items[..i + 1], filter).Some?
  {
    hide PlaceAll, Place, NewKeys;
    assert items[..i + 1] == items[..i] + [items[i]];
    KeySetConcat(items[..i], [items[i]]);
    OneKey(items[i]);
    NewKeysOfConcat(items[..i], [items[i]], shared);
    OneNewKey(items[i], shared + KeySet(items[..i]));
    assert items == items[..i + 1] + items[i + 1..];
    NewKeysOfConcat(items[..i + 1], items[i + 1..], shared);
    PlaceOneMore(begun + items[..i], items[i], filter);
    assert begun + items[..i] + [items[i]] == begun + items[..i + 1];
    assert (begun + items)[..|begun| + i + 1] == begun + items[..i + 1];
    if PlaceAll(begun + items, filter).Some? {
      PlacePrefix(begun + items, filter, |begun| + i + 1);
    }
  }

  lemma OneKey(item: Item)
    requires HasKey(item)
    ensures KeySet([item]) == {item.key.value}
  {
    assert KeysOf([item]) == [item.key.value];
  }

  lemma OneNewKey(item: Item, seen: set<string>)
    requires HasKey(item)
    ensures NewKeys([item], seen) <==> item.key.value !in seen
  {
    assert [item][0] == item;
  }

  lemma PlaceOneMore(items: seq<Item>, item: Item, filter: Filter)
    requires Keyed(items) && HasKey(item)
    ensures Keyed(items + [item])
    ensures PlaceAll(items, filter).Some? ==>
              PlaceAll(items + [item], filter) == Place(item, filter, PlaceAll(items, filter).value)
  {
    assert (items + [item])[..|items|] == items;
  }

  /** The paginated fetch. The shared keys and project rows are extended by exactly what it brings;
      they are not specified after an error, which ends the whole run. */
  method FetchPaginated(server: Server, filter: Filter, projectIssues: ProjectIssues, seenIssueKeys: Seen)
    returns (issues: Option<seq<Issue>>)
    modifies projectIssues, seenIssueKeys
    ensures issues.Some? <==> FetchIssues(server, filter, old(seenIssueKeys.keys)).Some?
    ensures issues.Some? ==>
              var s, f := FetchIssues(server, filter, old(seenIssueKeys.keys)).value, FetchAll(server).value;
              && issues.value == s.issues
              && projectIssues.rows == old(projectIssues.rows) + s.rows
              && Keyed(f.items) && seenIssueKeys.keys == old(seenIssueKeys.keys) + KeySet(f.items)
  {
    hide Fetch, ReadPage, NewKeys, PlaceAll, KeySet;
    var page := 1;
    var expectedTotal: Option<int>, expectedSize: Option<int> := None, None;
    var seen := new Seen();
    var found: seq<Issue> := [];
    ghost var shared, rows0 := seenIssueKeys.keys, projectIssues.rows;
    ghost var begun: seq<Item> := [];
    StartFetch(server, filter, shared);
    while true
      invariant fresh(seen) && seen != seenIssueKeys
      invariant Expecting(page, expectedTotal, expectedSize)
      invariant Keyed(begun) && NewKeys(begun, shared)
      invariant seenIssueKeys.keys == shared + KeySet(begun)
      invariant FetchAll(server) == Prepend(begun, page - 1, Fetch(server, page, expectedTotal, expectedSize, seen.keys))
      invariant PlaceAll(begun, filter).Some? && found == PlaceAll(begun, filter).value.issues
      invariant projectIssues.rows == rows0 + PlaceAll(begun, filter).value.rows
      decreases if page == 1 then 1 else 0, ItemsLeft(page, expectedTotal, expectedSize)
    {
      var payload := server(page);
      FetchUnfolds(server, page, expectedTotal, expectedSize, seen.keys);
      if payload.None? {
        return None;
      }
      ghost var before := seen.keys;
      var p := ValidateSearchPage(payload.value, page, expectedTotal, expectedSize, seen);
      if p.None? {
        return None;
      }
      var items := p.value.items;
      ghost var rest := if p.value.done then Some(Fetched([], p.value.total, p.value.size, 0))
                        else Fetch(server, page + 1, Some(p.value.total), Some(p.value.size), seen.keys);
      assert items + [] == items;
      assert Fetch(server, page, expectedTotal, expectedSize, before) == Prepend(items, 1, rest);
      PrependTwice(begun, items, page - 1, 1, rest);
      var ok;
      found, ok := PlacePage(items, filter, projectIssues, seenIssueKeys, found, begun, rows0);
      if !ok {
        FailsForGood(server, filter, shared, begun, items, page, rest);
        return None;
      }
      NewKeysOfConcat(begun, items, shared);
      KeySetConcat(begun, items);
      ghost var left := ItemsLeft(page, expectedTotal, expectedSize);
      begun := begun + items;
      if p.value.done {
        assert begun + [] == begun;
        return Some(found);
      }
      FewerLeft(payload.value, page, expectedTotal, expectedSize, before);
      expectedTotal, expectedSize := Some(p.value.total), Some(p.value.size);
      page := page + 1;
    }
  }

  lemma StartFetch(server: Server, filter: Filter, shared: set<string>)
    ensures FetchAll(server) == Prepend([], 0, Fetch(server, 1, None, None, {}))
    ensures NewKeys([], shared) && KeySet([]) == {}
    ensures PlaceAll([], filter) == Some(Placement([], []))
  {
    hide Fetch;
    if Fetch(server, 1, None, None, {}).Some? {
      var items := Fetch(server, 1, None, None, {}).value.items;
      assert [] + items == items;
    }
  }

  lemma FewerLeft(payload: Payload, page: int, total: Option<int>, size: Option<int>, seen: set<string>)
    requires Expecting(page, total, size) && ReadPage(payload, page, total, size, seen).Some?
    requires !ReadPage(payload, page, total, size, seen).value.done
    ensures var p := ReadPage(payload, page, total, size, seen).value;
            total.Some? && size.Some? ==> 0 <= ItemsLeft(page + 1, Some(p.total), Some(p.size)) < ItemsLeft(page, total, size)
    ensures page != 1 ==> total.Some? && size.Some?
  {
    NextPageExpected(payload, page, total, size, seen);
    var p := ReadPage(payload, page, total, size, seen).value;
    assert (page + 1 - 1) * p.size == (page - 1) * p.size + p.size;
  }

  // ---------------------------------------------------------- the five shards

  /** All items of the shards from the first on; each shard is fetched with keys of its own. */
  function ShardItems(shards: seq<Server>): Option<seq<Item>> {
    if shards == [] then Some([])
    else
      var front, last := ShardItems(shards[..|shards| - 1]), FetchAll(shards[|shards| - 1]);
      if front.None? || last.None? then None else Some(front.value + last.value.items)
  }

  function Sum(xs: seq<int>): int {
    if xs == [] then 0 else Sum(xs[..|xs| - 1]) + xs[|xs| - 1]
  }

  predicate AllSome(xs: seq<Option<int>>) {
    forall i :: 0 <= i < |xs| ==> xs[i].Some?
  }

  function Values(xs: seq<Option<int>>): seq<int>
    requires AllSome(xs)
  {
    seq(|xs|, i requires 0 <= i < |xs| => xs[i].value)
  }

  /** The issues of a project that is fetched severity by severity: the advertised totals must add up
      and the keys over all shards must number the advertised total. */
  function FetchShards(baseline: Option<int>, totals: seq<Option<int>>, shards: seq<Server>, filter: Filter): Option<Placement> {
    if baseline.None? || !AllSome(totals) || Sum(Values(totals)) != baseline.value then None
    else
      var items := ShardItems(shards);
      if items.None? || !NewKeys(items.value, {}) || |KeySet(items.value)| != baseline.value then None
      else PlaceAll(items.value, filter)
  }

  lemma {:induction false} KeyCount(items: seq<Item>)
    requires NewKeys(items, {})
    ensures |KeySet(items)| == |items|
  {
    if items == [] {
      assert KeySet(items) == {};
    } else {
      var front, last := items[..|items| - 1], items[|items| - 1];
      assert items == front + [last];
      NewKeysOfConcat(front, [last], {});
      KeyCount(front);
      KeySetConcat(front, [last]);
      OneKey(last);
      OneNewKey(last, {} + KeySet(front));
    }
  }

  /** A sharded fetch that returns brings exactly the advertised number of issues: file issues and
      project-level issues together, no key twice, in one shard or across shards. */
  lemma ShardsAreComplete(baseline: Option<int>, totals: seq<Option<int>>, shards: seq<Server>, filter: Filter)
    requires FetchShards(baseline, totals, shards, filter).Some?
    ensures ShardItems(shards).Some? && NewKeys(ShardItems(shards).value, {})
    ensures var s, items := FetchShards(baseline, totals, shards, filter).value, ShardItems(shards).value;
            && baseline == Some(|items|)
            && |s.issues| + |s.rows| == |items|
            && PlaceAll(items, filter) == Some(s)
  {
    hide ShardItems, NewKeys, PlaceAll;
    var items := ShardItems(shards).value;
    KeyCount(items);
    PageKeyed(items, {});
    PlacedIsPartition(items, filter);
  }

  lemma ShardsOneMore(shards: seq<Server>, k: nat)
    requires k < |shards|
    ensures ShardItems(shards[..k + 1])
            == var front, last := ShardItems(shards[..k]), FetchAll(shards[k]);
               if front.None? || last.None? then None else Some(front.value + last.value.items)
  {
    assert shards[..k + 1][..k] == shards[..k];
  }

  lemma {:induction false} ShardsPrefix(shards: seq<Server>, k: nat)
    requires k <= |shards| && ShardItems(shards).Some?
    ensures ShardItems(shards[..k]).Some? && ShardItems(shards[..k]).value <= ShardItems(shards).value
    decreases |shards|
  {
    if k == |shards| {
      assert shards[..k] == shards;
    } else {
      ShardsPrefix(shards[..|shards| - 1], k);
      assert shards[..|shards| - 1][..k] == shards[..k];
    }
  }

  lemma {:induction false} PlaceAppends(a: seq<Item>, b: seq<Item>, filter: Filter)
    requires Keyed(a) && Keyed(b)
    ensures Keyed(a + b)
    ensures PlaceAll(a + b, filter).Some? <==> PlaceAll(a, filter).Some? && PlaceAll(b, filter).Some?
    ensures PlaceAll(a + b, filter).Some? ==>
              PlaceAll(a + b, filter).value
              == Placement(PlaceAll(a, filter).value.issues + PlaceAll(b, filter).value.issues,
                        PlaceAll(a, filter).value.rows + PlaceAll(b, filter).value.rows)
    decreases |b|
  {
    if b == [] {
      assert a + b == a;
      if PlaceAll(a, filter).Some? {
        var s := PlaceAll(a, filter).value;
        assert s.issues + [] == s.issues && s.rows + [] == s.rows;
      }
    } else {
      var front, last := b[..|b| - 1], b[|b| - 1];
      PlaceAppends(a, front, filter);
      assert (a + b)[..|a + b| - 1] == a + front;
    }
  }

  /** The sharded fetch over shared keys and project rows. */
  method FetchStandardIssues(baseline: Option<int>, totals: seq<Option<int>>, shards: seq<Server>, filter: Filter,
                             projectIssues: ProjectIssues)
    returns (issues: Option<seq<Issue>>)
    modifies projectIssues
    ensures issues.Some? <==> FetchShards(baseline, totals, shards, filter).Some?
    ensures issues.Some? ==>
              var s := FetchShards(baseline, totals, shards, filter).value;
              issues.value == s.issues && projectIssues.rows == old(projectIssues.rows) + s.rows
  {
    hide ShardItems, NewKeys, PlaceAll, KeySet, FetchAll, Keyed;
    if baseline.None? || !AllSome(totals) || Sum(Values(totals)) != baseline.value {
      return None;
    }
    var found: seq<Issue> := [];
    var seenIssueKeys := new Seen();
    ghost var rows0 := projectIssues.rows;
    ghost var begun: seq<Item> := [];
    NoShards(filter);
    for k := 0 to |shards|
      invariant fresh(seenIssueKeys)
      invariant ShardItems(shards[..k]) == Some(begun)
      invariant Keyed(begun) && NewKeys(begun, {}) && seenIssueKeys.keys == KeySet(begun)
      invariant PlaceAll(begun, filter).Some? && found == PlaceAll(begun, filter).value.issues
      invariant projectIssues.rows == rows0 + PlaceAll(begun, filter).value.rows
    {
      ShardsOneMore(shards, k);
      var more := FetchPaginated(shards[k], filter, projectIssues, seenIssueKeys);
      ShardStep(baseline, totals, shards, filter, k, begun);
      if more.None? {
        return None;
      }
      found := found + more.value;
      begun := begun + FetchAll(shards[k]).value.items;
    }
    assert shards[..|shards|] == shards;
    if |seenIssueKeys.keys| != baseline.value {
      return None;
    }
    return Some(found);
  }

  lemma NoShards(filter: Filter)
    ensures ShardItems([]) == Some([]) && Keyed([]) && NewKeys([], {}) && KeySet([]) == {}
    ensures PlaceAll([], filter) == Some(Placement([], []))
  {
  }

  /** One shard: its failure is the failure of the whole, its success extends what was begun. */
  lemma ShardStep(baseline: Option<int>, totals: seq<Option<int>>, shards: seq<Server>, filter: Filter, k: nat, begun: seq<Item>)
    requires k < |shards| && ShardItems(shards[..k]) == Some(begun) && NewKeys(begun, {})
    ensures Keyed(begun)
    ensures FetchIssues(shards[k], filter, KeySet(begun)).None? ==> FetchShards(baseline, totals, shards, filter).None?
    ensures FetchIssues(shards[k], filter, KeySet(begun)).Some? && PlaceAll(begun, filter).Some? ==>
              var items := FetchAll(shards[k]).value.items;
              && Keyed(items) && NewKeys(begun + items, {}) && Keyed(begun + items)
              && KeySet(begun + items) == KeySet(begun) + KeySet(items)
              && PlaceAll(begun + items, filter).Some?
              && PlaceAll(begun + items, filter).value
                 == Placement(PlaceAll(begun, filter).value.issues + PlaceAll(items, filter).value.issues,
                           PlaceAll(begun, filter).value.rows + PlaceAll(items, filter).value.rows)
  {
    hide ShardItems, NewKeys, PlaceAll, KeySet, FetchAll;
    PageKeyed(begun, {});
    assert {} + KeySet(begun) == KeySet(begun);
    ShardsOneMore(shards, k);
    if FetchAll(shards[k]).Some? {
      ShardKeys(shards[k], begun, filter);
    }
    if FetchShards(baseline, totals, shards, filter).Some? {
      var all := ShardItems(shards).value;
      ShardsPrefix(shards, k + 1);
      var items := FetchAll(shards[k]).value.items;
      PageKeyed(all, {});
      assert all == begun + items + all[|begun + items|..];
      KeyedPrefix(begun + items, all[|begun + items|..]);
      NewKeysOfConcat(begun + items, all[|begun + items|..], {});
      PlacePrefix(all, filter, |begun + items|);
      assert all[..|begun + items|] == begun + items;
    }
  }

  lemma KeyedPrefix(a: seq<Item>, b: seq<Item>)
    requires Keyed(a + b)
    ensures Keyed(a) && Keyed(b)
  {
    forall i | 0 <= i < |a| ensures HasKey(a[i]) {
      assert (a + b)[i] == a[i];
    }
    forall i | 0 <= i < |b| ensures HasKey(b[i]) {
      assert (a + b)[|a| + i] == b[i];
    }
  }

  lemma ShardKeys(shard: Server, begun: seq<Item>, filter: Filter)
    requires FetchAll(shard).Some? && NewKeys(begun, {})
    ensures var items := FetchAll(shard).value.items;
            && Keyed(begun) && Keyed(items) && Keyed(begun + items)
            && (NewKeys(begun + items, {}) <==> NewKeys(items, KeySet(begun)))
            && KeySet(begun + items) == KeySet(begun) + KeySet(items)
            && (PlaceAll(begun + items, filter).Some? <==> PlaceAll(begun, filter).Some? && PlaceAll(items, filter).Some?)
            && (PlaceAll(begun + items, filter).Some? ==>
                  PlaceAll(begun + items, filter).value
                  == Placement(PlaceAll(begun, filter).value.issues + PlaceAll(items, filter).value.issues,
                            PlaceAll(begun, filter).value.rows + PlaceAll(items, filter).value.rows))
  {
    hide NewKeys, PlaceAll, KeySet, Fetch;
    var items := FetchAll(shard).value.items;
    FetchAllIsComplete(shard);
    PageKeyed(begun, {});
    PageKeyed(items, {});
    NewKeysOfConcat(begun, items, {});
    assert {} + KeySet(begun) == KeySet(begun);
    KeySetConcat(begun, items);
    PlaceAppends(begun, items, filter);
  }
}
