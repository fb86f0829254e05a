/** The count-based paginator of the rule capture (xtask/src/main.rs:627-753) and its agreement with
    the offset-based one. */
module CountPaging {
  import opened Arithmetic
  import opened Orders
  import opened Paging

  const LIMIT := 0x1_0000_0000_0000_0000

  /** A JSON number as a 64-bit unsigned integer. */
  function AsU64(value: Option<int>): Option<nat> {
    if value.Some? && 0 <= value.value < LIMIT then Some(value.value) else None
  }

  datatype Capture = Capture(total: nat, keys: set<string>, pages: nat)

  /** The rules of an answer whose paging fits the page size and the count of keys so far. */
  function ReadRules(payload: Payload, page: nat, size: nat, total: Option<nat>, prior: nat): Option<(nat, seq<Item>)> {
    if payload.paging.None? then None
    else
      var paging := payload.paging.value;
      var responseTotal := AsU64(paging.total);
      if responseTotal.None? || (total.Some? && total != responseTotal) then None
      else if AsU64(paging.pageIndex) != Some(page) || AsU64(paging.pageSize) != Some(size) then None
      else if payload.items.None? || responseTotal.value < prior then None
      else if |payload.items.value| != Min(responseTotal.value - prior, size) then None
      else Some((responseTotal.value, payload.items.value))
  }

  /** The rules' keys added to those known, if each is in the repository and new. */
  function AddKeys(items: seq<Item>, inRepository: string -> bool, keys: set<string>): Option<set<string>> {
    if items == [] then Some(keys)
    else
      var before := AddKeys(items[..|items| - 1], inRepository, keys);
      var item := items[|items| - 1];
      if before.None? || item.NoObject? || item.key.None? || !inRepository(item.key.value) || item.key.value in before.value then None
      else Some(before.value + {item.key.value})
  }

  /** Whether the paginator's own later checks are made: that a page that is not the last has rules,
      and that the final counts agree. */
  datatype Checks = Checks(emptyPage: bool, finalCounts: bool)

  function ExpectedPages(total: nat, size: nat): nat
    requires size > 0
  {
    if total == 0 then 1 else CeilDiv(total, size)
  }

  lemma {:induction false} AddKeysCount(items: seq<Item>, inRepository: string -> bool, keys: set<string>)
    requires AddKeys(items, inRepository, keys).Some?
    ensures |AddKeys(items, inRepository, keys).value| == |keys| + |items|
  {
    if items != [] {
      AddKeysCount(items[..|items| - 1], inRepository, keys);
    }
  }

  /** The pages from `page` on. Without the check for empty pages the loop still ends: a page that
      is not the last brings as many keys as fit. */
  function Collect(server: Server, size: nat, inRepository: string -> bool, checks: Checks,
                   page: nat, total: Option<nat>, keys: set<string>): Option<Capture>
    requires size > 0
    requires total.Some? ==> |keys| < total.value
    decreases if total.None? then 1 else 0, if total.Some? then total.value - |keys| else 0
  {
    var payload := server(page);
    if payload.None? then None
    else
      var rules := ReadRules(payload.value, page, size, total, |keys|);
      if rules.None? then None
      else
        var known := AddKeys(rules.value.1, inRepository, keys);
        if known.None? then None
        else
          AddKeysCount(rules.value.1, inRepository, keys);
          if |known.value| >= rules.value.0 then Some(Capture(rules.value.0, known.value, 1))
          else if checks.emptyPage && rules.value.1 == [] then None
          else CountPage(Collect(server, size, inRepository, checks, page + 1, Some(rules.value.0), known.value))
  }

  function CountPage(rest: Option<Capture>): Option<Capture> {
    if rest.None? then None else Some(rest.value.(pages := rest.value.pages + 1))
  }

  /** The whole capture. */
  function CaptureRulePages(server: Server, size: nat, inRepository: string -> bool, checks: Checks): Option<Capture>
    requires size > 0
  {
    var c := Collect(server, size, inRepository, checks, 1, None, {});
    if c.None? then None
    else if checks.finalCounts && (|c.value.keys| != c.value.total || c.value.pages != ExpectedPages(c.value.total, size)) then None
    else c
  }

  // --------------------------------------------------------- agreeing on pages

  /** Every key of these items lies in the repository. */
  predicate InRepository(items: seq<Item>, inRepository: string -> bool)
    requires Keyed(items)
  {
    forall i :: 0 <= i < |items| ==> inRepository(items[i].key.value)
  }

  /** Keys of a repository are never empty, since they carry its prefix. */
  ghost predicate NoEmptyKey(inRepository: string -> bool) {
    !inRepository("")
  }

  lemma {:induction false} AddKeysIsNewKeys(items: seq<Item>, inRepository: string -> bool, keys: set<string>)
    requires NoEmptyKey(inRepository)
    ensures AddKeys(items, inRepository, keys).Some? <==> NewKeys(items, keys) && InRepository(items, inRepository)
    ensures AddKeys(items, inRepository, keys).Some? ==> AddKeys(items, inRepository, keys).value == keys + KeySet(items)
  {
    if items == [] {
      NewKeysOfNothing(keys);
    } else {
      var front, last := items[..|items| - 1], items[|items| - 1];
      assert items == front + [last];
      AddKeysIsNewKeys(front, inRepository, keys);
      if Keyed(front) && HasKey(last) {
        NewKeysOfConcat(front, [last], keys);
        OneNewKey(last, keys + KeySet(front));
        KeySetConcat(front, [last]);
        OneKey(last);
        RepositoryOneMore(front, last, inRepository);
      } else {
        NotKeyed(front, last, keys);
      }
    }
  }

  lemma RepositoryOneMore(front: seq<Item>, last: Item, inRepository: string -> bool)
    requires Keyed(front) && HasKey(last)
    ensures Keyed(front + [last])
    ensures InRepository(front + [last], inRepository) <==> InRepository(front, inRepository) && inRepository(last.key.value)
  {
    var all := front + [last];
    if InRepository(all, inRepository) {
      forall i | 0 <= i < |front| ensures inRepository(front[i].key.value) {
        assert all[i] == front[i];
      }
      assert all[|front|] == last;
    }
  }

  lemma OnlyItemKeyed(item: Item)
    ensures Keyed([item]) <==> HasKey(item)
  {
    assert [item][0] == item;
  }

  lemma NotKeyed(front: seq<Item>, last: Item, seen: set<string>)
    requires !(Keyed(front) && HasKey(last))
    ensures !NewKeys(front + [last], seen)
  {
    if Keyed(front + [last]) {
      KeyedPrefix(front, [last]);
      OnlyItemKeyed(last);
    }
  }

  /** With equal page sizes and as many keys as the offset, the two readers accept the same answers:
      the count-based one checks the remaining total, the offset-based one the offset. */
  lemma SamePage(payload: Payload, page: nat, size: nat, total: Option<nat>, expectedSize: Option<int>, seen: set<string>)
    requires size > 0 && page >= 1 && page < LIMIT && size < LIMIT && |seen| == (page - 1) * size
    requires expectedSize.Some? ==> expectedSize.value == size
    ensures var r, p := ReadRules(payload, page, size, total, |seen|), ReadPage(payload, page, total, expectedSize, seen);
            && (p.Some? && p.value.size == size && p.value.total < LIMIT
                <==> r.Some? && NewKeys(r.value.1, seen))
            && (p.Some? && r.Some? ==> p.value.items == r.value.1 && p.value.total == r.value.0)
  {
    hide NewKeys;
  }

  lemma CollectUnfolds(server: Server, size: nat, inRepository: string -> bool, checks: Checks,
                       page: nat, total: Option<nat>, keys: set<string>)
    requires size > 0 && (total.Some? ==> |keys| < total.value)
    ensures var c := Collect(server, size, inRepository, checks, page, total, keys);
            && (server(page).None? ==> c.None?)
            && (server(page).Some? ==>
                  var r := ReadRules(server(page).value, page, size, total, |keys|);
                  && (r.None? ==> c.None?)
                  && (r.Some? ==>
                        var known := AddKeys(r.value.1, inRepository, keys);
                        && (known.None? ==> c.None?)
                        && (known.Some? && |known.value| >= r.value.0 ==> c == Some(Capture(r.value.0, known.value, 1)))
                        && (known.Some? && |known.value| < r.value.0 && r.value.1 != [] ==>
                              c == CountPage(Collect(server, size, inRepository, checks, page + 1, Some(r.value.0), known.value)))))
  {
  }

  lemma PageFits(page: nat, size: nat, total: Option<nat>, seen: set<string>)
    requires page >= 1 && size > 0 && |seen| == (page - 1) * size
    requires if total.None? then page == 1 else |seen| < total.value < LIMIT
    ensures page < LIMIT
  {
    Scales(1, size, page - 1);
    assert size * (page - 1) == (page - 1) * size;
  }

  lemma SizeAndTotalStay(server: Server, page: int, total: Option<int>, size: Option<int>, seen: set<string>)
    requires Expecting(page, total, size) && Fetch(server, page, total, size, seen).Some?
    ensures server(page).Some? && ReadPage(server(page).value, page, total, size, seen).Some?
    ensures var f, p := Fetch(server, page, total, size, seen).value, ReadPage(server(page).value, page, total, size, seen).value;
            f.size == p.size && f.total == p.total && p.items <= f.items
  {
    hide ReadPage, NewKeys, KeySet;
    FetchUnfolds(server, page, total, size, seen);
    var p := ReadPage(server(page).value, page, total, size, seen).value;
    if !p.done {
      FetchIsComplete(server, page + 1, Some(p.total), Some(p.size), seen + KeySet(p.items));
    }
  }

  lemma RepositoryConcat(a: seq<Item>, b: seq<Item>, inRepository: string -> bool)
    requires Keyed(a) && Keyed(b)
    ensures Keyed(a + b)
    ensures InRepository(a + b, inRepository) <==> InRepository(a, inRepository) && InRepository(b, inRepository)
  {
    var c := a + b;
    if InRepository(c, inRepository) {
      forall i | 0 <= i < |a| ensures inRepository(a[i].key.value) {
        assert c[i] == a[i];
      }
      forall i | 0 <= i < |b| ensures inRepository(b[i].key.value) {
        assert c[|a| + i] == b[i];
      }
    }
  }

  /** What one paginator accepts, the other accepts, with the same outcome. */
  ghost predicate Agree(c: Option<Capture>, f: Option<Fetched>, size: nat, inRepository: string -> bool, seen: set<string>) {
    && (c.Some? <==> f.Some? && f.value.size == size && f.value.total < LIMIT
                     && Keyed(f.value.items) && InRepository(f.value.items, inRepository))
    && (c.Some? ==>
          && c.value.total == f.value.total && c.value.pages == f.value.pages
          && c.value.keys == seen + KeySet(f.value.items)
          && |c.value.keys| == c.value.total)
  }

  lemma AgreePrepended(c: Option<Capture>, f: Option<Fetched>, items: seq<Item>, size: nat, inRepository: string -> bool, seen: set<string>)
    requires Keyed(items) && InRepository(items, inRepository) && (f.Some? ==> Keyed(f.value.items))
    requires Agree(c, f, size, inRepository, seen + KeySet(items))
    ensures Agree(CountPage(c), Prepend(items, 1, f), size, inRepository, seen)
  {
    hide InRepository, KeySet, Keyed;
    if f.Some? {
      RepositoryConcat(items, f.value.items, inRepository);
      KeySetConcat(items, f.value.items);
    }
  }

  lemma FetchKeyed(server: Server, page: int, total: Option<int>, size: Option<int>, seen: set<string>)
    requires Expecting(page, total, size)
    ensures var f := Fetch(server, page, total, size, seen); f.Some? ==> Keyed(f.value.items)
  {
    hide Fetch;
    if Fetch(server, page, total, size, seen).Some? {
      FetchIsComplete(server, page, total, size, seen);
    }
  }

  lemma PrefixInRepository(items: seq<Item>, all: seq<Item>, inRepository: string -> bool)
    requires items <= all && Keyed(all) && InRepository(all, inRepository)
    ensures Keyed(items) && InRepository(items, inRepository)
  {
    forall i | 0 <= i < |items| ensures HasKey(items[i]) && inRepository(items[i].key.value) {
      assert items[i] == all[i];
    }
  }

  function Known(total: Option<nat>, size: nat): Option<int> {
    if total.None? then None else Some(size)
  }

  /** The page is refused by both, or for its size, total or keys. */
  lemma RefusedTogether(server: Server, size: nat, inRepository: string -> bool, checks: Checks,
                        page: nat, total: Option<nat>, seen: set<string>)
    requires 0 < size < LIMIT && NoEmptyKey(inRepository)
    requires 1 <= page < LIMIT && |seen| == (page - 1) * size
    requires Expecting(page, total, Known(total, size))
    requires total.Some? ==> |seen| < total.value < LIMIT
    requires server(page).Some? ==>
               var p := ReadPage(server(page).value, page, total, Known(total, size), seen);
               p.None? || p.value.size != size || p.value.total >= LIMIT || !Keyed(p.value.items) || !InRepository(p.value.items, inRepository)
    ensures Agree(Collect(server, size, inRepository, checks, page, total, seen),
                  Fetch(server, page, total, Known(total, size), seen), size, inRepository, seen)
  {
    hide ReadPage, ReadRules, NewKeys, AddKeys, KeySet, Fetch, Collect, InRepository, Keyed;
    CollectUnfolds(server, size, inRepository, checks, page, total, seen);
    if server(page).Some? {
      var r := ReadRules(server(page).value, page, size, total, |seen|);
      SamePage(server(page).value, page, size, total, Known(total, size), seen);
      if r.Some? {
        AddKeysIsNewKeys(r.value.1, inRepository, seen);
      }
    }
    FetchUnfolds(server, page, total, Known(total, size), seen);
    var f := Fetch(server, page, total, Known(total, size), seen);
    if f.Some? {
      SizeAndTotalStay(server, page, total, Known(total, size), seen);
      FetchKeyed(server, page, total, Known(total, size), seen);
      if InRepository(f.value.items, inRepository) {
        PrefixInRepository(ReadPage(server(page).value, page, total, Known(total, size), seen).value.items, f.value.items, inRepository);
      }
    }
  }

  /** The two paginators in step: from a page both have reached, with the same keys known, they
      accept and bring the same. */
  lemma {:induction false} InStep(server: Server, size: nat, inRepository: string -> bool, checks: Checks,
                                  page: nat, total: Option<nat>, seen: set<string>)
    requires 0 < size < LIMIT && NoEmptyKey(inRepository)
    requires page >= 1 && |seen| == (page - 1) * size
    requires Expecting(page, total, Known(total, size))
    requires total.Some? ==> |seen| < total.value < LIMIT
    ensures Agree(Collect(server, size, inRepository, checks, page, total, seen),
                  Fetch(server, page, total, Known(total, size), seen), size, inRepository, seen)
    decreases if total.None? then 1 else 0, if total.Some? then total.value - |seen| else 0
  {
    hide ReadPage, ReadRules, NewKeys, AddKeys, KeySet, Fetch, Collect, InRepository, Keyed, Agree;
    PageFits(page, size, total, seen);
    var p := if server(page).None? then None else ReadPage(server(page).value, page, total, Known(total, size), seen);
    if p.None? || p.value.size != size || p.value.total >= LIMIT || !Keyed(p.value.items) || !InRepository(p.value.items, inRepository) {
      RefusedTogether(server, size, inRepository, checks, page, total, seen);
    } else {
      var payload, items := server(page).value, p.value.items;
      SamePage(payload, page, size, total, Known(total, size), seen);
      NextPageExpected(payload, page, total, Known(total, size), seen);
      AddKeysIsNewKeys(items, inRepository, seen);
      AddKeysCount(items, inRepository, seen);
      CollectUnfolds(server, size, inRepository, checks, page, total, seen);
      FetchUnfolds(server, page, total, Known(total, size), seen);
      if p.value.done {
        AgreeLast(p.value, size, inRepository, seen);
      } else {
        assert (page + 1 - 1) * size == (page - 1) * size + size;
        InStep(server, size, inRepository, checks, page + 1, Some(p.value.total), seen + KeySet(items));
        FetchKeyed(server, page + 1, Some(p.value.total), Some(size), seen + KeySet(items));
        AgreePrepended(Collect(server, size, inRepository, checks, page + 1, Some(p.value.total), seen + KeySet(items)),
                       Fetch(server, page + 1, Some(p.value.total), Some(size), seen + KeySet(items)), items, size, inRepository, seen);
      }
    }
  }

  lemma AgreeLast(p: Page, size: nat, inRepository: string -> bool, seen: set<string>)
    requires p.size == size && 0 <= p.total < LIMIT && Keyed(p.items) && InRepository(p.items, inRepository)
    requires |seen + KeySet(p.items)| == p.total
    ensures Agree(Some(Capture(p.total, seen + KeySet(p.items), 1)), Some(Fetched(p.items, p.total, p.size, 1)), size, inRepository, seen)
  {
  }

  /** The paginators accept the same page streams: when the server answers in pages of the requested
      size, with a total that fits 64 bits and keys of the requested repository, the count-based
      capture succeeds exactly when the offset-based fetch does, with the same total, the same keys
      and the same number of pages. This holds with or without the capture's own later checks. */
  lemma PaginatorsAgree(server: Server, size: nat, inRepository: string -> bool, checks: Checks)
    requires 0 < size < LIMIT && NoEmptyKey(inRepository)
    ensures Agree(CaptureRulePages(server, size, inRepository, checks), FetchAll(server), size, inRepository, {})
  {
    hide Collect, Fetch, KeySet, Keyed, InRepository;
    InStep(server, size, inRepository, checks, 1, None, {});
    CountsFollow(server, size, inRepository, checks);
  }

  lemma CountsFollow(server: Server, size: nat, inRepository: string -> bool, checks: Checks)
    requires 0 < size < LIMIT && NoEmptyKey(inRepository)
    ensures var c := Collect(server, size, inRepository, checks, 1, None, {});
            c.Some? ==> |c.value.keys| == c.value.total && c.value.pages == ExpectedPages(c.value.total, size)
  {
    hide Collect, Fetch, KeySet, Keyed, InRepository, NewKeys;
    InStep(server, size, inRepository, checks, 1, None, {});
    if FetchAll(server).Some? {
      FetchAllIsComplete(server);
    }
  }

  /** The check for an empty page and the two final count checks can never fail once each page passed
      its own validation: leaving them out changes no outcome. */
  lemma LaterChecksAreRedundant(server: Server, size: nat, inRepository: string -> bool, checks: Checks)
    requires 0 < size < LIMIT && NoEmptyKey(inRepository)
    ensures CaptureRulePages(server, size, inRepository, checks)
            == CaptureRulePages(server, size, inRepository, Checks(false, false))
  {
    hide Collect, Fetch, KeySet, Keyed, InRepository, CaptureRulePages;
    PaginatorsAgree(server, size, inRepository, checks);
    PaginatorsAgree(server, size, inRepository, Checks(false, false));
  }

  // ---------------------------------------------------------------- the loop

  method CapturePages(server: Server, size: nat, inRepository: string -> bool) returns (capture: Option<Capture>)
    requires size > 0
    ensures capture == CaptureRulePages(server, size, inRepository, Checks(true, true))
  {
    hide ReadRules, AddKeys, Collect;
    var page, pageCount := 1, 0;
    var total: Option<nat> := None;
    var keys: set<string> := {};
    ghost var checks := Checks(true, true);
    ghost var goal := Collect(server, size, inRepository, checks, 1, None, {});
    while true
      invariant page >= 1 && (total.Some? ==> |keys| < total.value)
      invariant goal == AddPages(pageCount, Collect(server, size, inRepository, checks, page, total, keys))
      decreases if total.None? then 1 else 0, if total.Some? then total.value - |keys| else 0
    {
      CollectUnfolds(server, size, inRepository, checks, page, total, keys);
      EmptyPageEnds(server, size, inRepository, page, total, keys);
      var payload := server(page);
      if payload.None? {
        return None;
      }
      var rules := ReadRules(payload.value, page, size, total, |keys|);
      if rules.None? {
        return None;
      }
      var known := InsertKeys(rules.value.1, inRepository, keys);
      if known.None? {
        return None;
      }
      AddKeysCount(rules.value.1, inRepository, keys);
      keys, total := known.value, Some(rules.value.0);
      pageCount := pageCount + 1;
      if |keys| >= rules.value.0 {
        break;
      }
      if rules.value.1 == [] {
        return None;
      }
      page := page + 1;
    }
    if |keys| != total.value || pageCount != ExpectedPages(total.value, size) {
      return None;
    }
    return Some(Capture(total.value, keys, pageCount));
  }

  function AddPages(pages: nat, rest: Option<Capture>): Option<Capture> {
    if rest.None? then None else Some(rest.value.(pages := pages + rest.value.pages))
  }

  lemma EmptyPageEnds(server: Server, size: nat, inRepository: string -> bool, page: nat, total: Option<nat>, keys: set<string>)
    requires size > 0 && (total.Some? ==> |keys| < total.value)
    ensures server(page).Some? && ReadRules(server(page).value, page, size, total, |keys|).Some? ==>
              var r := ReadRules(server(page).value, page, size, total, |keys|).value;
              && (total.Some? ==> total.value == r.0)
              && (r.1 == [] && |keys| < r.0 ==> Collect(server, size, inRepository, Checks(true, true), page, total, keys) == None)
  {
  }

  method InsertKeys(items: seq<Item>, inRepository: string -> bool, keys: set<string>) returns (known: Option<set<string>>)
    ensures known == AddKeys(items, inRepository, keys)
  {
    var all := keys;
    for i := 0 to |items|
      invariant AddKeys(items[..i], inRepository, keys) == Some(all)
    {
      assert items[..i + 1][..i] == items[..i];
      AddKeysPrefix(items, inRepository, keys, i + 1);
      if items[i].NoObject? || items[i].key.None? || !inRepository(items[i].key.value) || items[i].key.value in all {
        return None;
      }
      all := all + {items[i].key.value};
    }
    assert items[..|items|] == items;
    return Some(all);
  }

  lemma {:induction false} AddKeysPrefix(items: seq<Item>, inRepository: string -> bool, keys: set<string>, n: nat)
    requires n <= |items|
    ensures AddKeys(items, inRepository, keys).Some? ==> AddKeys(items[..n], inRepository, keys).Some?
    decreases |items|
  {
    if n == |items| {
      assert items[..n] == items;
    } else {
      AddKeysPrefix(items[..|items| - 1], inRepository, keys, n);
      assert items[..|items| - 1][..n] == items[..n];
    }
  }
}
