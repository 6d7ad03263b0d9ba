/** The store's class (store.ts) and the client that walks its pages (client.ts). */
module MempoolStore {
  import opened Arithmetic
  import opened Prelude
  import opened OrderedSet
  import opened Mempool

  const MAX_LIST_LIMIT := 1000

  class IntentStore {
    const maxSize: nat
    const expiryGraceMs: nat
    var records: map<Hash, Record>
    var order: seq<Hash>
    var byStatus: map<Status, seq<Hash>>

    function View(): Store
      reads this
    {
      Store(records, order, byStatus)
    }

    constructor (maxSize: nat, expiryGraceMs: nat)
      ensures this.maxSize == maxSize && this.expiryGraceMs == expiryGraceMs && View() == EMPTY
    {
      this.maxSize, this.expiryGraceMs := maxSize, expiryGraceMs;
      records, order, byStatus := map[], [], map[];
    }

    method IndexAdd(h: Hash, status: Status)
      modifies this`byStatus
      ensures View() == Mempool.IndexAdd(old(View()), h, status)
    {
      if status !in byStatus { byStatus := byStatus[status := []]; }
      byStatus := byStatus[status := With(byStatus[status], h)];
    }

    method IndexRemove(h: Hash, status: Status)
      modifies this`byStatus
      ensures View() == Mempool.IndexRemove(old(View()), h, status)
    {
      if status in byStatus { byStatus := byStatus[status := Without(byStatus[status], h)]; }
    }

    method Delete(h: Hash) returns (found: bool)
      modifies this
      ensures View() == Mempool.Delete(old(View()), h) && found == (h in old(records))
    {
      if h !in records { return false; }
      IndexRemove(h, records[h].status);
      records := records - {h};
      order := Without(order, h);
      found := true;
    }

    method EvictOne()
      requires OrderInv(View())
      modifies this
      ensures View() == Mempool.EvictOne(old(View()))
    {
      for i := 0 to |order|
        invariant View() == old(View())
        invariant OldestTerminal(View(), order) == OldestTerminal(View(), order[i..])
      {
        var h := order[i];
        assert order[i..][1..] == order[i + 1..];
        if Terminal(records[h].status) {
          var _ := Delete(h);
          return;
        }
      }
      if order != [] {
        var _ := Delete(order[0]);
      }
    }

    /** Re-inserting refreshes insertion order. */
    method Set(h: Hash, record: Record)
      requires StoreInv(View())
      modifies this
      ensures View() == Put(old(View()), maxSize, h, record)
    {
      hide StoreInv, Mempool.Delete, Mempool.EvictOne;
      DeleteKeepsInv(View(), h);
      var _ := Delete(h);
      if |records| >= maxSize {
        InvHasOrder(View());
        EvictOne();
      }
      records := records[h := record];
      order := With(order, h);
      IndexAdd(h, record.status);
    }

    method UpdateStatus(h: Hash, status: Status) returns (ok: bool)
      modifies this
      ensures ok == Mempool.UpdateStatus(old(View()), h, status).Some?
      ensures View() == Mempool.UpdateStatus(old(View()), h, status).UnwrapOr(old(View()))
    {
      if h !in records { return false; }
      var record := records[h];
      if Terminal(record.status) { return false; }
      IndexRemove(h, record.status);
      records := records[h := record.(status := status)];
      IndexAdd(h, status);
      ok := true;
    }

    method EvictExpired(now: int) returns (evicted: nat)
      modifies this
      ensures View() == Mempool.EvictExpired(old(View()), now, expiryGraceMs)
      ensures evicted == |old(records)| - |records|
    {
      hide Mempool.Delete;
      evicted := 0;
      var walk := order;
      for i := 0 to |walk|
        invariant View() == EvictThese(old(View()), walk[..i], now, expiryGraceMs)
        invariant evicted == |old(records)| - |records|
      {
        assert walk[..i + 1][..i] == walk[..i];
        var h := walk[i];
        if h in records && PastCutoff(records[h], now, expiryGraceMs) {
          DeleteTakesOne(View(), h);
          var _ := Delete(h);
          evicted := evicted + 1;
        }
      }
      assert walk[..|walk|] == walk;
    }

    method All(status: Option<Status>) returns (out: seq<Record>)
      ensures out == Records(View(), if status.Some? then View().Index(status.value) else order)
    {
      var hashes := if status.Some? then View().Index(status.value) else order;
      out := [];
      for i := 0 to |hashes|
        invariant out == Records(View(), hashes[..i])
      {
        assert hashes[..i + 1][..i] == hashes[..i];
        if hashes[i] in records { out := out + [records[hashes[i]]]; }
      }
      assert hashes[..|hashes|] == hashes;
    }

    /** One pass: skip to the cursor, fill the page, stop at the first record that does not fit. */
    method List(status: Option<Status>, chainId: Option<nat>, cursor: Option<Hash>, limit: nat) returns (page: Page)
      ensures page == Mempool.List(View(), status, chainId, cursor, limit)
    {
      hide Walked, PageOf, StartAfter, Selected, Stored, Lookup;
      var hashes := if status.Some? then View().Index(status.value) else order;
      ghost var s, selected := View(), Selected(View(), hashes, chainId);
      var found: seq<Record>, reached, more := [], cursor.None?, false;
      ghost var walked: seq<Hash> := [];
      WalkStarts(s, hashes, chainId, cursor, limit);
      var i := 0;
      while i < |hashes|
        invariant 0 <= i <= |hashes|
        invariant Walked(s, walked, cursor, reached, found, limit)
        invariant walked == Selected(s, hashes[..i], chainId) && walked <= selected
      {
        SelectedNext(s, hashes, chainId, i);
        var h := hashes[i];
        i := i + 1;
        if h !in records { continue; }
        if chainId.Some? && records[h].sourceChainId != chainId.value { continue; }
        if !reached {
          WalkSkipped(s, walked, cursor, found, limit, h);
          if cursor == Some(h) { reached := true; }
          walked := walked + [h];
          continue;
        }
        if |found| >= limit {
          more := true;
          break;
        }
        WalkFound(s, walked, cursor, found, limit, h);
        found := found + [records[h]];
        walked := walked + [h];
      }
      if !more { assert hashes[..|hashes|] == hashes; }
      WalkEnds(s, selected, walked, cursor, reached, found, limit, more);
      page := Page(found, if more && found != [] then Some(found[|found| - 1].hash) else None);
    }
  }

  lemma InvHasOrder(s: Store)
    requires StoreInv(s)
    ensures OrderInv(s)
  {
  }

  /** What the walk has found so far: the records after the cursor, if it has been passed. */
  ghost predicate Walked(s: Store, walked: seq<Hash>, cursor: Option<Hash>, reached: bool, found: seq<Record>, limit: nat) {
    && Stored(s, walked)
    && (reached <==> cursor.None? || cursor.value in walked)
    && found == Lookup(s, walked[StartAfter(walked, cursor)..]) && |found| <= limit
  }

  lemma WalkStarts(s: Store, hashes: seq<Hash>, chainId: Option<nat>, cursor: Option<Hash>, limit: nat)
    ensures Walked(s, [], cursor, cursor.None?, [], limit) && Selected(s, hashes[..0], chainId) == []
  {
  }

  /** The next hash of the walk, taken or passed over. */
  lemma SelectedNext(s: Store, hashes: seq<Hash>, chainId: Option<nat>, i: nat)
    requires i < |hashes|
    ensures Selected(s, hashes[..i + 1], chainId) == Selected(s, hashes[..i], chainId) + if Wanted(s, hashes[i], chainId) then [hashes[i]] else []
    ensures Selected(s, hashes[..i + 1], chainId) <= Selected(s, hashes, chainId)
  {
    assert hashes[..i + 1][..i] == hashes[..i];
    SelectedPrefix(s, hashes, chainId, i + 1);
  }

  lemma LookupSnoc(s: Store, hashes: seq<Hash>, h: Hash)
    requires Stored(s, hashes) && h in s.records
    ensures Stored(s, hashes + [h]) && Lookup(s, hashes + [h]) == Lookup(s, hashes) + [s.records[h]]
  {
  }

  lemma WalkFound(s: Store, walked: seq<Hash>, cursor: Option<Hash>, found: seq<Record>, limit: nat, h: Hash)
    requires Walked(s, walked, cursor, true, found, limit) && h in s.records && |found| < limit
    ensures Walked(s, walked + [h], cursor, true, found + [s.records[h]], limit)
  {
    hide Lookup, StartAfter;
    var start := StartAfter(walked, cursor);
    StartAfterGrows(walked, [h], cursor);
    LookupSnoc(s, walked[start..], h);
    assert (walked + [h])[start..] == walked[start..] + [h];
  }

  lemma WalkSkipped(s: Store, walked: seq<Hash>, cursor: Option<Hash>, found: seq<Record>, limit: nat, h: Hash)
    requires Walked(s, walked, cursor, false, found, limit) && h in s.records
    ensures found == [] && Walked(s, walked + [h], cursor, cursor == Some(h), found, limit)
  {
    StartAfterUnknown(walked, cursor.value);
    assert (walked + [h])[..|walked|] == walked;
    assert (walked + [h])[|walked| + 1..] == [] && walked[|walked|..] == [];
  }

  lemma WalkEnds(s: Store, selected: seq<Hash>, walked: seq<Hash>, cursor: Option<Hash>, reached: bool, found: seq<Record>, limit: nat, more: bool)
    requires Walked(s, walked, cursor, reached, found, limit) && walked <= selected && Stored(s, selected)
    requires if more then reached && |found| >= limit && |walked| < |selected| else walked == selected
    ensures PageOf(s, selected, cursor, limit) == Page(found, if more && found != [] then Some(found[|found| - 1].hash) else None)
  {
    hide StartAfter;
    var start := StartAfter(walked, cursor);
    if more {
      assert selected == walked + selected[|walked|..];
      StartAfterGrows(walked, selected[|walked|..], cursor);
      assert selected[start..|walked|] == walked[start..];
    } else {
      assert selected[start..|selected|] == walked[start..];
    }
  }

  // --- The client ----------------------------------------------------------------------------

  datatype Listing =
    | Complete(records: seq<Record>)
    | HttpError
    | MaxPages(records: seq<Record>, cursor: Hash, pages: nat)
    | RepeatedCursor(records: seq<Record>, cursor: Hash, pages: nat)

  /** A query parameter: left out, not of the right form, or read. */
  datatype Param<T> = Absent | Malformed | Given(value: T)

  datatype ListQuery = ListQuery(status: Param<Status>, chainId: Param<int>, limit: Param<int>, cursor: Param<Hash>)

  const DEFAULT_LIST_LIMIT := 100

  /** What the server answers with status 400. */
  predicate Refused(q: ListQuery, stored: set<Hash>) {
    || q.status.Malformed?
    || q.chainId.Malformed? || (q.chainId.Given? && q.chainId.value < 1)
    || q.limit.Malformed? || (q.limit.Given? && !(1 <= q.limit.value <= MAX_LIST_LIMIT))
    || q.cursor.Malformed? || (q.cursor.Given? && q.cursor.value !in stored)
  }

  function Asked<T>(p: Param<T>): Option<T> {
    if p.Given? then Some(p.value) else None
  }

  /** The listing request; none is a client error. */
  method HandleListIntents(store: IntentStore, q: ListQuery) returns (r: Option<Page>)
    requires StoreInv(store.View())
    ensures r.None? <==> Refused(q, store.records.Keys)
    ensures r.Some? ==> r.value == Mempool.List(store.View(), Asked(q.status),
      if q.chainId.Given? then Some(q.chainId.value) else None, Asked(q.cursor), Asked(q.limit).UnwrapOr(DEFAULT_LIST_LIMIT))
  {
    if q.status.Malformed? { return None; }
    var status := if q.status.Given? then Some(q.status.value) else None;
    var chainId: Option<nat> := None;
    if q.chainId.Malformed? { return None; }
    if q.chainId.Given? {
      if q.chainId.value < 1 { return None; }
      chainId := Some(q.chainId.value);
    }
    var limit := DEFAULT_LIST_LIMIT;
    if q.limit.Malformed? { return None; }
    if q.limit.Given? {
      if q.limit.value < 1 || q.limit.value > MAX_LIST_LIMIT { return None; }
      limit := q.limit.value;
    }
    var cursor: Option<Hash> := None;
    if q.cursor.Malformed? { return None; }
    if q.cursor.Given? {
      if q.cursor.value !in store.records { return None; }
      cursor := Some(q.cursor.value);
    }
    var page := store.List(status, chainId, cursor, limit);
    r := Some(page);
  }

  /** One page as the client asks for it: a status and a limit always, a cursor from the second page on. */
  method ListPendingPage(store: IntentStore, status: Status, cursor: Option<Hash>, limit: int) returns (r: Option<Page>)
    requires StoreInv(store.View())
    ensures r == if 1 <= limit <= MAX_LIST_LIMIT && (cursor.Some? ==> cursor.value in store.records)
                 then Some(Mempool.List(store.View(), Some(status), None, cursor, limit)) else None
  {
    var from := if cursor.Some? then Given(cursor.value) else Absent;
    r := HandleListIntents(store, ListQuery(Given(status), Absent, Given(limit), from));
  }

  lemma {:induction false} AllSelected(s: Store, hashes: seq<Hash>)
    requires Stored(s, hashes)
    ensures Selected(s, hashes, None) == hashes
  {
    if hashes != [] {
      var m := |hashes| - 1;
      AllSelected(s, hashes[..m]);
      assert hashes == hashes[..m] + [hashes[m]];
    }
  }

  /** The index of one status, as a list of stored hashes. */
  lemma IndexIsStored(s: Store, status: Status)
    requires StoreInv(s)
    ensures OwnHash(s) && Distinct(s.Index(status)) && Stored(s, s.Index(status))
    ensures Selected(s, s.Index(status), None) == s.Index(status)
  {
    assert StatusInv(s, status);
    AllSelected(s, s.Index(status));
  }

  /** Where the walk stands after `pages` pages, with more to come. */
  ghost predicate AtPage(hashes: seq<Hash>, limit: int, pages: nat, cursor: Option<Hash>, seen: set<Hash>) {
    && limit >= 1 && 0 <= pages * limit
    && (if pages == 0 then cursor.None? && seen == {}
        else 0 < pages * limit < |hashes| && cursor == Some(hashes[pages * limit - 1]))
    && (forall c <- seen :: c in hashes[..Min(pages * limit, |hashes|)])
  }

  lemma CursorStored(s: Store, hashes: seq<Hash>, limit: int, pages: nat, cursor: Option<Hash>, seen: set<Hash>)
    requires AtPage(hashes, limit, pages, cursor, seen) && Stored(s, hashes)
    ensures cursor.Some? ==> cursor.value in s.records
  {
  }

  /** The next page continues the records so far. */
  lemma NextPage(s: Store, hashes: seq<Hash>, limit: int, pages: nat, cursor: Option<Hash>, seen: set<Hash>)
    requires OwnHash(s) && Distinct(hashes) && Stored(s, hashes) && AtPage(hashes, limit, pages, cursor, seen)
    ensures 0 <= pages * limit <= |hashes| && (pages + 1) * limit == pages * limit + limit
    ensures var page := PageOf(s, hashes, cursor, limit); var end := Min((pages + 1) * limit, |hashes|);
      && Lookup(s, hashes)[..pages * limit] + page.records == Lookup(s, hashes)[..end]
      && page.nextCursor == if end < |hashes| then Some(hashes[end - 1]) else None
  {
    hide Lookup, OwnHash, Stored, Distinct, PageOf;
    var i := pages * limit;
    assert (pages + 1) * limit == i + limit;
    PageAt(s, hashes, cursor, limit, i);
    Splice(Lookup(s, hashes), i, Min(i + limit, |hashes|));
  }

  lemma Splice(all: seq<Record>, i: nat, end: nat)
    requires i <= end <= |all|
    ensures all[..i] + all[i..end] == all[..end]
  {
  }

  /** Its cursor has not been seen. */
  lemma NextCursor(hashes: seq<Hash>, limit: int, pages: nat, cursor: Option<Hash>, seen: set<Hash>, next: Hash)
    requires Distinct(hashes) && AtPage(hashes, limit, pages, cursor, seen)
    requires (pages + 1) * limit == pages * limit + limit < |hashes| && next == hashes[(pages + 1) * limit - 1]
    ensures next !in seen && AtPage(hashes, limit, pages + 1, Some(next), seen + {next})
  {
    var i, end := pages * limit, (pages + 1) * limit;
    DistinctPrefix(hashes, end);
    assert hashes[..end][..end - 1] == hashes[..end - 1] && next !in hashes[..end - 1];
    assert hashes[..i] <= hashes[..end - 1];
    assert forall c <- seen :: c in hashes[..end] by {
      forall c <- seen ensures c in hashes[..end] { assert c in hashes[..i]; }
    }
    assert next in hashes[..end] by { assert hashes[..end][end - 1] == next; }
  }

  /** The cursor an exhausted budget leaves behind leads to exactly the rest. */
  lemma ResumeFollows(s: Store, hashes: seq<Hash>, limit: int, pages: nat, cursor: Option<Hash>, seen: set<Hash>)
    requires OwnHash(s) && Distinct(hashes) && Stored(s, hashes)
    requires AtPage(hashes, limit, pages, cursor, seen) && pages > 0
    ensures PageOf(s, hashes, cursor, |hashes|).records == Lookup(s, hashes)[pages * limit..]
  {
    hide Lookup, OwnHash, Distinct;
    PageAt(s, hashes, cursor, |hashes|, pages * limit);
  }

  /**
   * What `listPending` promises of a store that does not change: all records of the
   * status, once each and in index order, if they fit into the page budget; otherwise an
   * error with exactly the first pages of them and a cursor from which the rest follows.
   */
  ghost predicate Lossless(s: Store, status: Status, maxPages: int, limit: int, r: Listing) {
    var all := Records(s, s.Index(status));
    var budget := Max(1, maxPages) * limit;
    if limit < 1 || limit > MAX_LIST_LIMIT then r == HttpError
    else if |all| <= budget then r == Complete(all)
    else
      && r.MaxPages? && 0 <= budget && r.records == all[..budget] && r.pages == Max(1, maxPages)
      && List(s, Some(status), None, Some(r.cursor), |all|).records == all[budget..]
  }

  /** The records of the pages fetched so far. */
  ghost predicate Fetched(s: Store, status: Status, limit: int, pages: nat, cursor: Option<Hash>, seen: set<Hash>, all: seq<Record>) {
    var hashes := s.Index(status);
    && AtPage(hashes, limit, pages, cursor, seen) && Stored(s, hashes)
    && pages * limit <= |hashes| && all == Lookup(s, hashes)[..pages * limit]
  }

  lemma LastPage(s: Store, status: Status, maxPages: int, limit: int, pages: nat)
    requires StoreInv(s) && 1 <= limit <= MAX_LIST_LIMIT && pages <= Max(1, maxPages) && |s.Index(status)| <= pages * limit
    ensures Stored(s, s.Index(status)) && Lossless(s, status, maxPages, limit, Complete(Lookup(s, s.Index(status))))
  {
    hide StoreInv, Records;
    IndexIsStored(s, status);
    RecordsOf(s, s.Index(status));
    MulMono(pages, Max(1, maxPages), limit);
  }

  lemma ListIsPage(s: Store, status: Status, cursor: Option<Hash>, limit: nat)
    requires StoreInv(s)
    ensures Stored(s, s.Index(status)) && List(s, Some(status), None, cursor, limit) == PageOf(s, s.Index(status), cursor, limit)
  {
    hide StoreInv, PageOf, Selected;
    IndexIsStored(s, status);
  }

  lemma BudgetFacts(s: Store, status: Status, limit: int, pages: nat, cursor: Option<Hash>, seen: set<Hash>, all: seq<Record>)
    requires StoreInv(s) && Fetched(s, status, limit, pages, cursor, seen, all) && pages > 0
    ensures Stored(s, s.Index(status)) && 0 <= pages * limit < |s.Index(status)| && cursor.Some?
    ensures List(s, Some(status), None, cursor, |s.Index(status)|).records == Lookup(s, s.Index(status))[pages * limit..]
  {
    hide StoreInv, Selected, PageOf, List, Distinct, OwnHash, Lookup;
    var hashes := s.Index(status);
    IndexIsStored(s, status);
    ListIsPage(s, status, cursor, |hashes|);
    ResumeFollows(s, hashes, limit, pages, cursor, seen);
  }

  lemma BudgetSpent(s: Store, status: Status, maxPages: int, limit: int, pages: nat, cursor: Option<Hash>, seen: set<Hash>, all: seq<Record>)
    requires StoreInv(s) && 1 <= limit <= MAX_LIST_LIMIT && pages == Max(1, maxPages)
    requires Fetched(s, status, limit, pages, cursor, seen, all)
    ensures cursor.Some? && Lossless(s, status, maxPages, limit, MaxPages(all, cursor.value, pages))
  {
    BudgetFacts(s, status, limit, pages, cursor, seen, all);
    RecordsOf(s, s.Index(status));
    assert all == Records(s, s.Index(status))[..pages * limit];
    assert Lossless(s, status, maxPages, limit, MaxPages(all, cursor.value, pages)) by {
      hide StoreInv, Records, Lookup, List, Fetched, Stored;
    }
  }

  /** One more page: either everything, or the next pages' records and a cursor not seen before. */
  lemma PageStep(s: Store, status: Status, limit: int, pages: nat, cursor: Option<Hash>, seen: set<Hash>, all: seq<Record>)
    requires StoreInv(s) && Fetched(s, status, limit, pages, cursor, seen, all)
    ensures limit >= 1 && (cursor.Some? ==> cursor.value in s.records)
    ensures var page := List(s, Some(status), None, cursor, limit);
      if page.nextCursor.None?
      then Stored(s, s.Index(status)) && all + page.records == Lookup(s, s.Index(status)) && |s.Index(status)| <= (pages + 1) * limit
      else page.nextCursor.value !in seen
           && Fetched(s, status, limit, pages + 1, page.nextCursor, seen + {page.nextCursor.value}, all + page.records)
  {
    hide StoreInv, Selected, Distinct, OwnHash, PageOf, Lookup, List;
    var hashes := s.Index(status);
    ListIsPage(s, status, cursor, limit);
    IndexIsStored(s, status);
    CursorStored(s, hashes, limit, pages, cursor, seen);
    NextPage(s, hashes, limit, pages, cursor, seen);
    var next := List(s, Some(status), None, cursor, limit).nextCursor;
    if next.Some? { NextCursor(hashes, limit, pages, cursor, seen, next.value); }
  }

  method ListPending(store: IntentStore, status: Status, maxPages: int, limit: int) returns (r: Listing)
    requires StoreInv(store.View())
    ensures Lossless(store.View(), status, maxPages, limit, r)
    ensures !r.RepeatedCursor?
  {
    if limit < 1 || limit > MAX_LIST_LIMIT {
      var refused := ListPendingPage(store, status, None, limit);
      return HttpError;
    }
    ghost var s := store.View();
    StartOfPages(s, status, limit);
    hide StoreInv, Lossless, Lookup, Fetched, Stored, List;
    var all: seq<Record>, seen: set<Hash>, cursor: Option<Hash>, pages: nat := [], {}, None, 0;
    while true
      invariant Fetched(s, status, limit, pages, cursor, seen, all) && (pages > 0 ==> pages < maxPages)
      decreases maxPages - pages
    {
      PageStep(s, status, limit, pages, cursor, seen, all);
      var answer := ListPendingPage(store, status, cursor, limit);
      all := all + answer.value.records;
      cursor := answer.value.nextCursor;
      pages := pages + 1;
      if cursor.None? {
        LastPage(s, status, maxPages, limit, pages);
        return Complete(all);
      }
      var next := cursor.value;
      if next in seen { return RepeatedCursor(all, next, pages); }
      seen := seen + {next};
      if pages >= maxPages { break; }
    }
    BudgetSpent(s, status, maxPages, limit, pages, cursor, seen, all);
    r := MaxPages(all, cursor.value, pages);
  }

  lemma StartOfPages(s: Store, status: Status, limit: int)
    requires StoreInv(s) && limit >= 1
    ensures Fetched(s, status, limit, 0, None, {}, [])
  {
    IndexIsStored(s, status);
  }
}
