/**
What ingestion guarantees over a batch and over whole runs of batches: which items count as new, when notices are
sent, and that a batch delivered twice does nothing the second time.
*/
module IngestRuns {
  import opened Blanks
  import opened Cleanup
  import opened Ingest

  // ---------------------------------------------------------------- what every batch keeps

  /** A linked item is cached and a cached item has a row in the item table. */
  predicate Consistent(b: Book) {
    b.links.Keys <= b.cache.Keys <= b.prices.Keys
  }

  predicate DistinctIds(items: seq<Item>) {
    forall i, j :: 0 <= i < j < |items| ==> items[i].sourceId != items[j].sourceId
  }

  predicate Mentions(items: seq<Item>, n: nat, id: SourceId)
    requires n <= |items|
  {
    exists i :: 0 <= i < n && items[i].sourceId == id
  }

  /** The book entries of one id. */
  predicate SameFor(a: Book, b: Book, id: SourceId) {
    && (id in a.cache <==> id in b.cache) && (id in a.cache ==> a.cache[id] == b.cache[id])
    && (id in a.prices <==> id in b.prices) && (id in a.prices ==> a.prices[id] == b.prices[id])
    && (id in a.links <==> id in b.links) && (id in a.links ==> a.links[id] == b.links[id])
  }

  lemma {:induction false} OthersUntouched(b: Book, batch: Batch, n: nat, id: SourceId)
    requires Timed(batch) && n <= |batch.items| && !Mentions(batch.items, n, id)
    ensures SameFor(After(b, batch, n).book, b, id)
  {
    if n > 0 {
      assert batch.items[n - 1].sourceId != id;
      assert !Mentions(batch.items, n - 1, id);
      OthersUntouched(b, batch, n - 1, id);
    }
  }

  lemma {:induction false} StaysConsistent(b: Book, batch: Batch, n: nat)
    requires Timed(batch) && n <= |batch.items| && Consistent(b)
    ensures Consistent(After(b, batch, n).book)
  {
    if n > 0 {
      StaysConsistent(b, batch, n - 1);
    }
  }

  /** The item table has the cached prices. */
  predicate PricesAgree(b: Book) {
    forall id :: id in b.cache ==> id in b.prices && b.prices[id] == b.cache[id]
  }

  lemma {:induction false} PricesStayAgreed(b: Book, batch: Batch, n: nat)
    requires Timed(batch) && n <= |batch.items| && PricesAgree(b)
    ensures PricesAgree(After(b, batch, n).book)
  {
    if n > 0 {
      PricesStayAgreed(b, batch, n - 1);
    }
  }

  /** Items with a blank id leave no trace. */
  lemma {:induction false} BlankIdsUntouched(b: Book, batch: Batch, n: nat, id: SourceId)
    requires Timed(batch) && n <= |batch.items| && AllSpace(id)
    ensures SameFor(After(b, batch, n).book, b, id)
  {
    if n > 0 {
      BlankIdsUntouched(b, batch, n - 1, id);
    }
  }

  lemma CleanedIsPart(links: Links, cap: int)
    ensures forall id :: id in Cleaned(links, cap) ==> id in links && Cleaned(links, cap)[id] == links[id]
  {
  }

  // ---------------------------------------------------------------- notices over whole runs

  /** The book after a run of batches, each followed by its clean-up. */
  ghost function BookAfter(run: seq<Batch>, cap: int): Book
    requires forall m :: 0 <= m < |run| ==> Timed(run[m])
  {
    if run == [] then NEW_BOOK else Processed(BookAfter(run[..|run| - 1], cap), run[|run| - 1], cap)
  }

  /** All items sighted in a run, in order. */
  function Sightings(run: seq<Batch>): seq<Item> {
    if run == [] then [] else Sightings(run[..|run| - 1]) + run[|run| - 1].items
  }

  /** `k` is the latest sighting of the id. */
  predicate LatestAt(seen: seq<Item>, id: SourceId, k: nat) {
    k < |seen| && seen[k].sourceId == id && forall i :: k < i < |seen| ==> seen[i].sourceId != id
  }

  /** The cache holds each sighted id's price at its latest sighting, and nothing else. */
  ghost predicate CacheIsLatest(cache: map<SourceId, int>, seen: seq<Item>) {
    && (forall k: nat :: k < |seen| && !Blank(seen[k]) && LatestAt(seen, seen[k].sourceId, k) ==>
          seen[k].sourceId in cache && cache[seen[k].sourceId] == seen[k].price)
    && (forall id :: id in cache ==> exists k: nat :: LatestAt(seen, id, k) && !Blank(seen[k]))
  }

  lemma LatestAfterAppend(seen: seq<Item>, it: Item, id: SourceId, k: nat)
    ensures LatestAt(seen + [it], id, k) <==>
              if it.sourceId == id then k == |seen| else LatestAt(seen, id, k)
  {
    var all := seen + [it];
    if it.sourceId != id && LatestAt(all, id, k) {
      assert k < |seen|;
      assert forall i :: k < i < |seen| ==> seen[i] == all[i];
    }
    if it.sourceId == id && k < |seen| {
      assert all[|seen|] == it;
    }
    if k < |seen| && LatestAt(seen, id, k) && it.sourceId != id {
      assert forall i :: k < i < |all| ==> all[i] == if i < |seen| then seen[i] else it;
    }
  }

  lemma CacheAfterVisit(w: Walk, time: int, touchTime: int, rank: int, it: Item, seen: seq<Item>)
    requires CacheIsLatest(w.book.cache, seen)
    ensures CacheIsLatest(Visit(w, time, touchTime, rank, it).book.cache, seen + [it])
  {
    var cache, all := Visit(w, time, touchTime, rank, it).book.cache, seen + [it];
    assert cache == if Blank(it) then w.book.cache else w.book.cache[it.sourceId := it.price];
    forall k: nat | k < |all| && !Blank(all[k]) && LatestAt(all, all[k].sourceId, k)
      ensures all[k].sourceId in cache && cache[all[k].sourceId] == all[k].price
    {
      LatestAfterAppend(seen, it, all[k].sourceId, k);
    }
    forall id | id in cache
      ensures exists k: nat :: LatestAt(all, id, k) && !Blank(all[k])
    {
      if id == it.sourceId && !Blank(it) {
        LatestAfterAppend(seen, it, id, |seen|);
        assert all[|seen|] == it;
      } else {
        var k: nat :| LatestAt(seen, id, k) && !Blank(seen[k]);
        LatestAfterAppend(seen, it, id, k);
        assert all[k] == seen[k];
      }
    }
  }

  lemma {:induction false} CacheAfterItems(b: Book, batch: Batch, n: nat, seen: seq<Item>)
    requires Timed(batch) && n <= |batch.items| && CacheIsLatest(b.cache, seen)
    ensures CacheIsLatest(After(b, batch, n).book.cache, seen + batch.items[..n])
  {
    if n == 0 {
      assert seen + batch.items[..0] == seen;
    } else {
      CacheAfterItems(b, batch, n - 1, seen);
      var it, seen' := batch.items[n - 1], seen + batch.items[..n - 1];
      assert seen + batch.items[..n] == seen' + [it];
      CacheAfterVisit(After(b, batch, n - 1), batch.time, batch.touchTimes[n - 1], n, it, seen');
    }
  }

  /** After every run the cache holds the latest sighted prices, and so does the item table. */
  lemma {:induction false} CacheAfterRun(run: seq<Batch>, cap: int)
    requires forall m :: 0 <= m < |run| ==> Timed(run[m])
    ensures CacheIsLatest(BookAfter(run, cap).cache, Sightings(run)) && Consistent(BookAfter(run, cap))
    ensures PricesAgree(BookAfter(run, cap))
  {
    if run != [] {
      var before, last := run[..|run| - 1], run[|run| - 1];
      CacheAfterRun(before, cap);
      var b, n := BookAfter(before, cap), |last.items|;
      CacheAfterItems(b, last, n, Sightings(before));
      assert last.items[..n] == last.items;
      StaysConsistent(b, last, n);
      PricesStayAgreed(b, last, n);
      CleanedIsPart(After(b, last, n).book.links, cap);
    }
  }

  /** Everything sighted before item `i` of batch `m`. */
  function Before(run: seq<Batch>, m: nat, i: nat): seq<Item>
    requires m < |run| && i <= |run[m].items|
  {
    Sightings(run[..m]) + run[m].items[..i]
  }

  ghost function OutcomeInRun(run: seq<Batch>, cap: int, m: nat, i: nat): Outcome
    requires forall k :: 0 <= k < |run| ==> Timed(run[k])
    requires m < |run| && i < |run[m].items|
  {
    OutcomeAt(BookAfter(run[..m], cap), run[m], i)
  }

  predicate IsNew(o: Outcome) {
    o.NewAtHead? || o.NewBehind?
  }

  /**
  Notices over whole runs: the drop branch fires, with the right old price, exactly at a strict descent from the
  id's latest earlier sighting, and the new-item branch exactly at the id's first sighting.
  */
  lemma NoticesFollowSightings(run: seq<Batch>, cap: int, m: nat, i: nat)
    requires forall k :: 0 <= k < |run| ==> Timed(run[k])
    requires m < |run| && i < |run[m].items| && !Blank(run[m].items[i])
    ensures var o, it, seen := OutcomeInRun(run, cap, m, i), run[m].items[i], Before(run, m, i);
            && (o.Dropped? <==> exists k: nat :: LatestAt(seen, it.sourceId, k) && it.price < seen[k].price)
            && (o.Dropped? ==> forall k: nat :: LatestAt(seen, it.sourceId, k) ==> o.was == seen[k].price)
            && (IsNew(o) <==> forall k :: 0 <= k < |seen| ==> seen[k].sourceId != it.sourceId)
  {
    CacheAfterRun(run[..m], cap);
    CacheAfterItems(BookAfter(run[..m], cap), run[m], i, Sightings(run[..m]));
    var it, seen := run[m].items[i], Before(run, m, i);
    var cache := After(BookAfter(run[..m], cap), run[m], i).book.cache;
    if it.sourceId in cache {
      var k: nat :| LatestAt(seen, it.sourceId, k);
      assert cache[it.sourceId] == seen[k].price;
    } else {
      NotCachedNotSeen(cache, seen, it);
    }
  }

  lemma NotCachedNotSeen(cache: map<SourceId, int>, seen: seq<Item>, it: Item)
    requires CacheIsLatest(cache, seen) && !Blank(it) && it.sourceId !in cache
    ensures forall k :: 0 <= k < |seen| ==> seen[k].sourceId != it.sourceId
  {
    if k :| 0 <= k < |seen| && seen[k].sourceId == it.sourceId {
      var last := LatestFrom(seen, it.sourceId, k);
    }
  }

  lemma {:induction false} LatestFrom(seen: seq<Item>, id: SourceId, k: nat) returns (last: nat)
    requires k < |seen| && seen[k].sourceId == id
    ensures LatestAt(seen, id, last)
    decreases |seen| - k
  {
    if i :| k < i < |seen| && seen[i].sourceId == id {
      last := LatestFrom(seen, id, i);
    } else {
      last := k;
    }
  }

  predicate Earlier(m: nat, i: nat, m': nat, i': nat) {
    m < m' || (m == m' && i < i')
  }

  lemma {:induction false} BatchIsSighted(run: seq<Batch>, m: nat, it: Item)
    requires m < |run| && it in run[m].items
    ensures it in Sightings(run)
  {
    if m < |run| - 1 {
      BatchIsSighted(run[..|run| - 1], m, it);
    }
  }

  /** The new-item branch is taken at most once per source id in a whole run. */
  lemma NewAtMostOnce(run: seq<Batch>, cap: int, m: nat, i: nat, m': nat, i': nat)
    requires forall k :: 0 <= k < |run| ==> Timed(run[k])
    requires m < |run| && i < |run[m].items| && m' < |run| && i' < |run[m'].items|
    requires Earlier(m, i, m', i') && run[m].items[i].sourceId == run[m'].items[i'].sourceId
    ensures !IsNew(OutcomeInRun(run, cap, m', i'))
  {
    var it, seen := run[m].items[i], Before(run, m', i');
    if !Blank(it) {
      NoticesFollowSightings(run, cap, m', i');
      if m < m' {
        BatchIsSighted(run[..m'], m, it);
      } else {
        assert run[m].items[..i'][i] == it;
      }
      assert it in seen;
    }
  }

  // ---------------------------------------------------------------- the head of the list is new

  /** A known item that still has its link row; its time becomes the anchor. */
  predicate Anchors(b: Book, it: Item) {
    !Blank(it) && it.sourceId in b.cache && it.sourceId in b.prices && it.sourceId in b.links
  }

  /** The nearest anchoring item before place `n`, or -1. */
  function NearestAnchor(b: Book, items: seq<Item>, n: nat): (j: int)
    requires n <= |items|
    ensures -1 <= j < n
    ensures j >= 0 ==> Anchors(b, items[j])
    ensures forall i :: j < i < n ==> !Anchors(b, items[i])
  {
    if n == 0 then -1 else if Anchors(b, items[n - 1]) then n - 1 else NearestAnchor(b, items, n - 1)
  }

  function AnchorTime(b: Book, items: seq<Item>, n: nat): int
    requires n <= |items|
  {
    var j := NearestAnchor(b, items, n);
    if j < 0 then ZERO_TIME else b.links[items[j].sourceId].createdAt
  }

  lemma {:induction false} AnchorIsNearest(b: Book, batch: Batch, n: nat)
    requires Timed(batch) && n <= |batch.items| && DistinctIds(batch.items)
    ensures After(b, batch, n).anchor == AnchorTime(b, batch.items, n)
  {
    if n > 0 {
      AnchorIsNearest(b, batch, n - 1);
      assert !Mentions(batch.items, n - 1, batch.items[n - 1].sourceId);
      OthersUntouched(b, batch, n - 1, batch.items[n - 1].sourceId);
    }
  }

  /** All link rows are older than the batch and have a real time. */
  predicate LinksBefore(b: Book, time: int) {
    time != ZERO_TIME && forall id :: id in b.links ==> b.links[id].createdAt < time && b.links[id].createdAt != ZERO_TIME
  }

  /**
  Exactly the head of the list is new: an unknown item counts as really new if and only if no known item with a
  link row stands before it; otherwise it takes the link time of the nearest such item.
  */
  lemma ExactlyTheHeadIsNew(b: Book, batch: Batch, i: nat)
    requires Timed(batch) && DistinctIds(batch.items) && Consistent(b) && LinksBefore(b, batch.time)
    requires i < |batch.items| && !Blank(batch.items[i]) && batch.items[i].sourceId !in b.cache
    ensures OutcomeAt(b, batch, i).NewAtHead? <==> forall j :: 0 <= j < i ==> !Anchors(b, batch.items[j])
    ensures var j := NearestAnchor(b, batch.items, i);
            var links := After(b, batch, |batch.items|).book.links;
            && batch.items[i].sourceId in links
            && links[batch.items[i].sourceId].createdAt == if j < 0 then batch.time else b.links[batch.items[j].sourceId].createdAt
  {
    var id := batch.items[i].sourceId;
    AnchorIsNearest(b, batch, i);
    assert !Mentions(batch.items, i, id);
    OthersUntouched(b, batch, i, id);
    LaterItemsLeaveLink(b, batch, i, |batch.items|);
  }

  /** The row of item `i` is not touched by the items behind it. */
  lemma {:induction false} LaterItemsLeaveLink(b: Book, batch: Batch, i: nat, n: nat)
    requires Timed(batch) && DistinctIds(batch.items) && i < n <= |batch.items|
    ensures SameFor(After(b, batch, n).book, After(b, batch, i + 1).book, batch.items[i].sourceId)
  {
    if n > i + 1 {
      LaterItemsLeaveLink(b, batch, i, n - 1);
    }
  }

  // ---------------------------------------------------------------- redelivery

  /** The book already agrees with item `i` of the batch. */
  predicate Settled(b: Book, items: seq<Item>, i: nat)
    requires i < |items|
  {
    var id := items[i].sourceId;
    Blank(items[i]) ||
    (id in b.cache && b.cache[id] == items[i].price && id in b.prices && id in b.links && b.links[id].rank == i + 1)
  }

  lemma VisitSettles(b: Book, batch: Batch, i: nat)
    requires Timed(batch) && i < |batch.items| && Consistent(After(b, batch, i).book)
    ensures Settled(After(b, batch, i + 1).book, batch.items, i)
  {
  }

  lemma FirstRunSettles(b: Book, batch: Batch, i: nat)
    requires Timed(batch) && DistinctIds(batch.items) && Consistent(b) && i < |batch.items|
    ensures Settled(After(b, batch, |batch.items|).book, batch.items, i)
  {
    StaysConsistent(b, batch, i);
    VisitSettles(b, batch, i);
    LaterItemsLeaveLink(b, batch, i, |batch.items|);
  }

  /** A new or changed price is written to the item table, and later items leave it there. */
  lemma ItemPriceIsWritten(b: Book, batch: Batch, i: nat)
    requires Timed(batch) && DistinctIds(batch.items) && i < |batch.items| && !Blank(batch.items[i])
    requires batch.items[i].sourceId in b.cache ==> b.cache[batch.items[i].sourceId] != batch.items[i].price
    ensures var id, after := batch.items[i].sourceId, After(b, batch, |batch.items|).book;
            && id in after.prices && after.prices[id] == batch.items[i].price
            && id in after.cache && after.cache[id] == batch.items[i].price
  {
    var id := batch.items[i].sourceId;
    assert !Mentions(batch.items, i, id);
    OthersUntouched(b, batch, i, id);
    LaterItemsLeaveLink(b, batch, i, |batch.items|);
  }

  /** A known item without item row is left alone unless its price changed: no row is linked and no rank written. */
  lemma MissingItemRowIsSkipped(b: Book, batch: Batch, i: nat)
    requires Timed(batch) && DistinctIds(batch.items) && i < |batch.items|
    requires var it := batch.items[i]; it.sourceId in b.cache && b.cache[it.sourceId] == it.price && it.sourceId !in b.prices
    ensures SameFor(After(b, batch, |batch.items|).book, b, batch.items[i].sourceId)
    ensures After(b, batch, i + 1).anchor == After(b, batch, i).anchor && OutcomeAt(b, batch, i) != NewAtHead
  {
    var id := batch.items[i].sourceId;
    assert !Mentions(batch.items, i, id);
    OthersUntouched(b, batch, i, id);
    LaterItemsLeaveLink(b, batch, i, |batch.items|);
  }

  /** A price drop moves the row to the time of the touch, so the item counts as fresh again; a rise does not. */
  lemma OnlyDropsMoveTheTime(b: Book, batch: Batch, i: nat)
    requires Timed(batch) && DistinctIds(batch.items) && i < |batch.items| && !Blank(batch.items[i])
    requires var id := batch.items[i].sourceId; id in b.cache && id in b.prices && id in b.links
    ensures var id, links := batch.items[i].sourceId, After(b, batch, |batch.items|).book.links;
            && id in links && links[id].rank == i + 1
            && links[id].createdAt ==
                 if batch.items[i].price < b.cache[id] then batch.touchTimes[i] else b.links[id].createdAt
  {
    var id := batch.items[i].sourceId;
    assert !Mentions(batch.items, i, id);
    OthersUntouched(b, batch, i, id);
    LaterItemsLeaveLink(b, batch, i, |batch.items|);
  }

  lemma {:induction false} SettledBatchDoesNothing(b: Book, batch: Batch, n: nat)
    requires Timed(batch) && n <= |batch.items|
    requires forall i :: 0 <= i < |batch.items| ==> Settled(b, batch.items, i)
    ensures After(b, batch, n).book == b && NoticesUpTo(b, batch, n) == []
  {
    if n > 0 {
      SettledBatchDoesNothing(b, batch, n - 1);
      assert Settled(b, batch.items, n - 1);
      var id := batch.items[n - 1].sourceId;
      if !Blank(batch.items[n - 1]) {
        assert Linked(b.links, id, n, batch.time) == b.links;
      }
    }
  }

  /** No row and no clock reading is Go's zero time. */
  predicate RealTimes(links: Links) {
    forall id :: id in links ==> links[id].createdAt != ZERO_TIME
  }

  predicate RealClock(batch: Batch) {
    batch.time != ZERO_TIME && forall i :: 0 <= i < |batch.touchTimes| ==> batch.touchTimes[i] != ZERO_TIME
  }

  lemma {:induction false} TimesStayReal(b: Book, batch: Batch, n: nat)
    requires Timed(batch) && n <= |batch.items| && RealTimes(b.links) && RealClock(batch)
    ensures RealTimes(After(b, batch, n).book.links)
  {
    if n > 0 {
      TimesStayReal(b, batch, n - 1);
    }
  }

  /**
  Redelivery is harmless: processing the same items again changes no table and sends no notice, whenever the
  clean-up of the first run removed none of the batch's rows.
  */
  lemma RedeliveryIsHarmless(b: Book, first: Batch, second: Batch, cap: int)
    requires Timed(first) && Timed(second) && first.items == second.items
    requires DistinctIds(first.items) && Consistent(b)
    requires forall i :: 0 <= i < |first.items| && !Blank(first.items[i]) ==>
               first.items[i].sourceId in Processed(b, first, cap).links
    requires RealTimes(b.links) && RealClock(first)
    ensures Processed(Processed(b, first, cap), second, cap) == Processed(b, first, cap)
    ensures NoticesUpTo(Processed(b, first, cap), second, |second.items|) == []
  {
    var n := |first.items|;
    var done, once := After(b, first, n).book, Processed(b, first, cap);
    CleanedIsPart(done.links, cap);
    forall i | 0 <= i < |second.items|
      ensures Settled(once, second.items, i)
    {
      FirstRunSettles(b, first, i);
    }
    SettledBatchDoesNothing(once, second, n);
    TimesStayReal(b, first, n);
    if cap > 0 {
      CleanupKeepsTheNewest(done.links, cap, SomeOrdering(done.links));
    }
    assert Cleaned(once.links, cap) == once.links;
  }

  // ---------------------------------------------------------------- what clean-up does to a task's items

  /** In a task's first batch every item is unknown and gets the batch time. */
  lemma {:induction false} FirstBatchSharesTime(batch: Batch, n: nat)
    requires Timed(batch) && DistinctIds(batch.items) && n <= |batch.items|
    ensures var w := After(NEW_BOOK, batch, n);
            w.anchor == ZERO_TIME && forall id :: id in w.book.links ==> w.book.links[id].createdAt == batch.time
  {
    if n > 0 {
      FirstBatchSharesTime(batch, n - 1);
      assert !Mentions(batch.items, n - 1, batch.items[n - 1].sourceId);
      OthersUntouched(NEW_BOOK, batch, n - 1, batch.items[n - 1].sourceId);
    }
  }

  /** A first batch with more items than the cap loses all its rows, because they share one time. */
  lemma OverfullFirstBatchVanishes(batch: Batch, cap: int)
    requires Timed(batch) && DistinctIds(batch.items) && batch.time != ZERO_TIME
    requires 0 < cap < |After(NEW_BOOK, batch, |batch.items|).book.links|
    ensures Processed(NEW_BOOK, batch, cap).links == map[]
  {
    var links := After(NEW_BOOK, batch, |batch.items|).book.links;
    FirstBatchSharesTime(batch, |batch.items|);
    NothingStaysExactly(links, cap, SomeOrdering(links));
  }

  /** A known item whose row was deleted gets the batch time at its next sighting without a drop, and no notice. */
  lemma DeletedRowReturnsAsNewest(b: Book, batch: Batch, i: nat)
    requires Timed(batch) && DistinctIds(batch.items) && i < |batch.items| && !Blank(batch.items[i])
    requires var id := batch.items[i].sourceId;
             id in b.cache && id in b.prices && id !in b.links && batch.items[i].price >= b.cache[id]
    ensures var id, links := batch.items[i].sourceId, After(b, batch, |batch.items|).book.links;
            id in links && links[id] == Link(batch.time, i + 1)
    ensures NoticeFor(batch.items[i], OutcomeAt(b, batch, i)) == []
  {
    var id := batch.items[i].sourceId;
    assert !Mentions(batch.items, i, id);
    OthersUntouched(b, batch, i, id);
    LaterItemsLeaveLink(b, batch, i, |batch.items|);
  }
}
