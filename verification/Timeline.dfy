/**
The timeline shows a task's items by link time, newest first, then by rank. For a feed that gains items only at its
head, this order gives back the feed's own order after every batch.
*/
module Timeline {
  import opened Cleanup
  import opened Ingest
  import opened IngestRuns

  type Feed = seq<SourceId>

  /**
  One turn: the feed gains items at its head, loses a set of items anywhere, and is fetched to some depth.
  */
  datatype Turn = Turn(gained: Feed, lost: set<SourceId>, depth: nat, batch: Batch)

  function Without(feed: Feed, lost: set<SourceId>): Feed {
    if feed == [] then []
    else (if feed[0] in lost then [] else [feed[0]]) + Without(feed[1..], lost)
  }

  function FeedAfter(feed: Feed, turn: Turn): Feed {
    turn.gained + Without(feed, turn.lost)
  }

  predicate NonBlankId(id: SourceId) {
    !Blank(Item(id, 0))
  }

  /** The gained items differ from each other and from what is left of the feed; the task may have seen them before. */
  predicate GainsAtHead(feed: Feed, turn: Turn) {
    NoRepeats(FeedAfter(feed, turn)) && forall i :: 0 <= i < |turn.gained| ==> NonBlankId(turn.gained[i])
  }

  /** The gained items are even new to the task. */
  predicate GainsAreNew(b: Book, feed: Feed, turn: Turn) {
    && NoRepeats(turn.gained)
    && forall i :: 0 <= i < |turn.gained| ==>
         turn.gained[i] !in b.cache && turn.gained[i] !in feed && NonBlankId(turn.gained[i])
  }

  /** The batch is the head of the feed, to the turn's depth. */
  predicate FetchesHead(feed: Feed, turn: Turn) {
    && turn.depth <= |feed| && |turn.batch.items| == turn.depth
    && forall i :: 0 <= i < turn.depth ==> turn.batch.items[i].sourceId == feed[i]
  }

  predicate NoPriceDrop(b: Book, batch: Batch) {
    forall i :: 0 <= i < |batch.items| && batch.items[i].sourceId in b.cache ==>
      batch.items[i].price >= b.cache[batch.items[i].sourceId]
  }

  /** The batch is not older than any row, and all times are real. */
  predicate ClockMovesOn(b: Book, batch: Batch) {
    && batch.time != ZERO_TIME
    && forall id :: id in b.links ==> b.links[id].createdAt <= batch.time && b.links[id].createdAt != ZERO_TIME
  }

  /** An error-free turn without price drop and without clean-up deletion. */
  ghost predicate Fetches(b: Book, feed: Feed, turn: Turn, cap: int) {
    && Timed(turn.batch)
    && GainsAtHead(feed, turn) && FetchesHead(FeedAfter(feed, turn), turn)
    && NoPriceDrop(b, turn.batch) && ClockMovesOn(b, turn.batch)
    && Processed(b, turn.batch, cap).links == After(b, turn.batch, |turn.batch.items|).book.links
  }

  /** Moreover, the rows the task has already are in order along the new feed. */
  ghost predicate Allowed(b: Book, feed: Feed, turn: Turn, cap: int) {
    Fetches(b, feed, turn, cap) && Descending(FeedAfter(feed, turn), b.links)
  }

  // ---------------------------------------------------------------- the order along the feed

  /** Link times never increase along the feed. */
  predicate Descending(feed: Feed, links: Links) {
    forall i, j :: 0 <= i < j < |feed| && feed[i] in links && feed[j] in links ==>
      links[feed[i]].createdAt >= links[feed[j]].createdAt
  }

  /** A known item has a row and a row belongs to a known item. */
  predicate Steady(b: Book) {
    b.links.Keys == b.cache.Keys <= b.prices.Keys
  }

  /** Feed ids are distinct and not blank, and link times never increase along the feed. */
  predicate Follows(b: Book, feed: Feed) {
    && Steady(b)
    && NoRepeats(feed) && (forall i :: 0 <= i < |feed| ==> NonBlankId(feed[i]))
    && Descending(feed, b.links)
  }

  lemma {:induction false} WithoutIsPart(feed: Feed, lost: set<SourceId>)
    ensures forall id :: id in Without(feed, lost) ==> id in feed && id !in lost
  {
    if feed != [] {
      WithoutIsPart(feed[1..], lost);
    }
  }

  lemma {:induction false} WithoutKeepsOrder(feed: Feed, lost: set<SourceId>, links: Links)
    requires NoRepeats(feed) && Descending(feed, links)
    ensures NoRepeats(Without(feed, lost)) && Descending(Without(feed, lost), links)
  {
    if feed != [] {
      var rest := Without(feed[1..], lost);
      WithoutKeepsOrder(feed[1..], lost, links);
      WithoutIsPart(feed[1..], lost);
      if feed[0] !in lost {
        forall j | 0 <= j < |rest|
          ensures rest[j] != feed[0]
          ensures feed[0] in links && rest[j] in links ==> links[feed[0]].createdAt >= links[rest[j]].createdAt
        {
          assert rest[j] in rest && rest[j] in feed[1..];
          var k :| 0 <= k < |feed[1..]| && feed[1..][k] == rest[j];
          assert feed[k + 1] == rest[j];
        }
        HeadAhead(feed[0], rest, links);
      } else {
        assert Without(feed, lost) == rest;
      }
    }
  }

  lemma HeadAhead(head: SourceId, rest: Feed, links: Links)
    requires NoRepeats(rest) && Descending(rest, links)
    requires forall j :: 0 <= j < |rest| ==> rest[j] != head
    requires forall j :: 0 <= j < |rest| && head in links && rest[j] in links ==>
               links[head].createdAt >= links[rest[j]].createdAt
    ensures NoRepeats([head] + rest) && Descending([head] + rest, links)
  {
  }

  lemma NewFeedFollows(b: Book, feed: Feed, turn: Turn)
    requires Follows(b, feed) && GainsAtHead(feed, turn) && Descending(FeedAfter(feed, turn), b.links)
    ensures Follows(b, FeedAfter(feed, turn))
  {
    var rest, all := Without(feed, turn.lost), FeedAfter(feed, turn);
    WithoutIsPart(feed, turn.lost);
    forall i | 0 <= i < |all|
      ensures NonBlankId(all[i])
    {
      if i >= |turn.gained| {
        assert all[i] == rest[i - |turn.gained|] && all[i] in rest;
      }
    }
  }

  /** New items at the head have no rows yet, so the order is not disturbed before the batch is processed. */
  lemma NewGainsKeepOrder(b: Book, feed: Feed, turn: Turn)
    requires Follows(b, feed) && GainsAreNew(b, feed, turn)
    ensures GainsAtHead(feed, turn) && Descending(FeedAfter(feed, turn), b.links)
  {
    var rest, all := Without(feed, turn.lost), FeedAfter(feed, turn);
    WithoutIsPart(feed, turn.lost);
    WithoutKeepsOrder(feed, turn.lost, b.links);
    forall i, j | 0 <= i < j < |all|
      ensures all[i] != all[j]
      ensures all[i] in b.links && all[j] in b.links ==> b.links[all[i]].createdAt >= b.links[all[j]].createdAt
    {
      if i >= |turn.gained| {
        assert all[i] == rest[i - |turn.gained|] && all[j] == rest[j - |turn.gained|];
      } else if j >= |turn.gained| {
        assert all[j] == rest[j - |turn.gained|] && all[j] in rest;
      }
    }
  }

  // ---------------------------------------------------------------- inside one batch

  /** After `n` items: everything seen so far has a row, the order holds, and the next unknown item will fit in. */
  predicate Midway(feed: Feed, batch: Batch, n: nat, w: Walk)
    requires n <= |batch.items| <= |feed|
  {
    && Follows(w.book, feed) && ClockMovesOn(w.book, batch)
    && (forall i :: 0 <= i < n ==> feed[i] in w.book.links)
    && (n == 0 ==> w.anchor == ZERO_TIME)
    && (n > 0 ==> w.book.links[feed[n - 1]].createdAt == LinkTime(w, batch.time))
  }

  /** Rows changed at place `n` only, in a way that fits between its neighbours. */
  lemma FitsIn(feed: Feed, links: Links, links': Links, n: nat)
    requires n < |feed| && NoRepeats(feed) && Descending(feed, links) && feed[n] in links'
    requires forall id :: id in links' && id != feed[n] ==> id in links && links'[id] == links[id]
    requires forall i :: 0 <= i < n && feed[i] in links ==> links[feed[i]].createdAt >= links'[feed[n]].createdAt
    requires forall j :: n < j < |feed| && feed[j] in links ==> links'[feed[n]].createdAt >= links[feed[j]].createdAt
    ensures Descending(feed, links')
  {
    forall i, j | 0 <= i < j < |feed| && feed[i] in links' && feed[j] in links'
      ensures links'[feed[i]].createdAt >= links'[feed[j]].createdAt
    {
      assert i != n ==> feed[i] != feed[n];
      assert j != n ==> feed[j] != feed[n];
    }
  }

  /** A known item keeps its time: without a price drop only its rank changes. */
  lemma KnownStep(feed: Feed, batch: Batch, n: nat, w: Walk, touchTime: int)
    requires n < |batch.items| <= |feed| && Midway(feed, batch, n, w)
    requires batch.items[n].sourceId == feed[n] && feed[n] in w.book.cache
    requires batch.items[n].price >= w.book.cache[feed[n]]
    ensures Midway(feed, batch, n + 1, Visit(w, batch.time, touchTime, n + 1, batch.items[n]))
  {
    var v := Visit(w, batch.time, touchTime, n + 1, batch.items[n]);
    assert NonBlankId(feed[n]);
    assert v.book.links == w.book.links[feed[n] := Link(w.book.links[feed[n]].createdAt, n + 1)];
    FitsIn(feed, w.book.links, v.book.links, n);
  }

  /** An unknown item takes the time of the item before it, or the batch time at the head. */
  lemma UnknownStep(feed: Feed, batch: Batch, n: nat, w: Walk, touchTime: int)
    requires n < |batch.items| <= |feed| && Midway(feed, batch, n, w)
    requires batch.items[n].sourceId == feed[n] && feed[n] !in w.book.cache
    ensures Midway(feed, batch, n + 1, Visit(w, batch.time, touchTime, n + 1, batch.items[n]))
  {
    var v := Visit(w, batch.time, touchTime, n + 1, batch.items[n]);
    assert NonBlankId(feed[n]);
    assert v.book.links == w.book.links[feed[n] := Link(LinkTime(w, batch.time), n + 1)];
    assert n > 0 ==> feed[n - 1] in w.book.links;
    FitsIn(feed, w.book.links, v.book.links, n);
  }

  /** Item `n` is still as the book had it before the batch, so its price does not drop. */
  lemma PriceDoesNotDrop(b: Book, feed: Feed, turn: Turn, n: nat)
    requires Timed(turn.batch) && NoRepeats(feed) && FetchesHead(feed, turn) && n < turn.depth
    requires NoPriceDrop(b, turn.batch)
    ensures var cache := After(b, turn.batch, n).book.cache;
            feed[n] in cache ==> turn.batch.items[n].price >= cache[feed[n]]
  {
    assert turn.batch.items[n].sourceId == feed[n];
    assert !Mentions(turn.batch.items, n, feed[n]);
    OthersUntouched(b, turn.batch, n, feed[n]);
  }

  lemma MidwayStep(feed: Feed, batch: Batch, n: nat, w: Walk, touchTime: int)
    requires n < |batch.items| <= |feed| && Midway(feed, batch, n, w) && batch.items[n].sourceId == feed[n]
    requires feed[n] in w.book.cache ==> batch.items[n].price >= w.book.cache[feed[n]]
    ensures Midway(feed, batch, n + 1, Visit(w, batch.time, touchTime, n + 1, batch.items[n]))
  {
    if feed[n] in w.book.cache {
      KnownStep(feed, batch, n, w, touchTime);
    } else {
      UnknownStep(feed, batch, n, w, touchTime);
    }
  }

  /** What one batch of the run needs of the feed it was fetched from. */
  ghost predicate Fair(b: Book, feed: Feed, turn: Turn) {
    && Timed(turn.batch) && Follows(b, feed) && FetchesHead(feed, turn)
    && NoPriceDrop(b, turn.batch) && ClockMovesOn(b, turn.batch)
  }

  ghost predicate MidwayAt(b: Book, feed: Feed, turn: Turn, n: nat)
    requires Fair(b, feed, turn) && n <= turn.depth
  {
    Midway(feed, turn.batch, n, After(b, turn.batch, n))
  }

  lemma MidwayStart(b: Book, feed: Feed, turn: Turn)
    requires Fair(b, feed, turn)
    ensures MidwayAt(b, feed, turn, 0)
  {
  }

  lemma MidwayNext(b: Book, feed: Feed, turn: Turn, n: nat)
    requires Fair(b, feed, turn) && n < turn.depth && MidwayAt(b, feed, turn, n)
    ensures MidwayAt(b, feed, turn, n + 1)
  {
    var w := After(b, turn.batch, n);
    PriceDoesNotDrop(b, feed, turn, n);
    MidwayStep(feed, turn.batch, n, w, turn.batch.touchTimes[n]);
    AfterStep(b, turn.batch, n);
  }

  lemma {:induction false} MidwayFrom(b: Book, feed: Feed, turn: Turn, k: nat, n: nat)
    requires Fair(b, feed, turn) && k <= n <= turn.depth && MidwayAt(b, feed, turn, k)
    ensures MidwayAt(b, feed, turn, n)
    decreases n - k
  {
    if k < n {
      MidwayNext(b, feed, turn, k);
      MidwayFrom(b, feed, turn, k + 1, n);
    }
  }

  lemma MidwayHolds(b: Book, feed: Feed, turn: Turn, n: nat)
    requires Fair(b, feed, turn) && n <= turn.depth
    ensures MidwayAt(b, feed, turn, n)
  {
    MidwayStart(b, feed, turn);
    MidwayFrom(b, feed, turn, 0, n);
  }

  // ---------------------------------------------------------------- whole runs

  predicate Ahead(a: Link, b: Link) {
    a.createdAt > b.createdAt || (a.createdAt == b.createdAt && a.rank < b.rank)
  }

  /** The timeline's sort keys are strictly increasing along `ids`, so no other arrangement of them is sorted. */
  predicate InTimelineOrder(ids: seq<SourceId>, links: Links) {
    && (forall i :: 0 <= i < |ids| ==> ids[i] in links)
    && forall i, j :: 0 <= i < j < |ids| ==> Ahead(links[ids[i]], links[ids[j]])
  }

  function Fetched(batch: Batch): seq<SourceId> {
    seq(|batch.items|, i requires 0 <= i < |batch.items| => batch.items[i].sourceId)
  }

  /** A batch fetched from the head of a feed whose rows are in order leaves them in order, its own strictly so. */
  lemma BatchKeepsOrder(b: Book, feed: Feed, turn: Turn)
    requires Fair(b, feed, turn)
    ensures Follows(After(b, turn.batch, turn.depth).book, feed)
    ensures InTimelineOrder(Fetched(turn.batch), After(b, turn.batch, turn.depth).book.links)
  {
    MidwayHolds(b, feed, turn, turn.depth);
    var links := After(b, turn.batch, turn.depth).book.links;
    forall i | 0 <= i < turn.depth
      ensures feed[i] in links && links[feed[i]].rank == i + 1
    {
      RankIsPlace(b, feed, turn, i);
    }
  }

  lemma TurnKeepsOrder(b: Book, feed: Feed, turn: Turn, cap: int)
    requires Follows(b, feed) && Allowed(b, feed, turn, cap)
    ensures Follows(Processed(b, turn.batch, cap), FeedAfter(feed, turn))
    ensures InTimelineOrder(Fetched(turn.batch), Processed(b, turn.batch, cap).links)
  {
    NewFeedFollows(b, feed, turn);
    BatchKeepsOrder(b, FeedAfter(feed, turn), turn);
  }

  lemma RankIsPlace(b: Book, feed: Feed, turn: Turn, i: nat)
    requires Fair(b, feed, turn) && i < turn.depth
    ensures feed[i] in After(b, turn.batch, turn.depth).book.links
    ensures After(b, turn.batch, turn.depth).book.links[feed[i]].rank == i + 1
  {
    MidwayHolds(b, feed, turn, i);
    VisitSettles(b, turn.batch, i);
    assert DistinctIds(turn.batch.items);
    LaterItemsLeaveLink(b, turn.batch, i, turn.depth);
    assert !Blank(turn.batch.items[i]) by {
      assert NonBlankId(feed[i]);
    }
  }

  /** Feed and book after a run of turns. */
  ghost function FeedOf(turns: seq<Turn>): Feed {
    if turns == [] then [] else FeedAfter(FeedOf(turns[..|turns| - 1]), turns[|turns| - 1])
  }

  function Batches(turns: seq<Turn>): (run: seq<Batch>)
    ensures |run| == |turns| && forall i :: 0 <= i < |run| ==> run[i] == turns[i].batch
  {
    seq(|turns|, i requires 0 <= i < |turns| => turns[i].batch)
  }

  ghost function BookOf(turns: seq<Turn>, cap: int): Book
    requires forall i :: 0 <= i < |turns| ==> Timed(turns[i].batch)
  {
    BookAfter(Batches(turns), cap)
  }

  lemma BookOfStep(turns: seq<Turn>, cap: int)
    requires turns != [] && forall i :: 0 <= i < |turns| ==> Timed(turns[i].batch)
    ensures BookOf(turns, cap) == Processed(BookOf(turns[..|turns| - 1], cap), turns[|turns| - 1].batch, cap)
  {
    assert Batches(turns)[..|turns| - 1] == Batches(turns[..|turns| - 1]);
  }

  ghost predicate AllowedRun(turns: seq<Turn>, cap: int) {
    && (forall i :: 0 <= i < |turns| ==> Timed(turns[i].batch))
    && (turns == [] ||
        (AllowedRun(turns[..|turns| - 1], cap) &&
         Allowed(BookOf(turns[..|turns| - 1], cap), FeedOf(turns[..|turns| - 1]), turns[|turns| - 1], cap)))
  }

  /** Along every run the link times follow the feed. */
  lemma {:induction false} LinksFollowFeed(turns: seq<Turn>, cap: int)
    requires AllowedRun(turns, cap)
    ensures Follows(BookOf(turns, cap), FeedOf(turns))
  {
    if turns != [] {
      var before := turns[..|turns| - 1];
      LinksFollowFeed(before, cap);
      TurnKeepsOrder(BookOf(before, cap), FeedOf(before), turns[|turns| - 1], cap);
      BookOfStep(turns, cap);
    }
  }

  lemma SameFirst(ids: seq<SourceId>, order: seq<SourceId>, links: Links)
    requires ids != [] && InTimelineOrder(ids, links) && multiset(ids) == multiset(order) && Sorted(order, links)
    ensures order != [] && order[0] == ids[0]
  {
    assert ids[0] in multiset(order);
    assert order[0] in multiset(ids);
    var k :| 0 <= k < |order| && order[k] == ids[0];
    var m :| 0 <= m < |ids| && ids[m] == order[0];
    assert m > 0 ==> Ahead(links[ids[0]], links[ids[m]]);
    assert k > 0 ==> NotBehind(links[order[0]], links[order[k]]);
  }

  lemma TailsAgree(ids: seq<SourceId>, order: seq<SourceId>)
    requires ids != [] && order != [] && ids[0] == order[0] && multiset(ids) == multiset(order)
    ensures multiset(ids[1..]) == multiset(order[1..])
  {
    assert ids == [ids[0]] + ids[1..] && order == [order[0]] + order[1..];
    assert multiset(ids[1..]) == multiset(ids) - multiset{ids[0]};
    assert multiset(order[1..]) == multiset(order) - multiset{order[0]};
  }

  lemma {:induction false} OnlyOneSorted(ids: seq<SourceId>, order: seq<SourceId>, links: Links)
    requires InTimelineOrder(ids, links) && multiset(ids) == multiset(order) && Sorted(order, links)
    ensures order == ids
  {
    if ids == [] {
      assert |multiset(order)| == 0;
    } else {
      SameFirst(ids, order, links);
      TailsAgree(ids, order);
      OnlyOneSorted(ids[1..], order[1..], links);
      assert ids == [ids[0]] + ids[1..] && order == [order[0]] + order[1..];
    }
  }

  /** A run in which every gained item is new to the task. */
  ghost predicate FreshRun(turns: seq<Turn>, cap: int) {
    && (forall i :: 0 <= i < |turns| ==> Timed(turns[i].batch))
    && (turns == [] ||
        (var before, last := turns[..|turns| - 1], turns[|turns| - 1];
         && FreshRun(before, cap) && Fetches(BookOf(before, cap), FeedOf(before), last, cap)
         && GainsAreNew(BookOf(before, cap), FeedOf(before), last)))
  }

  /** A feed that only ever gains new items never gets out of order, so the timeline follows it. */
  lemma {:induction false} FreshRunIsAllowed(turns: seq<Turn>, cap: int)
    requires FreshRun(turns, cap)
    ensures AllowedRun(turns, cap)
  {
    if turns != [] {
      var before := turns[..|turns| - 1];
      FreshRunIsAllowed(before, cap);
      LinksFollowFeed(before, cap);
      NewGainsKeepOrder(BookOf(before, cap), FeedOf(before), turns[|turns| - 1]);
    }
  }

  // ---------------------------------------------------------------- exactly when

  /** The ids of the batch are distinct and not blank. */
  predicate Clean(batch: Batch) {
    NoRepeats(Fetched(batch)) && forall i :: 0 <= i < |batch.items| ==> !Blank(batch.items[i])
  }

  /** Without a price drop a known item keeps its link time. */
  lemma {:induction false} KnownKeepsTime(b: Book, batch: Batch, n: nat, id: SourceId)
    requires Timed(batch) && n <= |batch.items| && Clean(batch) && Steady(b) && NoPriceDrop(b, batch) && id in b.links
    ensures var links := After(b, batch, n).book.links;
            id in links && links[id].createdAt == b.links[id].createdAt
  {
    if n > 0 {
      KnownKeepsTime(b, batch, n - 1, id);
      var it := batch.items[n - 1];
      if it.sourceId == id {
        assert forall i :: 0 <= i < n - 1 ==> Fetched(batch)[i] != Fetched(batch)[n - 1];
        assert !Mentions(batch.items, n - 1, id) by {
          assert forall i :: 0 <= i < n - 1 ==> batch.items[i].sourceId == Fetched(batch)[i];
        }
        OthersUntouched(b, batch, n - 1, id);
      }
    }
  }

  /** A batch as a turn of the feed that consists of its own items. */
  function WholeFeed(batch: Batch): Turn {
    Turn([], {}, |batch.items|, batch)
  }

  /** The batch ends up strictly in timeline order if and only if the rows the task had already were in its order. */
  lemma OrderedExactly(b: Book, batch: Batch)
    requires Timed(batch) && Steady(b) && Clean(batch) && NoPriceDrop(b, batch) && ClockMovesOn(b, batch)
    ensures InTimelineOrder(Fetched(batch), After(b, batch, |batch.items|).book.links) <==>
              Descending(Fetched(batch), b.links)
  {
    var ids, links := Fetched(batch), After(b, batch, |batch.items|).book.links;
    if Descending(ids, b.links) {
      assert forall i :: 0 <= i < |ids| ==> NonBlankId(ids[i]) by {
        assert forall i :: 0 <= i < |ids| ==> !Blank(batch.items[i]) && ids[i] == batch.items[i].sourceId;
      }
      BatchKeepsOrder(b, ids, WholeFeed(batch));
    }
    if InTimelineOrder(ids, links) {
      SortedWasDescending(b, batch, ids);
    }
  }

  lemma SortedWasDescending(b: Book, batch: Batch, ids: seq<SourceId>)
    requires Timed(batch) && Steady(b) && Clean(batch) && NoPriceDrop(b, batch)
    requires Sorted(ids, After(b, batch, |batch.items|).book.links)
    ensures Descending(ids, b.links)
  {
    var links := After(b, batch, |batch.items|).book.links;
    forall i, j | 0 <= i < j < |ids| && ids[i] in b.links && ids[j] in b.links
      ensures b.links[ids[i]].createdAt >= b.links[ids[j]].createdAt
    {
      KnownKeepsTime(b, batch, |batch.items|, ids[i]);
      KnownKeepsTime(b, batch, |batch.items|, ids[j]);
      assert NotBehind(links[ids[i]], links[ids[j]]);
    }
  }

  /** A run of such batches, from whatever feeds, without clean-up deletions. */
  ghost predicate PlainRun(run: seq<Batch>, cap: int) {
    && (forall i :: 0 <= i < |run| ==> Timed(run[i]))
    && (run == [] ||
        (var b, last := BookAfter(run[..|run| - 1], cap), run[|run| - 1];
         && PlainRun(run[..|run| - 1], cap) && Clean(last) && NoPriceDrop(b, last) && ClockMovesOn(b, last)
         && Processed(b, last, cap).links == After(b, last, |last.items|).book.links))
  }

  lemma {:induction false} StaysSteady(b: Book, batch: Batch, n: nat)
    requires Timed(batch) && n <= |batch.items| && Steady(b)
    ensures Steady(After(b, batch, n).book)
  {
    if n > 0 {
      StaysSteady(b, batch, n - 1);
    }
  }

  lemma {:induction false} PlainRunIsSteady(run: seq<Batch>, cap: int)
    requires PlainRun(run, cap)
    ensures Steady(BookAfter(run, cap))
  {
    if run != [] {
      PlainRunIsSteady(run[..|run| - 1], cap);
      StaysSteady(BookAfter(run[..|run| - 1], cap), run[|run| - 1], |run[|run| - 1].items|);
    }
  }

  /**
  Exactly when the timeline shows the latest batch in its own order: in every run, if and only if those of its items
  that the task knew already had link times that do not increase along the batch.
  */
  lemma TimelineOrderExactly(run: seq<Batch>, cap: int, order: seq<SourceId>)
    requires run != [] && PlainRun(run, cap)
    requires multiset(order) == multiset(Fetched(run[|run| - 1])) && Sorted(order, BookAfter(run, cap).links)
    ensures order == Fetched(run[|run| - 1]) <==>
              Descending(Fetched(run[|run| - 1]), BookAfter(run[..|run| - 1], cap).links)
  {
    var b, last := BookAfter(run[..|run| - 1], cap), run[|run| - 1];
    PlainRunIsSteady(run[..|run| - 1], cap);
    OrderedExactly(b, last);
    if Descending(Fetched(last), b.links) {
      OnlyOneSorted(Fetched(last), order, BookAfter(run, cap).links);
    }
    if order == Fetched(last) {
      SortedWasDescending(b, last, order);
    }
  }

  /** A batch fetched in an allowed turn has distinct ids, and its known items were in order. */
  lemma AllowedBatch(b: Book, feed: Feed, turn: Turn, cap: int)
    requires Follows(b, feed) && Allowed(b, feed, turn, cap)
    ensures Clean(turn.batch) && Descending(Fetched(turn.batch), b.links)
  {
    var feed' := FeedAfter(feed, turn);
    NewFeedFollows(b, feed, turn);
    forall i | 0 <= i < turn.depth
      ensures Fetched(turn.batch)[i] == feed'[i] && !Blank(turn.batch.items[i])
    {
      assert NonBlankId(feed'[i]);
    }
  }

  /** An allowed run is one of the runs the exact condition speaks about. */
  lemma {:induction false} AllowedRunIsPlain(turns: seq<Turn>, cap: int)
    requires AllowedRun(turns, cap)
    ensures PlainRun(Batches(turns), cap)
  {
    if turns != [] {
      var before := turns[..|turns| - 1];
      AllowedRunIsPlain(before, cap);
      LinksFollowFeed(before, cap);
      AllowedBatch(BookOf(before, cap), FeedOf(before), turns[|turns| - 1], cap);
      assert Batches(turns)[..|turns| - 1] == Batches(before);
    }
  }

  lemma AllowedRunInOrder(turns: seq<Turn>, cap: int)
    requires turns != [] && AllowedRun(turns, cap)
    ensures var run := Batches(turns);
            PlainRun(run, cap) && Descending(Fetched(run[|run| - 1]), BookAfter(run[..|run| - 1], cap).links)
  {
    var before := turns[..|turns| - 1];
    AllowedRunIsPlain(turns, cap);
    LinksFollowFeed(before, cap);
    AllowedBatch(BookOf(before, cap), FeedOf(before), turns[|turns| - 1], cap);
    assert Batches(turns)[..|turns| - 1] == Batches(before);
  }

  /**
  Timeline order follows the feed: after every allowed run, any answer to ORDER BY created_at DESC, rank ASC over
  the latest batch's rows is that batch in its own order.
  */
  lemma TimelineFollowsFeed(turns: seq<Turn>, cap: int, order: seq<SourceId>)
    requires turns != [] && AllowedRun(turns, cap)
    requires multiset(order) == multiset(Fetched(turns[|turns| - 1].batch)) && Sorted(order, BookOf(turns, cap).links)
    ensures order == Fetched(turns[|turns| - 1].batch)
  {
    AllowedRunInOrder(turns, cap);
    TimelineOrderExactly(Batches(turns), cap, order);
  }

  // ---------------------------------------------------------------- an item that comes back

  /** The feed gains `a`, then `b` while `a` leaves, then `a` again. */
  function ComingBack(a: SourceId, b: SourceId): seq<Turn> {
    [Turn([a], {}, 1, Batch(1, [Item(a, 5)], [1])),
     Turn([b], {a}, 1, Batch(2, [Item(b, 5)], [2])),
     Turn([a], {}, 2, Batch(3, [Item(a, 5), Item(b, 5)], [3, 3]))]
  }

  lemma FeedComesBack(a: SourceId, b: SourceId)
    requires a != b
    ensures var turns := ComingBack(a, b);
            FeedOf([]) == [] && FeedOf(turns[..1]) == [a] && FeedOf(turns[..2]) == [b] && FeedOf(turns) == [a, b]
  {
    var turns := ComingBack(a, b);
    assert turns[..1][..0] == [] && turns[..2][..1] == turns[..1] && turns[..3] == turns;
    assert [a][1..] == [] && [b][1..] == [];
    assert FeedOf(turns[..1]) == [a] + Without([], {});
    assert Without([a], {a}) == [] && Without([b], {}) == [b];
  }

  /** The book after the first `n` turns. */
  function BookThen(a: SourceId, b: SourceId, n: nat): Book {
    if n == 0 then NEW_BOOK
    else if n == 1 then Book(map[a := 5], map[a := 5], map[a := Link(1, 1)])
    else Book(map[a := 5, b := 5], map[a := 5, b := 5], map[a := Link(1, 1), b := Link(2, 1)])
  }

  lemma OneNewItem(w: Book, id: SourceId, time: int)
    requires NonBlankId(id) && id !in w.cache && id !in w.links && time != ZERO_TIME
    ensures var batch := Batch(time, [Item(id, 5)], [time]);
            Processed(w, batch, 0) == Book(w.cache[id := 5], w.prices[id := 5], w.links[id := Link(time, 1)])
            && After(w, batch, 1).book == Processed(w, batch, 0)
  {
    assert After(w, Batch(time, [Item(id, 5)], [time]), 0) == Walk(w, ZERO_TIME);
  }

  lemma BooksThen(a: SourceId, b: SourceId)
    requires a != b && NonBlankId(a) && NonBlankId(b)
    ensures var turns := ComingBack(a, b);
            BookOf([], 0) == BookThen(a, b, 0) && BookOf(turns[..1], 0) == BookThen(a, b, 1)
            && BookOf(turns[..2], 0) == BookThen(a, b, 2)
  {
    var turns := ComingBack(a, b);
    assert turns[..1][..0] == [] && turns[..2][..1] == turns[..1];
    BookOfStep(turns[..1], 0);
    BookOfStep(turns[..2], 0);
    OneNewItem(NEW_BOOK, a, 1);
    OneNewItem(BookThen(a, b, 1), b, 2);
  }

  lemma LastTurnFetches(a: SourceId, b: SourceId)
    requires a != b && NonBlankId(a) && NonBlankId(b)
    ensures var turns := ComingBack(a, b);
            Fetches(BookOf(turns[..2], 0), FeedOf(turns[..2]), turns[2], 0)
  {
    FeedComesBack(a, b);
    BooksThen(a, b);
    assert FeedAfter([b], ComingBack(a, b)[2]) == [a, b] by {
      assert Without([b], {}) == [b];
    }
  }

  lemma FirstTurnsAreAllowed(a: SourceId, b: SourceId)
    requires a != b && NonBlankId(a) && NonBlankId(b)
    ensures AllowedRun(ComingBack(a, b)[..2], 0)
  {
    var turns := ComingBack(a, b);
    FeedComesBack(a, b);
    BooksThen(a, b);
    OneNewItem(NEW_BOOK, a, 1);
    OneNewItem(BookThen(a, b, 1), b, 2);
    assert turns[..1][..0] == [] && turns[..2][..1] == turns[..1];
    assert FeedAfter([], turns[0]) == [a] && FeedAfter([a], turns[1]) == [b];
    assert AllowedRun([], 0);
    assert Allowed(NEW_BOOK, [], turns[0], 0);
    assert AllowedRun(turns[..1], 0);
    assert Allowed(BookThen(a, b, 1), [a], turns[1], 0);
  }

  /**
  An item the task knows that leaves the feed and returns at its head comes back with its old link time: the
  timeline then shows the two items the other way round, although nothing else went wrong.
  */
  lemma ReturningItemIsShownLate(a: SourceId, b: SourceId, order: seq<SourceId>)
    requires a != b && NonBlankId(a) && NonBlankId(b)
    requires var turns := ComingBack(a, b);
             multiset(order) == multiset([a, b]) && Sorted(order, BookOf(turns, 0).links)
    ensures var turns := ComingBack(a, b);
            && AllowedRun(turns[..2], 0) && Fetches(BookOf(turns[..2], 0), FeedOf(turns[..2]), turns[2], 0)
            && FeedOf(turns) == Fetched(turns[2].batch) == [a, b] && order == [b, a]
  {
    var turns := ComingBack(a, b);
    FirstTurnsAreAllowed(a, b);
    LastTurnFetches(a, b);
    FeedComesBack(a, b);
    TimesThen(a, b);
    TwoInOrder(a, b, order);
    assert Fetched(turns[2].batch) == [a, b];
  }

  /** Both items keep the link times of the first two turns. */
  lemma TimesThen(a: SourceId, b: SourceId)
    requires a != b && NonBlankId(a) && NonBlankId(b)
    ensures var links := BookOf(ComingBack(a, b), 0).links;
            a in links && b in links && links[a].createdAt == 1 && links[b].createdAt == 2
  {
    var turns := ComingBack(a, b);
    BooksThen(a, b);
    BookOfStep(turns, 0);
    var w, last := BookThen(a, b, 2), turns[2].batch;
    KnownKeepsTime(w, last, 2, a);
    KnownKeepsTime(w, last, 2, b);
  }

  lemma TwoInOrder(a: SourceId, b: SourceId, order: seq<SourceId>)
    requires a != b && multiset(order) == multiset([a, b])
    ensures order == [a, b] || order == [b, a]
  {
    assert |order| == |multiset(order)| == 2;
    assert order == [order[0], order[1]];
    assert order[0] in multiset(order) && order[1] in multiset(order);
    assert multiset(order)[a] == 1;
  }
}
