/**
Which mails a batch sends: the new items at the head of the list and the price drops, in the order of the batch, and
nothing else. Over whole runs, drops follow the latest earlier sighting and new items are those never sighted before.
*/
module Notices {
  import opened Blanks
  import opened Cleanup
  import opened Ingest
  import opened IngestRuns

  // ---------------------------------------------------------------- what should be sent

  /** Cached, with an item row and a link row. */
  predicate Known(b: Book, it: Item) {
    !AllSpace(it.sourceId) && it.sourceId in b.cache && it.sourceId in b.prices && it.sourceId in b.links
  }

  /** Not seen before, and nothing known stands before it. */
  predicate NewAtTop(b: Book, items: seq<Item>, i: nat)
    requires i < |items|
  {
    !AllSpace(items[i].sourceId) && items[i].sourceId !in b.cache && forall j :: 0 <= j < i ==> !Known(b, items[j])
  }

  /** Cheaper than cached. */
  predicate Cheaper(b: Book, it: Item, was: int) {
    !AllSpace(it.sourceId) && it.sourceId in b.cache && b.cache[it.sourceId] == was && it.price < was
  }

  /** The batch may be judged by the book before it: distinct ids, and all rows older than the batch. */
  predicate Judged(b: Book, batch: Batch) {
    Timed(batch) && DistinctIds(batch.items) && Consistent(b) && LinksBefore(b, batch.time)
  }

  // ---------------------------------------------------------------- one item

  /** What item `i` adds to the mails. */
  function Share(b: Book, batch: Batch, i: nat): seq<Notice>
    requires Timed(batch) && i < |batch.items|
  {
    NoticeFor(batch.items[i], OutcomeAt(b, batch, i))
  }

  lemma BookEntryUnchanged(b: Book, batch: Batch, i: nat)
    requires Timed(batch) && DistinctIds(batch.items) && i < |batch.items|
    ensures SameFor(After(b, batch, i).book, b, batch.items[i].sourceId)
  {
    assert !Mentions(batch.items, i, batch.items[i].sourceId);
    OthersUntouched(b, batch, i, batch.items[i].sourceId);
  }

  lemma ShareOfItem(b: Book, batch: Batch, i: nat)
    requires Judged(b, batch) && i < |batch.items|
    ensures Share(b, batch, i) ==
              if NewAtTop(b, batch.items, i) then [FoundNew(batch.items[i])]
              else if exists was :: Cheaper(b, batch.items[i], was)
              then [PriceDrop(batch.items[i], b.cache[batch.items[i].sourceId])]
              else []
  {
    var it := batch.items[i];
    BookEntryUnchanged(b, batch, i);
    if !AllSpace(it.sourceId) && it.sourceId !in b.cache {
      ExactlyTheHeadIsNew(b, batch, i);
      assert forall j :: 0 <= j < i ==> (Anchors(b, batch.items[j]) <==> Known(b, batch.items[j]));
    }
    if !AllSpace(it.sourceId) && it.sourceId in b.cache && it.price < b.cache[it.sourceId] {
      assert Cheaper(b, it, b.cache[it.sourceId]);
    }
  }

  // ---------------------------------------------------------------- a whole batch

  /** The item a notice is about. */
  function About(x: Notice): Item {
    x.item
  }

  /** `sent[k]` is about item `places[k]`, and the places increase: batch order, at most one notice an item. */
  predicate Placed(sent: seq<Notice>, places: seq<nat>, items: seq<Item>, n: nat)
    requires n <= |items|
  {
    && |places| == |sent| && (forall k :: 0 <= k < |sent| ==> places[k] < n && About(sent[k]) == items[places[k]])
    && forall k, l :: 0 <= k < l < |sent| ==> places[k] < places[l]
  }

  lemma OnePlaceMore(sent: seq<Notice>, places: seq<nat>, items: seq<Item>, n: nat, x: Notice)
    requires n < |items| && Placed(sent, places, items, n) && About(x) == items[n]
    ensures Placed(sent + [x], places + [n], items, n + 1)
  {
  }

  lemma {:induction false} SentInOrder(b: Book, batch: Batch, n: nat) returns (places: seq<nat>)
    requires Timed(batch) && n <= |batch.items|
    ensures Placed(NoticesUpTo(b, batch, n), places, batch.items, n)
  {
    if n == 0 {
      places := [];
    } else {
      places := SentInOrder(b, batch, n - 1);
      if Share(b, batch, n - 1) != [] {
        OnePlaceMore(NoticesUpTo(b, batch, n - 1), places, batch.items, n - 1, Share(b, batch, n - 1)[0]);
        assert Share(b, batch, n - 1) == [Share(b, batch, n - 1)[0]];
        places := places + [n - 1];
      }
    }
  }

  function Joined(parts: seq<seq<Notice>>): seq<Notice> {
    if parts == [] then [] else Joined(parts[..|parts| - 1]) + parts[|parts| - 1]
  }

  lemma {:induction false} InJoined(parts: seq<seq<Notice>>, x: Notice)
    ensures x in Joined(parts) <==> exists i :: 0 <= i < |parts| && x in parts[i]
  {
    if parts != [] {
      var front := parts[..|parts| - 1];
      InJoined(front, x);
      assert forall i :: 0 <= i < |front| ==> front[i] == parts[i];
    }
  }

  function Shares(b: Book, batch: Batch, n: nat): (parts: seq<seq<Notice>>)
    requires Timed(batch) && n <= |batch.items|
    ensures |parts| == n && forall i :: 0 <= i < n ==> parts[i] == Share(b, batch, i)
  {
    seq(n, i requires 0 <= i < n => Share(b, batch, i))
  }

  lemma JoinedStep(parts: seq<seq<Notice>>, front: seq<seq<Notice>>, part: seq<Notice>)
    requires parts == front + [part]
    ensures Joined(parts) == Joined(front) + part
  {
    assert parts[..|parts| - 1] == front;
  }

  lemma ShareStep(b: Book, batch: Batch, n: nat)
    requires Timed(batch) && n < |batch.items|
    ensures NoticesUpTo(b, batch, n + 1) == NoticesUpTo(b, batch, n) + Share(b, batch, n)
    ensures Shares(b, batch, n + 1) == Shares(b, batch, n) + [Share(b, batch, n)]
  {
  }

  lemma {:induction false} SentIsShares(b: Book, batch: Batch, n: nat)
    requires Timed(batch) && n <= |batch.items|
    ensures NoticesUpTo(b, batch, n) == Joined(Shares(b, batch, n))
  {
    if n > 0 {
      SentIsShares(b, batch, n - 1);
      ShareStep(b, batch, n - 1);
      JoinedStep(Shares(b, batch, n), Shares(b, batch, n - 1), Share(b, batch, n - 1));
    }
  }

  lemma OwnPart(parts: seq<seq<Notice>>, items: seq<Item>, i: nat, x: Notice)
    requires |parts| == |items| && i < |items| && About(x) == items[i] && DistinctIds(items)
    requires forall k :: 0 <= k < |parts| ==> OnlyAbout(parts[k], items[k])
    ensures x in Joined(parts) <==> x in parts[i]
  {
    InJoined(parts, x);
    if k :| 0 <= k < |parts| && x in parts[k] {
      assert OnlyAbout(parts[k], items[k]);
      assert items[k].sourceId == items[i].sourceId;
    }
  }

  predicate OnlyAbout(part: seq<Notice>, it: Item) {
    forall x :: x in part ==> About(x) == it
  }

  lemma ShareIsOwn(b: Book, batch: Batch, i: nat)
    requires Timed(batch) && i < |batch.items|
    ensures OnlyAbout(Share(b, batch, i), batch.items[i])
  {
  }

  /** A notice about an item is that item's share. */
  lemma OwnShare(b: Book, batch: Batch, i: nat, x: Notice)
    requires Timed(batch) && DistinctIds(batch.items) && i < |batch.items| && About(x) == batch.items[i]
    ensures x in NoticesUpTo(b, batch, |batch.items|) <==> x in Share(b, batch, i)
  {
    var parts := Shares(b, batch, |batch.items|);
    SentIsShares(b, batch, |batch.items|);
    forall k | 0 <= k < |parts|
      ensures OnlyAbout(parts[k], batch.items[k])
    {
      ShareIsOwn(b, batch, k);
    }
    OwnPart(parts, batch.items, i, x);
  }

  /**
  Exactly what a batch sends: "found new" for the unknown items before the first known one, "price drop", with the
  cached price, for the known ones that got cheaper.
  */
  lemma MailsExactly(b: Book, batch: Batch, i: nat)
    requires Judged(b, batch) && i < |batch.items|
    ensures var sent, it := NoticesUpTo(b, batch, |batch.items|), batch.items[i];
            && (FoundNew(it) in sent <==> NewAtTop(b, batch.items, i))
            && (forall was :: PriceDrop(it, was) in sent <==> Cheaper(b, it, was))
  {
    var it := batch.items[i];
    ShareOfItem(b, batch, i);
    OwnShare(b, batch, i, FoundNew(it));
    forall was
      ensures PriceDrop(it, was) in NoticesUpTo(b, batch, |batch.items|) <==> Cheaper(b, it, was)
    {
      OwnShare(b, batch, i, PriceDrop(it, was));
    }
  }

  // ---------------------------------------------------------------- whole runs

  /** The id was sighted in these items. */
  predicate Sighted(seen: seq<Item>, id: SourceId) {
    exists k :: 0 <= k < |seen| && seen[k].sourceId == id
  }

  lemma CachedMeansSighted(run: seq<Batch>, cap: int, id: SourceId)
    requires (forall m :: 0 <= m < |run| ==> Timed(run[m])) && !AllSpace(id)
    ensures id in BookAfter(run, cap).cache <==> Sighted(Sightings(run), id)
  {
    var cache, seen := BookAfter(run, cap).cache, Sightings(run);
    CacheAfterRun(run, cap);
    if id in cache {
      var k: nat :| LatestAt(seen, id, k) && !Blank(seen[k]);
      assert seen[k].sourceId == id;
    }
    if k :| 0 <= k < |seen| && seen[k].sourceId == id {
      var last := LatestFrom(seen, id, k);
      assert !Blank(seen[last]);
    }
  }

  /**
  In a whole run, item `i` of batch `m` is mailed as cheaper if and only if its price is below that of its latest
  earlier sighting, which is the price quoted.
  */
  lemma DropsInRun(run: seq<Batch>, cap: int, m: nat, i: nat, was: int)
    requires forall k :: 0 <= k < |run| ==> Timed(run[k])
    requires m < |run| && i < |run[m].items|
    ensures var it, seen := run[m].items[i], Before(run, m, i);
            PriceDrop(it, was) in Share(BookAfter(run[..m], cap), run[m], i) <==>
              !AllSpace(it.sourceId) && it.price < was
              && exists k: nat :: LatestAt(seen, it.sourceId, k) && seen[k].price == was
  {
    var it, seen := run[m].items[i], Before(run, m, i);
    if !AllSpace(it.sourceId) {
      NoticesFollowSightings(run, cap, m, i);
      if k: nat, l: nat :| LatestAt(seen, it.sourceId, k) && LatestAt(seen, it.sourceId, l) && k != l {
        assert false;
      }
    }
  }

  /**
  In a whole run, item `i` of batch `m` is mailed as new if and only if it was never sighted before and no item
  before it in the batch has a link row yet.
  */
  lemma NewInRun(run: seq<Batch>, cap: int, m: nat, i: nat)
    requires forall k :: 0 <= k < |run| ==> Timed(run[k])
    requires m < |run| && i < |run[m].items|
    requires DistinctIds(run[m].items) && LinksBefore(BookAfter(run[..m], cap), run[m].time)
    ensures var it, b := run[m].items[i], BookAfter(run[..m], cap);
            FoundNew(it) in Share(b, run[m], i) <==>
              !AllSpace(it.sourceId) && !Sighted(Sightings(run[..m]), it.sourceId)
              && forall j :: 0 <= j < i && !AllSpace(run[m].items[j].sourceId) ==> run[m].items[j].sourceId !in b.links
  {
    var it, b := run[m].items[i], BookAfter(run[..m], cap);
    CacheAfterRun(run[..m], cap);
    ShareOfItem(b, run[m], i);
    if !AllSpace(it.sourceId) {
      CachedMeansSighted(run[..m], cap, it.sourceId);
    }
    assert forall j :: 0 <= j < i && !AllSpace(run[m].items[j].sourceId) ==>
        (Known(b, run[m].items[j]) <==> run[m].items[j].sourceId in b.links);
  }
}
