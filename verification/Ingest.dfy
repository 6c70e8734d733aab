/**
Result ingestion for one task: a cache of prices per source id, the item table, the task's link rows, and a time
anchor carried through the batch. A batch is the list the crawler saw, newest item first.
*/
module Ingest {
  import opened Blanks
  import opened Cleanup

  datatype Item = Item(sourceId: SourceId, price: int)

  /** `time` is the clock when the batch starts, `touchTimes[i]` the clock when item `i` is written, if it is. */
  datatype Batch = Batch(time: int, items: seq<Item>, touchTimes: seq<int>)

  /** Price cache, prices in the item table, and link rows. */
  datatype Book = Book(cache: map<SourceId, int>, prices: map<SourceId, int>, links: Links)

  const NEW_BOOK := Book(map[], map[], map[])

  /** The branch an item takes. */
  datatype Outcome =
    | Skipped                 // blank source id
    | NewAtHead               // unknown, treated as really new
    | NewBehind(anchor: int)  // unknown, but behind a known item: takes that item's time
    | NoItemRow               // known and unchanged, but its item row is gone
    | Unchanged
    | Raised(was: int)
    | Dropped(was: int)

  datatype Notice = FoundNew(item: Item) | PriceDrop(item: Item, was: int)

  /** linkTaskItem: insert, or only update the rank. */
  function Linked(links: Links, id: SourceId, rank: int, at: int): Links {
    links[id := if id in links then Link(links[id].createdAt, rank) else Link(at, rank)]
  }

  predicate Blank(it: Item) {
    AllSpace(it.sourceId)
  }

  predicate HasLinkRow(b: Book, id: SourceId) {
    id in b.prices && id in b.links
  }

  /** The state of the loop: the book and the time of the last known item, zero before there is one. */
  datatype Walk = Walk(book: Book, anchor: int)

  function LinkTime(w: Walk, time: int): int {
    if w.anchor != ZERO_TIME then w.anchor else time
  }

  function OutcomeOf(w: Walk, time: int, it: Item): Outcome {
    var b, id := w.book, it.sourceId;
    if Blank(it) then Skipped
    else if id !in b.cache then (if LinkTime(w, time) == time then NewAtHead else NewBehind(w.anchor))
    else if it.price == b.cache[id] then (if id in b.prices then Unchanged else NoItemRow)
    else if it.price < b.cache[id] then Dropped(b.cache[id])
    else Raised(b.cache[id])
  }

  function Visit(w: Walk, time: int, touchTime: int, rank: int, it: Item): Walk {
    var b, id := w.book, it.sourceId;
    if Blank(it) then w
    else if id !in b.cache then
      Walk(Book(b.cache[id := it.price], b.prices[id := it.price], Linked(b.links, id, rank, LinkTime(w, time))), w.anchor)
    else
      var anchor := if HasLinkRow(b, id) then b.links[id].createdAt else w.anchor;
      if it.price == b.cache[id] then
        Walk(if id in b.prices then b.(links := Linked(b.links, id, rank, time)) else b, anchor)
      else
        var links := Linked(b.links, id, rank, time);
        Walk(Book(b.cache[id := it.price], b.prices[id := it.price],
                  if it.price < b.cache[id] then links[id := links[id].(createdAt := touchTime)] else links),
             anchor)
  }

  predicate Timed(batch: Batch) {
    |batch.touchTimes| == |batch.items|
  }

  /** The loop after its first `n` items. */
  function After(b: Book, batch: Batch, n: nat): Walk
    requires Timed(batch) && n <= |batch.items|
  {
    if n == 0 then Walk(b, ZERO_TIME)
    else Visit(After(b, batch, n - 1), batch.time, batch.touchTimes[n - 1], n, batch.items[n - 1])
  }

  lemma AfterStep(b: Book, batch: Batch, i: nat)
    requires Timed(batch) && i < |batch.items|
    ensures After(b, batch, i + 1) ==
              Visit(After(b, batch, i), batch.time, batch.touchTimes[i], i + 1, batch.items[i])
    ensures NoticesUpTo(b, batch, i + 1) ==
              NoticesUpTo(b, batch, i) + NoticeFor(batch.items[i], OutcomeOf(After(b, batch, i), batch.time, batch.items[i]))
  {
  }

  function OutcomeAt(b: Book, batch: Batch, i: nat): Outcome
    requires Timed(batch) && i < |batch.items|
  {
    OutcomeOf(After(b, batch, i), batch.time, batch.items[i])
  }

  function NoticeFor(it: Item, o: Outcome): seq<Notice> {
    match o
    case NewAtHead => [FoundNew(it)]
    case Dropped(was) => [PriceDrop(it, was)]
    case _ => []
  }

  /** The notices of the first `n` items, if the user is to be notified. */
  function NoticesUpTo(b: Book, batch: Batch, n: nat): seq<Notice>
    requires Timed(batch) && n <= |batch.items|
  {
    if n == 0 then []
    else NoticesUpTo(b, batch, n - 1) + NoticeFor(batch.items[n - 1], OutcomeAt(b, batch, n - 1))
  }

  lemma NoticesStep(before: seq<Notice>, b: Book, batch: Batch, i: nat)
    requires Timed(batch) && i < |batch.items|
    ensures before + NoticesUpTo(b, batch, i + 1) ==
              before + NoticesUpTo(b, batch, i) + NoticeFor(batch.items[i], OutcomeAt(b, batch, i))
  {
    AfterStep(b, batch, i);
  }

  /** The book after the whole batch and the clean-up. */
  ghost function Processed(b: Book, batch: Batch, cap: int): Book
    requires Timed(batch)
  {
    var done := After(b, batch, |batch.items|).book;
    done.(links := Cleaned(done.links, cap))
  }

  /** One task's tables, updated in place as processItems does. */
  class TaskBook {
    var cache: map<SourceId, int>
    var prices: map<SourceId, int>
    var links: Links
    var sent: seq<Notice>

    function View(): Book
      reads this
    {
      Book(cache, prices, links)
    }

    constructor ()
      ensures View() == NEW_BOOK && sent == []
    {
      cache, prices, links, sent := map[], map[], map[], [];
    }

    method LinkTaskItem(id: SourceId, rank: int, at: int)
      modifies this`links
      ensures links == Linked(old(links), id, rank, at)
    {
      if id in links {
        links := links[id := links[id].(rank := rank)];
      } else {
        links := links[id := Link(at, rank)];
      }
    }

    /** The body of the loop for one item; `anchor` is what lastKnownTime becomes. */
    method ProcessOne(it: Item, rank: int, time: int, touchTime: int, lastKnown: int, notify: bool) returns (anchor: int)
      modifies this
      ensures Walk(View(), anchor) == Visit(Walk(old(View()), lastKnown), time, touchTime, rank, it)
      ensures sent == old(sent) + if notify then NoticeFor(it, OutcomeOf(Walk(old(View()), lastKnown), time, it)) else []
    {
      anchor := lastKnown;
      var id := it.sourceId;
      TrimmedAway(id);
      if TrimSpace(id) == "" {
        return;
      }
      if id !in cache {
        var linkTime := if lastKnown != ZERO_TIME then lastKnown else time;
        prices := prices[id := it.price];
        cache := cache[id := it.price];
        LinkTaskItem(id, rank, linkTime);
        if linkTime == time && notify {
          sent := sent + [FoundNew(it)];
        }
        return;
      }
      if id in prices && id in links {
        anchor := links[id].createdAt;
      }
      var oldPrice := cache[id];
      if it.price == oldPrice {
        if id in prices {
          LinkTaskItem(id, rank, time);
        }
        return;
      }
      prices := prices[id := it.price];
      LinkTaskItem(id, rank, time);
      cache := cache[id := it.price];
      if it.price < oldPrice {
        links := links[id := links[id].(createdAt := touchTime)];
        if notify {
          sent := sent + [PriceDrop(it, oldPrice)];
        }
      }
    }

    /** One turn of the loop, `start` being the book before the first. */
    method WalkOne(ghost start: Book, batch: Batch, i: nat, lastKnown: int, notify: bool) returns (anchor: int)
      requires Timed(batch) && i < |batch.items| && Walk(View(), lastKnown) == After(start, batch, i)
      modifies this
      ensures Walk(View(), anchor) == After(start, batch, i + 1)
      ensures sent == old(sent) + if notify then NoticeFor(batch.items[i], OutcomeAt(start, batch, i)) else []
    {
      AfterStep(start, batch, i);
      anchor := ProcessOne(batch.items[i], i + 1, batch.time, batch.touchTimes[i], lastKnown, notify);
    }

    /** The loop over the batch. */
    method WalkItems(batch: Batch, notify: bool)
      requires Timed(batch)
      modifies this
      ensures View() == After(old(View()), batch, |batch.items|).book
      ensures sent == old(sent) + if notify then NoticesUpTo(old(View()), batch, |batch.items|) else []
    {
      ghost var start, before := View(), sent;
      var lastKnown := ZERO_TIME;
      var i := 0;
      while i < |batch.items|
        invariant 0 <= i <= |batch.items|
        invariant Walk(View(), lastKnown) == After(start, batch, i)
        invariant sent == before + if notify then NoticesUpTo(start, batch, i) else []
      {
        lastKnown := WalkOne(start, batch, i, lastKnown, notify);
        NoticesStep(before, start, batch, i);
        i := i + 1;
      }
    }

    method ProcessItems(batch: Batch, notify: bool, cap: int)
      requires Timed(batch)
      modifies this
      ensures View() == Processed(old(View()), batch, cap)
      ensures sent == old(sent) + if notify then NoticesUpTo(old(View()), batch, |batch.items|) else []
    {
      WalkItems(batch, notify);
      links := CleanupOldItems(links, cap);
    }
  }
}
