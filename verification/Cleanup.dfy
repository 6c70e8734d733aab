/**
The task's link rows and the clean-up that caps them: rows are ordered newest first, the time of the first row
beyond the cap becomes the cutoff, and every row not newer than the cutoff is deleted.
*/
module Cleanup {

  type SourceId = string

  /** A task_items row: when the task first saw the item, and the item's place in the latest batch. */
  datatype Link = Link(createdAt: int, rank: int)

  type Links = map<SourceId, Link>

  /** Go's zero time. */
  const ZERO_TIME := 0

  /** ORDER BY created_at DESC, rank ASC: `a` may stand in front of `b`. */
  predicate NotBehind(a: Link, b: Link) {
    a.createdAt > b.createdAt || (a.createdAt == b.createdAt && a.rank <= b.rank)
  }

  predicate Sorted(order: seq<SourceId>, links: Links) {
    && (forall i :: 0 <= i < |order| ==> order[i] in links)
    && forall i, j :: 0 <= i < j < |order| ==> NotBehind(links[order[i]], links[order[j]])
  }

  predicate NoRepeats(order: seq<SourceId>) {
    forall i, j :: 0 <= i < j < |order| ==> order[i] != order[j]
  }

  /** `order` is a possible answer to the ordered query over all rows; ties may come in any order. */
  predicate IsOrdering(order: seq<SourceId>, links: Links) {
    Sorted(order, links) && NoRepeats(order) && forall id :: id in links ==> id in order
  }

  /** Deletes the rows with created_at <= cutoff. */
  function NewerThan(links: Links, cutoff: int): Links {
    map id | id in links && links[id].createdAt > cutoff :: links[id]
  }

  // ---------------------------------------------------------------- the ordered query

  /** Puts `id` in front of the first row it may stand in front of. */
  function Insert(order: seq<SourceId>, links: Links, id: SourceId): seq<SourceId>
    requires id in links && forall i :: 0 <= i < |order| ==> order[i] in links
  {
    if order == [] then [id]
    else if NotBehind(links[id], links[order[0]]) then [id] + order
    else [order[0]] + Insert(order[1..], links, id)
  }

  lemma {:induction false} InsertAdds(order: seq<SourceId>, links: Links, id: SourceId)
    requires id in links && forall i :: 0 <= i < |order| ==> order[i] in links
    ensures multiset(Insert(order, links, id)) == multiset(order) + multiset{id}
  {
    if order != [] {
      assert order == [order[0]] + order[1..];
      if !NotBehind(links[id], links[order[0]]) {
        InsertAdds(order[1..], links, id);
      }
    }
  }

  lemma ConsSorted(head: SourceId, rest: seq<SourceId>, links: Links)
    requires Sorted(rest, links) && head in links
    requires forall id :: id in rest ==> id in links && NotBehind(links[head], links[id])
    ensures Sorted([head] + rest, links)
  {
    var all := [head] + rest;
    forall i, j | 0 <= i < j < |all|
      ensures all[i] in links && all[j] in links && NotBehind(links[all[i]], links[all[j]])
    {
      assert all[j] == rest[j - 1];
      assert i > 0 ==> all[i] == rest[i - 1];
    }
  }

  lemma {:induction false} InsertSorts(order: seq<SourceId>, links: Links, id: SourceId)
    requires id in links && Sorted(order, links)
    ensures Sorted(Insert(order, links, id), links)
  {
    if order != [] {
      if NotBehind(links[id], links[order[0]]) {
        assert forall i :: 0 < i < |order| ==> NotBehind(links[order[0]], links[order[i]]);
        ConsSorted(id, order, links);
      } else {
        InsertSorts(order[1..], links, id);
        InsertAdds(order[1..], links, id);
        var rest := Insert(order[1..], links, id);
        forall x | x in rest
          ensures NotBehind(links[order[0]], links[x])
        {
          assert x in multiset(rest);
          assert x == id || x in order[1..];
        }
        ConsSorted(order[0], rest, links);
      }
    }
  }

  /** The query, row by row; any order of visiting the rows gives an ordering. */
  method NewestFirst(links: Links) returns (order: seq<SourceId>)
    ensures IsOrdering(order, links)
    ensures |order| == |links|
  {
    order := [];
    var rest := links.Keys;
    while rest != {}
      invariant rest <= links.Keys && Sorted(order, links)
      invariant multiset(order) == multiset(links.Keys - rest)
    {
      var id :| id in rest;
      InsertSorts(order, links, id);
      InsertAdds(order, links, id);
      order := Insert(order, links, id);
      assert links.Keys - (rest - {id}) == (links.Keys - rest) + {id};
      rest := rest - {id};
    }
    assert links.Keys - rest == links.Keys;
    AllOnce(order, links.Keys);
  }

  lemma AllOnce(order: seq<SourceId>, ids: set<SourceId>)
    requires multiset(order) == multiset(ids)
    ensures NoRepeats(order) && |order| == |ids| && forall id :: id in ids <==> id in order
  {
    forall i, j | 0 <= i < j < |order|
      ensures order[i] != order[j]
    {
      assert order == order[..j] + order[j..];
      assert order[..j][i] == order[i] && order[j..][0] == order[j];
      assert multiset(order) == multiset(order[..j]) + multiset(order[j..]);
      assert multiset(order)[order[j]] <= 1 && multiset(order[j..])[order[j]] >= 1;
    }
    assert |multiset(order)| == |order| && |multiset(ids)| == |ids|;
    assert forall id :: id in order <==> id in multiset(order);
  }

  lemma {:induction false} OrderingExists(links: Links)
    ensures exists order :: IsOrdering(order, links)
  {
    var order := BuildOrdering(links.Keys, links);
    AllOnce(order, links.Keys);
    assert IsOrdering(order, links);
  }

  lemma {:induction false} BuildOrdering(ids: set<SourceId>, links: Links) returns (order: seq<SourceId>)
    requires ids <= links.Keys
    ensures Sorted(order, links) && multiset(order) == multiset(ids)
    decreases |ids|
  {
    if ids == {} {
      order := [];
    } else {
      var id :| id in ids;
      var shorter := BuildOrdering(ids - {id}, links);
      InsertSorts(shorter, links, id);
      InsertAdds(shorter, links, id);
      order := Insert(shorter, links, id);
      assert ids == (ids - {id}) + {id};
    }
  }

  // ---------------------------------------------------------------- the clean-up

  ghost function SomeOrdering(links: Links): (order: seq<SourceId>)
    ensures IsOrdering(order, links) && |order| == |links|
  {
    OrderingExists(links);
    var order :| IsOrdering(order, links);
    OrderingLength(order, links);
    order
  }

  lemma OrderingLength(order: seq<SourceId>, links: Links)
    requires IsOrdering(order, links)
    ensures |order| == |links|
  {
    FrontSize(order, |order|);
    assert Front(order, |order|) == links.Keys;
  }

  /** The ids on the first `n` places. */
  function Front(order: seq<SourceId>, n: nat): set<SourceId>
    requires n <= |order|
  {
    set i | 0 <= i < n :: order[i]
  }

  lemma {:induction false} FrontSize(order: seq<SourceId>, n: nat)
    requires n <= |order| && NoRepeats(order)
    ensures |Front(order, n)| == n
  {
    if n > 0 {
      FrontSize(order, n - 1);
      assert Front(order, n) == Front(order, n - 1) + {order[n - 1]};
      assert order[n - 1] !in Front(order, n - 1);
    }
  }

  /** The rows that stay after a clean-up with this cap; a cap of zero or less switches it off. */
  ghost function Cleaned(links: Links, cap: int): Links {
    if cap <= 0 || |links| <= cap then links
    else
      var cutoff := links[SomeOrdering(links)[cap]].createdAt;
      if cutoff == ZERO_TIME then links else NewerThan(links, cutoff)
  }

  /** The time at a given place is the same in every ordering, so ties do not matter. */
  lemma SameCutoff(a: seq<SourceId>, b: seq<SourceId>, links: Links, k: nat)
    requires IsOrdering(a, links) && IsOrdering(b, links) && k < |links|
    ensures |a| == |b| == |links| && links[a[k]].createdAt == links[b[k]].createdAt
  {
    OrderingLength(a, links);
    OrderingLength(b, links);
    AtMostAhead(a, b, links, k);
    AtMostAhead(b, a, links, k);
  }

  /** At most `k` rows are newer than the one at place `k` of `b`, but `k + 1` rows are not older than `a[k]`. */
  lemma AtMostAhead(a: seq<SourceId>, b: seq<SourceId>, links: Links, k: nat)
    requires IsOrdering(a, links) && IsOrdering(b, links) && k < |a| && k < |b|
    ensures links[a[k]].createdAt <= links[b[k]].createdAt
  {
    FrontSize(a, k + 1);
    FrontSize(b, k);
    if links[a[k]].createdAt > links[b[k]].createdAt {
      forall id | id in Front(a, k + 1)
        ensures id in Front(b, k)
      {
        var i :| 0 <= i <= k && a[i] == id;
        assert links[id].createdAt >= links[a[k]].createdAt;
        var j :| 0 <= j < |b| && b[j] == id;
        assert j < k;
      }
      SubsetSize(Front(a, k + 1), Front(b, k));
    }
  }

  lemma {:induction false} SubsetSize(a: set<SourceId>, b: set<SourceId>)
    requires a <= b
    ensures |a| <= |b|
  {
    if a != {} {
      var x :| x in a;
      SubsetSize(a - {x}, b - {x});
    }
  }

  /** The rows newer than the one at place `cap` stand in front of it. */
  lemma NewerStandInFront(order: seq<SourceId>, links: Links, cap: nat)
    requires IsOrdering(order, links) && cap < |order|
    ensures NewerThan(links, links[order[cap]].createdAt).Keys <= Front(order, cap)
  {
    var kept := NewerThan(links, links[order[cap]].createdAt);
    forall id | id in kept
      ensures id in Front(order, cap)
    {
      var j :| 0 <= j < |order| && order[j] == id;
      assert j < cap;
    }
  }

  lemma KeptCount(order: seq<SourceId>, links: Links, cap: nat)
    requires IsOrdering(order, links) && 0 < cap < |order|
    ensures var kept := NewerThan(links, links[order[cap]].createdAt);
            |kept| <= cap && (|kept| == cap <==> links[order[cap - 1]].createdAt != links[order[cap]].createdAt)
  {
    var kept, front := NewerThan(links, links[order[cap]].createdAt).Keys, Front(order, cap);
    FrontSize(order, cap);
    NewerStandInFront(order, links, cap);
    SubsetSize(kept, front);
    var last := order[cap - 1];
    assert last in front;
    assert NotBehind(links[order[cap - 1]], links[order[cap]]);
    if links[last].createdAt == links[order[cap]].createdAt {
      SubsetSize(kept, front - {last});
    } else {
      forall id | id in front
        ensures id in kept
      {
        var j :| 0 <= j < cap && order[j] == id;
        assert j == cap - 1 || NotBehind(links[order[j]], links[order[cap - 1]]);
      }
      assert kept == front;
    }
  }

  /**
  Clean-up respects the cap and recency: at most `cap` rows stay, each strictly newer than each deleted row. When
  rows had to go, those stay that are newer than the row at place `cap` of any ordering, and they are exactly `cap`
  many if and only if the cap-th and the next newest times differ.
  */
  lemma CleanupKeepsTheNewest(links: Links, cap: int, order: seq<SourceId>)
    requires cap > 0 && IsOrdering(order, links)
    requires forall id :: id in links ==> links[id].createdAt != ZERO_TIME
    ensures var kept := Cleaned(links, cap);
            && |kept| <= cap
            && (forall id :: id in kept ==> id in links && kept[id] == links[id])
            && (forall k, d :: k in kept && d in links && d !in kept ==> links[k].createdAt > links[d].createdAt)
            && (|links| <= cap ==> kept == links)
            && (|links| > cap ==>
                  && |order| == |links|
                  && (forall id :: id in kept <==> id in links && links[id].createdAt > links[order[cap]].createdAt)
                  && (|kept| == cap <==> links[order[cap - 1]].createdAt != links[order[cap]].createdAt))
  {
    if |links| > cap {
      SameCutoff(order, SomeOrdering(links), links, cap);
      KeptCount(order, links, cap);
    }
  }

  /** Nothing at all stays if and only if the newest time is shared by more rows than the cap allows. */
  lemma NothingStaysExactly(links: Links, cap: int, order: seq<SourceId>)
    requires cap > 0 && IsOrdering(order, links) && links != map[]
    requires forall id :: id in links ==> links[id].createdAt != ZERO_TIME
    ensures |order| == |links|
    ensures Cleaned(links, cap) == map[] <==>
              |links| > cap && links[order[0]].createdAt == links[order[cap]].createdAt
  {
    OrderingLength(order, links);
    if |links| > cap {
      SameCutoff(order, SomeOrdering(links), links, cap);
      var cutoff := links[order[cap]].createdAt;
      assert NotBehind(links[order[0]], links[order[cap]]);
      if links[order[0]].createdAt > cutoff {
        assert order[0] in NewerThan(links, cutoff);
      } else {
        forall id | id in links
          ensures links[id].createdAt <= cutoff
        {
          var j :| 0 <= j < |order| && order[j] == id;
          assert j > 0 ==> NotBehind(links[order[0]], links[order[j]]);
        }
        assert NewerThan(links, cutoff) == map[];
      }
    }
  }

  /** The whole method: count, find the cutoff by the ordered query, delete. */
  method CleanupOldItems(links: Links, cap: int) returns (kept: Links)
    ensures kept == Cleaned(links, cap)
  {
    if cap <= 0 {
      return links;
    }
    if |links| <= cap {
      return links;
    }
    var order := NewestFirst(links);
    var cutoff := links[order[cap]].createdAt;
    SameCutoff(order, SomeOrdering(links), links, cap);
    if cutoff == ZERO_TIME {
      return links;
    }
    return NewerThan(links, cutoff);
  }
}
