/**
De-duplication of the task list: which entries stay, in which order, and when that is the order of the first entries.
*/
module QueueDedup {
  import opened TaskText
  import opened QueueStore

  // ---------------------------------------------------------------- what de-duplication should keep

  /** The first entry of every id not in `seen`, and every entry without a readable id. */
  function Kept(s: seq<Entry>, seen: set<Id>): seq<Entry> {
    if s == [] then []
    else if s[0].taskId == "" then [s[0]] + Kept(s[1..], seen)
    else if s[0].taskId in seen then Kept(s[1..], seen)
    else [s[0]] + Kept(s[1..], seen + {s[0].taskId})
  }

  function Repeats(s: seq<Entry>, seen: set<Id>): seq<Entry> {
    if s == [] then []
    else if s[0].taskId == "" then Repeats(s[1..], seen)
    else if s[0].taskId in seen then [s[0]] + Repeats(s[1..], seen)
    else Repeats(s[1..], seen + {s[0].taskId})
  }

  lemma {:induction false} KeptAndRepeats(s: seq<Entry>, seen: set<Id>)
    ensures multiset(Kept(s, seen)) + multiset(Repeats(s, seen)) == multiset(s)
    ensures |Kept(s, seen)| + |Repeats(s, seen)| == |s|
  {
    if s != [] {
      assert s == [s[0]] + s[1..];
      KeptAndRepeats(s[1..], if s[0].taskId == "" then seen else seen + {s[0].taskId});
      if s[0].taskId in seen {
        assert seen + {s[0].taskId} == seen;
      }
    }
  }

  /** The kept entry of an id is the first one of the original list, and it occurs once. */
  lemma {:induction false} KeptIsFirstOfEach(s: seq<Entry>, seen: set<Id>, id: Id)
    requires id != "" && "" !in seen
    ensures id in seen ==> Ids(Kept(s, seen))[id] == 0
    ensures id !in seen ==> FirstWithId(Kept(s, seen), id) == FirstWithId(s, id)
    ensures id !in seen ==> Ids(Kept(s, seen))[id] == if id in Ids(s) then 1 else 0
  {
    if s != [] {
      var e := s[0];
      if e.taskId != "" && e.taskId in seen {
        KeptIsFirstOfEach(s[1..], seen, id);
      } else {
        var rest := Kept(s[1..], if e.taskId == "" then seen else seen + {e.taskId});
        KeptIsFirstOfEach(s[1..], if e.taskId == "" then seen else seen + {e.taskId}, id);
        assert Kept(s, seen) == [e] + rest && ([e] + rest)[1..] == rest;
      }
    }
  }

  lemma {:induction false} KeptHasAllUnreadable(s: seq<Entry>, seen: set<Id>, e: Entry)
    requires e.taskId == ""
    ensures multiset(Kept(s, seen))[e] == multiset(s)[e]
  {
    if s != [] {
      assert s == [s[0]] + s[1..];
      KeptHasAllUnreadable(s[1..], if s[0].taskId == "" || s[0].taskId in seen then seen else seen + {s[0].taskId}, e);
    }
  }

  // ---------------------------------------------------------------- what LREM leaves, in order

  /** The list without the leading copies of each value, as many as `m` holds. */
  function Drop(s: seq<Entry>, m: multiset<Entry>): seq<Entry> {
    if s == [] then []
    else if s[0] in m then Drop(s[1..], m - multiset{s[0]})
    else [s[0]] + Drop(s[1..], m)
  }

  lemma {:induction false} DropNothing(s: seq<Entry>)
    ensures Drop(s, multiset{}) == s
  {
    if s != [] {
      DropNothing(s[1..]);
    }
  }

  /** Deleting one copy by LREM is part of the job. */
  lemma {:induction false} DropAfterRemove(s: seq<Entry>, e: Entry, m: multiset<Entry>)
    requires e in s
    ensures Drop(RemoveFirst(s, e), m) == Drop(s, m + multiset{e})
  {
    if s[0] == e {
      assert m + multiset{e} - multiset{e} == m;
    } else {
      var less := if s[0] in m then m - multiset{s[0]} else m;
      DropAfterRemove(s[1..], e, less);
      assert RemoveFirst(s, e)[1..] == RemoveFirst(s[1..], e);
      assert s[0] in m ==> m + multiset{e} - multiset{s[0]} == less + multiset{e};
    }
  }

  lemma {:induction false} DropConcat(a: seq<Entry>, b: seq<Entry>, m: multiset<Entry>)
    ensures Drop(a + b, m) == Drop(a, m) + Drop(b, m - multiset(a))
  {
    if a == [] {
      assert a + b == b && m - multiset(a) == m;
    } else {
      var less := if a[0] in m then m - multiset{a[0]} else m;
      assert a == [a[0]] + a[1..];
      assert (a + b)[1..] == a[1..] + b;
      DropConcat(a[1..], b, less);
      assert less - multiset(a[1..]) == m - multiset(a);
    }
  }

  lemma {:induction false} DropsAll(s: seq<Entry>, m: multiset<Entry>)
    ensures Drop(s, m) == [] <==> multiset(s) <= m
  {
    if s != [] {
      assert s == [s[0]] + s[1..];
      if s[0] in m {
        DropsAll(s[1..], m - multiset{s[0]});
      } else {
        assert multiset(s)[s[0]] > m[s[0]];
      }
    }
  }

  lemma {:induction false} DropLeavesNone(s: seq<Entry>, m: multiset<Entry>, e: Entry)
    requires multiset(s)[e] <= m[e]
    ensures e !in Drop(s, m)
  {
    if s != [] {
      assert s == [s[0]] + s[1..];
      DropLeavesNone(s[1..], if s[0] in m then m - multiset{s[0]} else m, e);
    }
  }

  lemma {:induction false} DropIgnoresSurplus(s: seq<Entry>, m: multiset<Entry>, e: Entry)
    requires multiset(s)[e] < m[e]
    ensures Drop(s, m) == Drop(s, m - multiset{e})
  {
    if s != [] {
      var less := if s[0] in m then m - multiset{s[0]} else m;
      assert s == [s[0]] + s[1..];
      DropIgnoresSurplus(s[1..], less, e);
      assert s[0] in m ==> m - multiset{e} - multiset{s[0]} == less - multiset{e};
    }
  }

  /** With one copy fewer to drop, the last copy stays, in its own place. */
  lemma LastCopyStays(front: seq<Entry>, e: Entry, back: seq<Entry>, m: multiset<Entry>)
    requires m[e] == multiset(front)[e] + 1
    ensures var rest := Drop(back, m - multiset(front) - multiset{e});
            && Drop(front + [e] + back, m) == Drop(front, m) + rest
            && Drop(front + [e] + back, m - multiset{e}) == Drop(front, m) + [e] + rest
  {
    var tail := [e] + back;
    assert front + [e] + back == front + tail && tail[1..] == back;
    DropConcat(front, tail, m);
    DropConcat(front, tail, m - multiset{e});
    DropIgnoresSurplus(front, m, e);
    assert m - multiset{e} - multiset(front) == m - multiset(front) - multiset{e};
  }

  // ---------------------------------------------------------------- when the survivors are in order

  /** Place `p` holds a first entry of an id not in `seen`, or an unreadable one. */
  predicate KeptAt(s: seq<Entry>, seen: set<Id>, p: nat)
    requires p < |s|
  {
    s[p].taskId == "" || (s[p].taskId !in seen && forall q :: 0 <= q < p ==> s[q].taskId != s[p].taskId)
  }

  function LastOf(s: seq<Entry>, e: Entry): (q: nat)
    requires e in s
    ensures q < |s| && s[q] == e && forall k :: q < k < |s| ==> s[k] != e
  {
    if s[|s| - 1] == e then |s| - 1 else LastOf(s[..|s| - 1], e)
  }

  /** The last place with the same entry; an unreadable entry is never deleted and stands for itself. */
  function LastCopy(s: seq<Entry>, p: nat): nat
    requires p < |s|
  {
    if s[p].taskId == "" then p else LastOf(s, s[p])
  }

  /** Of any two entries to keep, the earlier one also has the earlier last copy. */
  predicate OrderKept(s: seq<Entry>, seen: set<Id>) {
    forall p, q :: 0 <= p < q < |s| && KeptAt(s, seen, p) && KeptAt(s, seen, q) ==> LastCopy(s, p) < LastCopy(s, q)
  }

  function Seen(seen: set<Id>, e: Entry): set<Id> {
    if e.taskId == "" then seen else seen + {e.taskId}
  }

  lemma PlacesShift(s: seq<Entry>, seen: set<Id>, p: nat)
    requires p + 1 < |s| && "" !in seen
    ensures KeptAt(s, seen, p + 1) <==> KeptAt(s[1..], Seen(seen, s[0]), p)
    ensures LastCopy(s, p + 1) == LastCopy(s[1..], p) + 1
  {
    assert s[1..][p] == s[p + 1];
    assert forall q :: 0 <= q < p ==> s[1..][q] == s[q + 1];
    if s[p + 1].taskId != "" {
      var k, l := LastOf(s, s[p + 1]), LastOf(s[1..], s[p + 1]);
      assert s[l + 1] == s[1..][l];
      assert k > 0 && s[1..][k - 1] == s[k];
    }
  }

  lemma {:induction false} KeptPlace(s: seq<Entry>, seen: set<Id>, e: Entry) returns (p: nat)
    requires e in Kept(s, seen) && "" !in seen
    ensures p < |s| && s[p] == e && KeptAt(s, seen, p)
  {
    if KeptAt(s, seen, 0) && s[0] == e {
      p := 0;
    } else {
      assert s[0].taskId in seen ==> Seen(seen, s[0]) == seen;
      p := KeptPlace(s[1..], Seen(seen, s[0]), e);
      PlacesShift(s, seen, p);
      p := p + 1;
    }
  }

  lemma {:induction false} PlaceIsKept(s: seq<Entry>, seen: set<Id>, p: nat)
    requires p < |s| && KeptAt(s, seen, p) && "" !in seen
    ensures s[p] in Kept(s, seen)
  {
    if p > 0 {
      PlacesShift(s, seen, p - 1);
      PlaceIsKept(s[1..], Seen(seen, s[0]), p - 1);
      assert s[0].taskId in seen ==> Seen(seen, s[0]) == seen;
    }
  }

  lemma {:induction false} CopiesShareId(s: seq<Entry>, e: Entry)
    ensures multiset(s)[e] <= Ids(s)[e.taskId]
  {
    if s != [] {
      assert s == [s[0]] + s[1..];
      CopiesShareId(s[1..], e);
    }
  }

  /** How many copies of an entry are to be dropped: none if unreadable, else all, but one if it is to be kept. */
  lemma RepeatCount(s: seq<Entry>, seen: set<Id>, e: Entry)
    requires "" !in seen
    ensures var m := multiset(Repeats(s, seen));
            if e.taskId == "" then m[e] == 0
            else m[e] + (if e in Kept(s, seen) then 1 else 0) == multiset(s)[e]
    ensures e.taskId in seen ==> e !in Kept(s, seen)
  {
    KeptAndRepeats(s, seen);
    assert multiset(s)[e] == multiset(Kept(s, seen))[e] + multiset(Repeats(s, seen))[e];
    if e.taskId == "" {
      KeptHasAllUnreadable(s, seen, e);
    } else {
      KeptIsFirstOfEach(s, seen, e.taskId);
      CopiesShareId(Kept(s, seen), e);
    }
  }

  /** Nothing of the first `j` entries survives exactly when every entry to keep has its last copy behind them. */
  lemma FrontIsDropped(s: seq<Entry>, seen: set<Id>, j: nat)
    requires "" !in seen && j <= |s|
    ensures multiset(s[..j]) <= multiset(Repeats(s, seen)) <==>
              forall p :: 0 <= p < |s| && KeptAt(s, seen, p) ==> LastCopy(s, p) >= j
  {
    var front, back, m := s[..j], s[j..], multiset(Repeats(s, seen));
    assert s == front + back;
    if p :| 0 <= p < |s| && KeptAt(s, seen, p) && LastCopy(s, p) < j {
      FrontSurvivor(s, seen, j, p);
    }
    if !(multiset(front) <= m) {
      var e :| multiset(front)[e] > m[e];
      var p := SurvivorPlace(s, seen, j, e);
    }
  }

  lemma FrontSurvivor(s: seq<Entry>, seen: set<Id>, j: nat, p: nat)
    requires "" !in seen && j <= |s| && p < |s| && KeptAt(s, seen, p) && LastCopy(s, p) < j
    ensures multiset(s[..j])[s[p]] > multiset(Repeats(s, seen))[s[p]]
  {
    assert s == s[..j] + s[j..];
    RepeatCount(s, seen, s[p]);
    PlaceIsKept(s, seen, p);
    if s[p].taskId == "" {
      assert s[..j][p] == s[p];
    } else {
      assert s[p] !in s[j..];
    }
  }

  lemma SurvivorPlace(s: seq<Entry>, seen: set<Id>, j: nat, e: Entry) returns (p: nat)
    requires "" !in seen && j <= |s| && multiset(s[..j])[e] > multiset(Repeats(s, seen))[e]
    ensures p < |s| && KeptAt(s, seen, p) && LastCopy(s, p) < j
  {
    assert s == s[..j] + s[j..];
    RepeatCount(s, seen, e);
    assert e in s[..j];
    if e.taskId == "" {
      p :| 0 <= p < j && s[..j][p] == e;
    } else {
      p := KeptPlace(s, seen, e);
      assert e !in s[j..];
    }
  }

  /** The first entry's part of the order condition. */
  predicate HeadInOrder(s: seq<Entry>, seen: set<Id>)
    requires s != []
  {
    var rest, seen' := s[1..], Seen(seen, s[0]);
    KeptAt(s, seen, 0) ==>
      forall q :: 0 <= q < |rest| && KeptAt(rest, seen', q) ==> LastCopy(s, 0) <= LastCopy(rest, q)
  }

  /** The order condition, split into the first entry against the rest and the rest among themselves. */
  lemma OrderKeptUnfolds(s: seq<Entry>, seen: set<Id>)
    requires s != [] && "" !in seen
    ensures OrderKept(s, seen) <==> OrderKept(s[1..], Seen(seen, s[0])) && HeadInOrder(s, seen)
  {
    forall p | 0 <= p < |s| - 1
      ensures KeptAt(s, seen, p + 1) <==> KeptAt(s[1..], Seen(seen, s[0]), p)
      ensures LastCopy(s, p + 1) == LastCopy(s[1..], p) + 1
    {
      PlacesShift(s, seen, p);
    }
    if OrderKept(s, seen) {
      forall p, q | 0 <= p < q < |s[1..]| && KeptAt(s[1..], Seen(seen, s[0]), p) && KeptAt(s[1..], Seen(seen, s[0]), q)
        ensures LastCopy(s[1..], p) < LastCopy(s[1..], q)
      {
        assert KeptAt(s, seen, p + 1) && KeptAt(s, seen, q + 1);
      }
      forall q | 0 <= q < |s| - 1 && KeptAt(s, seen, 0) && KeptAt(s[1..], Seen(seen, s[0]), q)
        ensures LastCopy(s, 0) <= LastCopy(s[1..], q)
      {
        assert KeptAt(s, seen, q + 1);
      }
    } else {
      var p, q :| 0 <= p < q < |s| && KeptAt(s, seen, p) && KeptAt(s, seen, q) && LastCopy(s, p) >= LastCopy(s, q);
      assert KeptAt(s[1..], Seen(seen, s[0]), q - 1);
      assert p > 0 ==> KeptAt(s[1..], Seen(seen, s[0]), p - 1);
    }
  }

  lemma HeadFirst(a: seq<Entry>, e: Entry, b: seq<Entry>, kept: seq<Entry>)
    requires e !in a
    ensures a + [e] + b == [e] + kept <==> a == [] && a + b == kept
  {
    if a == [] {
      assert a + [e] + b == [e] + b && a + b == b;
      assert ([e] + b)[1..] == b && ([e] + kept)[1..] == kept;
    } else {
      assert (a + [e] + b)[0] == a[0] && a[0] in a && ([e] + kept)[0] == e;
    }
  }

  /** All copies of an entry seen before are to be dropped, so its last copy closes the list that holds them. */
  lemma CutAtLastCopy(e: Entry, rest: seq<Entry>, seen: set<Id>) returns (front: seq<Entry>, back: seq<Entry>)
    requires e.taskId != "" && e.taskId in seen && "" !in seen && e in rest
    ensures rest == front + [e] + back && front == rest[..LastOf(rest, e)]
    ensures multiset(Repeats(rest, seen))[e] == multiset(front)[e] + 1
  {
    var j := LastOf(rest, e);
    front, back := rest[..j], rest[j + 1..];
    assert rest == front + [e] + back && e !in back;
    RepeatCount(rest, seen, e);
  }

  /** A first entry with a copy further back: it comes first if and only if nothing in front of its last copy survives. */
  lemma RepeatedHead(e: Entry, rest: seq<Entry>, seen: set<Id>)
    requires e.taskId != "" && e.taskId in seen && "" !in seen && e in rest
    ensures var m, j := multiset(Repeats(rest, seen)), LastOf(rest, e);
            Drop(rest, m - multiset{e}) == [e] + Kept(rest, seen) <==>
              multiset(rest[..j]) <= m && Drop(rest, m) == Kept(rest, seen)
  {
    var m := multiset(Repeats(rest, seen));
    var front, back := CutAtLastCopy(e, rest, seen);
    LastCopyStays(front, e, back, m);
    DropsAll(front, m);
    DropLeavesNone(front, m, e);
    HeadFirst(Drop(front, m), e, Drop(back, m - multiset(front) - multiset{e}), Kept(rest, seen));
  }

  /** What the deletions leave of the list. */
  function Survivors(s: seq<Entry>, seen: set<Id>): seq<Entry> {
    Drop(s, multiset(Repeats(s, seen)))
  }

  /** What the first entry contributes to the question of order. */
  ghost predicate StepHolds(s: seq<Entry>, seen: set<Id>)
    requires s != []
  {
    var rest, seen' := s[1..], Seen(seen, s[0]);
    Survivors(s, seen) == Kept(s, seen) <==> Survivors(rest, seen') == Kept(rest, seen') && HeadInOrder(s, seen)
  }

  lemma KnownHead(s: seq<Entry>, seen: set<Id>)
    requires s != [] && s[0].taskId != "" && s[0].taskId in seen
    ensures StepHolds(s, seen)
  {
    assert Seen(seen, s[0]) == seen && !KeptAt(s, seen, 0);
    assert Survivors(s, seen) == Survivors(s[1..], seen) by {
      assert multiset([s[0]] + Repeats(s[1..], seen)) - multiset{s[0]} == multiset(Repeats(s[1..], seen));
    }
  }

  lemma HeadSurvives(s: seq<Entry>, seen: set<Id>)
    requires s != [] && "" !in seen && s[0].taskId !in seen && (s[0].taskId == "" || s[0] !in s[1..])
    ensures var seen' := Seen(seen, s[0]);
            && Survivors(s, seen) == [s[0]] + Survivors(s[1..], seen') && Kept(s, seen) == [s[0]] + Kept(s[1..], seen')
    ensures LastCopy(s, 0) == 0
  {
    RepeatCount(s[1..], Seen(seen, s[0]), s[0]);
  }

  lemma SameTail(e: Entry, x: seq<Entry>, y: seq<Entry>)
    ensures [e] + x == [e] + y <==> x == y
  {
    assert ([e] + x)[1..] == x && ([e] + y)[1..] == y;
  }

  lemma HeadStays(s: seq<Entry>, seen: set<Id>)
    requires s != [] && "" !in seen && s[0].taskId !in seen && (s[0].taskId == "" || s[0] !in s[1..])
    ensures StepHolds(s, seen)
  {
    HeadSurvives(s, seen);
    SameTail(s[0], Survivors(s[1..], Seen(seen, s[0])), Kept(s[1..], Seen(seen, s[0])));
  }

  lemma HeadMoves(s: seq<Entry>, seen: set<Id>)
    requires s != [] && "" !in seen && s[0].taskId !in seen && s[0].taskId != "" && s[0] in s[1..]
    ensures StepHolds(s, seen)
  {
    var e, rest, seen' := s[0], s[1..], Seen(seen, s[0]);
    var j := LastOf(rest, e);
    assert Survivors(s, seen) == Drop(rest, multiset(Repeats(rest, seen')) - multiset{e}) by {
      RepeatCount(rest, seen', e);
    }
    RepeatedHead(e, rest, seen');
    LaterLastCopies(s, seen);
  }

  /** The first entry is in order if and only if nothing in front of its last copy survives. */
  lemma LaterLastCopies(s: seq<Entry>, seen: set<Id>)
    requires s != [] && "" !in seen && s[0].taskId !in seen && s[0].taskId != "" && s[0] in s[1..]
    ensures var rest, seen' := s[1..], Seen(seen, s[0]);
            HeadInOrder(s, seen) <==> multiset(rest[..LastOf(rest, s[0])]) <= multiset(Repeats(rest, seen'))
  {
    var e, rest, seen' := s[0], s[1..], Seen(seen, s[0]);
    var j := LastOf(rest, e);
    FrontIsDropped(rest, seen', j);
    assert s == [e] + rest;
    LastOfTail(e, rest);
    NoKeptAt(rest, seen', j);
  }

  lemma HeadStep(s: seq<Entry>, seen: set<Id>)
    requires s != [] && "" !in seen
    ensures StepHolds(s, seen)
  {
    if s[0].taskId in seen {
      KnownHead(s, seen);
    } else if s[0].taskId == "" || s[0] !in s[1..] {
      HeadStays(s, seen);
    } else {
      HeadMoves(s, seen);
    }
  }

  /**
  The survivors stand in the order of the first entries if and only if, of any two entries to keep, the earlier one
  also has the earlier last copy.
  */
  lemma {:induction false} OrderExactly(s: seq<Entry>, seen: set<Id>)
    requires "" !in seen
    ensures Survivors(s, seen) == Kept(s, seen) <==> OrderKept(s, seen)
  {
    if s != [] {
      OrderExactly(s[1..], Seen(seen, s[0]));
      OrderKeptUnfolds(s, seen);
      HeadStep(s, seen);
    }
  }

  lemma LastOfTail(e: Entry, rest: seq<Entry>)
    requires e in rest
    ensures LastOf([e] + rest, e) == LastOf(rest, e) + 1
  {
    var j := LastOf(rest, e);
    assert ([e] + rest)[j + 1] == e;
    assert forall k :: j + 1 < k < |[e] + rest| ==> ([e] + rest)[k] == rest[k - 1];
  }

  /** The last copy of an entry to keep is not a copy of an entry seen before. */
  lemma NoKeptAt(s: seq<Entry>, seen: set<Id>, j: nat)
    requires j < |s| && s[j].taskId != "" && s[j].taskId in seen
    ensures forall p :: 0 <= p < |s| && KeptAt(s, seen, p) ==> LastCopy(s, p) != j
  {
  }

  /** What the whole second loop leaves: its first `k` deletions are part of dropping all repeats. */
  lemma RemovalStep(s: seq<Entry>, duplicates: seq<Entry>, k: nat)
    requires k < |duplicates| && duplicates[k] in s
    ensures Drop(RemoveFirst(s, duplicates[k]), multiset(duplicates[k + 1..])) == Drop(s, multiset(duplicates[k..]))
  {
    assert duplicates[k..] == [duplicates[k]] + duplicates[k + 1..];
    DropAfterRemove(s, duplicates[k], multiset(duplicates[k + 1..]));
    assert multiset(duplicates[k..]) == multiset(duplicates[k + 1..]) + multiset{duplicates[k]};
  }

  /**
  LREM deletes by value from the head, so although the right entries survive, they may change places. More copies
  may even restore the order.
  */
  lemma DeduplicationMayReorder(a: Entry, b: Entry)
    requires a.taskId != "" && b.taskId != "" && a.taskId != b.taskId
    ensures Kept([a, b, a], {}) == [a, b] && Repeats([a, b, a], {}) == [a]
    ensures RemoveFirst([a, b, a], a) == [b, a] != Kept([a, b, a], {})
    ensures !OrderKept([a, b, a], {}) && OrderKept([a, b, a, b], {})
  {
    var one, two := {a.taskId}, {a.taskId, b.taskId};
    assert {} + {a.taskId} == one && one + {b.taskId} == two;
    assert [a, b, a][1..] == [b, a] && [b, a][1..] == [a] && [a][1..] == [];
    assert Kept([a], two) == Kept([], two) == [] && Repeats([a], two) == [a] + Repeats([], two) == [a];
    assert Kept([b, a], one) == [b] + Kept([a], two) && Repeats([b, a], one) == Repeats([a], two);
    assert [b, a][0] != [a, b][0];
    LastCopiesTell(a, b);
  }

  lemma LastCopiesTell(a: Entry, b: Entry)
    requires a.taskId != "" && b.taskId != "" && a.taskId != b.taskId
    ensures !OrderKept([a, b, a], {}) && OrderKept([a, b, a, b], {})
  {
    var s, t := [a, b, a], [a, b, a, b];
    assert KeptAt(s, {}, 0) && KeptAt(s, {}, 1) && LastCopy(s, 0) == 2 && LastCopy(s, 1) == 1;
    assert t[2] == t[0] && t[3] == t[1] && LastCopy(t, 0) == 2 && LastCopy(t, 1) == 3;
    assert t[0].taskId == t[2].taskId && t[1].taskId == t[3].taskId;
    assert !KeptAt(t, {}, 2) && !KeptAt(t, {}, 3);
  }

  lemma RemoveNextRepeat(s: seq<Entry>, kept: multiset<Entry>, duplicates: seq<Entry>, k: nat)
    requires k < |duplicates| && multiset(s) == kept + multiset(duplicates[k..])
    ensures duplicates[k] in s && |RemoveFirst(s, duplicates[k])| + 1 == |s|
    ensures multiset(RemoveFirst(s, duplicates[k])) == kept + multiset(duplicates[k + 1..])
  {
    var e, rest := duplicates[k], multiset(duplicates[k + 1..]);
    assert duplicates[k..] == [e] + duplicates[k + 1..];
    assert e in multiset(s);
    RemoveFirstDropsOne(s, e);
    RemoveFirstShrinks(s, e);
    assert multiset(RemoveFirst(s, e)) == multiset(s) - multiset{e};
  }

  lemma {:induction false} RemoveFirstShrinks(s: seq<Entry>, e: Entry)
    requires e in s
    ensures |RemoveFirst(s, e)| + 1 == |s|
  {
    if s[0] != e {
      RemoveFirstShrinks(s[1..], e);
    }
  }
}
