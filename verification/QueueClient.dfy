/**
The queue client's methods, run without interference: the scripts' scans and the janitor's loops are written out
and proved against the store operations and against what one whole pass should do.
*/
module QueueClient {
  import opened Decimal
  import opened TaskText
  import opened QueueStore
  import opened QueueDedup

  datatype PushResult = Pushed | TaskExists | EmptyId

  datatype PopResult = Popped(entry: Entry) | NoTask

  // ---------------------------------------------------------------- what a rescue pass should do

  /** The entries a janitor must put back, in list order. */
  function Stuck(s: seq<Entry>, stamps: map<Id, int>, now: int, threshold: int): seq<Entry> {
    if s == [] then []
    else Stuck(s[..|s| - 1], stamps, now, threshold)
         + if Expired(s[|s| - 1], stamps, now, threshold) then [s[|s| - 1]] else []
  }

  /** The entries a janitor must leave alone, in list order. */
  function Alive(s: seq<Entry>, stamps: map<Id, int>, now: int, threshold: int): seq<Entry> {
    if s == [] then []
    else Alive(s[..|s| - 1], stamps, now, threshold)
         + if Expired(s[|s| - 1], stamps, now, threshold) then [] else [s[|s| - 1]]
  }

  function Backwards(s: seq<Entry>): seq<Entry> {
    if s == [] then [] else [s[|s| - 1]] + Backwards(s[..|s| - 1])
  }

  function IdSet(s: seq<Entry>): set<Id> {
    set e | e in s :: e.taskId
  }

  /** Every entry is either put back or left alone, the expired ones and no others being put back. */
  lemma StuckOrAlive(s: seq<Entry>, stamps: map<Id, int>, now: int, threshold: int)
    ensures multiset(Stuck(s, stamps, now, threshold)) + multiset(Alive(s, stamps, now, threshold)) == multiset(s)
    ensures forall e :: e in Stuck(s, stamps, now, threshold) ==> e in s && Expired(e, stamps, now, threshold)
    ensures forall e :: e in Alive(s, stamps, now, threshold) ==> e in s && !Expired(e, stamps, now, threshold)
  {
    Partition(s, stamps, now, threshold);
    StuckIsExpired(s, stamps, now, threshold);
    AliveIsNotExpired(s, stamps, now, threshold);
  }

  lemma {:induction false} Partition(s: seq<Entry>, stamps: map<Id, int>, now: int, threshold: int)
    ensures multiset(Stuck(s, stamps, now, threshold)) + multiset(Alive(s, stamps, now, threshold)) == multiset(s)
  {
    if s != [] {
      var n := |s| - 1;
      Partition(s[..n], stamps, now, threshold);
      assert s == s[..n] + [s[n]];
      Halves(Stuck(s[..n], stamps, now, threshold), Alive(s[..n], stamps, now, threshold), s[..n], s[n]);
    }
  }

  lemma Halves(a: seq<Entry>, b: seq<Entry>, s: seq<Entry>, e: Entry)
    requires multiset(a) + multiset(b) == multiset(s)
    ensures multiset(a + [e]) + multiset(b) == multiset(s + [e]) == multiset(a) + multiset(b + [e])
    ensures a + [] == a && b + [] == b
  {
  }

  lemma {:induction false} StuckIsExpired(s: seq<Entry>, stamps: map<Id, int>, now: int, threshold: int)
    ensures forall e :: e in Stuck(s, stamps, now, threshold) ==> e in s && Expired(e, stamps, now, threshold)
  {
    if s != [] {
      StuckIsExpired(s[..|s| - 1], stamps, now, threshold);
    }
  }

  lemma {:induction false} AliveIsNotExpired(s: seq<Entry>, stamps: map<Id, int>, now: int, threshold: int)
    ensures forall e :: e in Alive(s, stamps, now, threshold) ==> e in s && !Expired(e, stamps, now, threshold)
  {
    if s != [] {
      AliveIsNotExpired(s[..|s| - 1], stamps, now, threshold);
    }
  }

  lemma {:induction false} RemoveBehind(front: seq<Entry>, e: Entry, back: seq<Entry>)
    requires e !in front
    ensures RemoveFirst(front + [e] + back, e) == front + back
  {
    var s := front + [e] + back;
    if front == [] {
      assert s[1..] == back && front + back == back;
    } else {
      assert s[1..] == front[1..] + [e] + back;
      RemoveBehind(front[1..], e, back);
      assert s[0] == front[0];
      assert [front[0]] + (front[1..] + back) == front + back;
    }
  }

  /** What looking at entry `i` does to the two halves of the list. */
  lemma RescueAdvances(s: seq<Entry>, i: nat, stamps: map<Id, int>, now: int, threshold: int)
    requires i < |s|
    ensures var alive, stuck := Alive(s[..i], stamps, now, threshold), Stuck(s[..i], stamps, now, threshold);
            var alive', stuck' := Alive(s[..i + 1], stamps, now, threshold), Stuck(s[..i + 1], stamps, now, threshold);
            if Expired(s[i], stamps, now, threshold) then
              && RemoveFirst(alive + s[i..], s[i]) == alive' + s[i + 1..] && s[i] in alive + s[i..]
              && Backwards(stuck') == [s[i]] + Backwards(stuck)
              && IdSet(stuck') == IdSet(stuck) + {s[i].taskId} && |stuck'| == |stuck| + 1
            else alive' + s[i + 1..] == alive + s[i..] && stuck' == stuck
  {
    var alive, stuck := Alive(s[..i], stamps, now, threshold), Stuck(s[..i], stamps, now, threshold);
    OneMoreEntry(s, i, stamps, now, threshold);
    assert alive + s[i..] == alive + [s[i]] + s[i + 1..];
    if Expired(s[i], stamps, now, threshold) {
      assert s[i] !in alive by {
        AliveIsNotExpired(s[..i], stamps, now, threshold);
      }
      RemoveBehind(alive, s[i], s[i + 1..]);
      OneMoreStuck(stuck, s[i]);
    }
  }

  lemma OneMoreEntry(s: seq<Entry>, i: nat, stamps: map<Id, int>, now: int, threshold: int)
    requires i < |s|
    ensures Alive(s[..i + 1], stamps, now, threshold) ==
              Alive(s[..i], stamps, now, threshold) + if Expired(s[i], stamps, now, threshold) then [] else [s[i]]
    ensures Stuck(s[..i + 1], stamps, now, threshold) ==
              Stuck(s[..i], stamps, now, threshold) + if Expired(s[i], stamps, now, threshold) then [s[i]] else []
  {
    assert s[..i + 1][..i] == s[..i];
  }

  lemma OneMoreStuck(stuck: seq<Entry>, e: Entry)
    ensures Backwards(stuck + [e]) == [e] + Backwards(stuck)
    ensures IdSet(stuck + [e]) == IdSet(stuck) + {e.taskId}
  {
    assert (stuck + [e])[..|stuck|] == stuck;
  }

  /** The store after the janitor looked at the first `i` entries of its snapshot. */
  function Swept(s: Store, stamps: map<Id, int>, now: int, threshold: int, i: nat): Store
    requires i <= |s.processing|
  {
    var stuck := Stuck(s.processing[..i], stamps, now, threshold);
    Store(Backwards(stuck) + s.tasks, Alive(s.processing[..i], stamps, now, threshold) + s.processing[i..],
          s.pending, s.started - IdSet(stuck))
  }

  lemma SweptAdvances(s: Store, stamps: map<Id, int>, now: int, threshold: int, i: nat)
    requires i < |s.processing|
    ensures var before, after := Swept(s, stamps, now, threshold, i), Swept(s, stamps, now, threshold, i + 1);
            if Expired(s.processing[i], stamps, now, threshold)
            then after == Apply(before, Rescue(s.processing[i])) && s.processing[i] in before.processing
            else after == before
  {
    RescueAdvances(s.processing, i, stamps, now, threshold);
    var e, stuck := s.processing[i], Stuck(s.processing[..i], stamps, now, threshold);
    assert [e] + Backwards(stuck) + s.tasks == [e] + (Backwards(stuck) + s.tasks);
    assert s.started - IdSet(stuck) - {e.taskId} == s.started - (IdSet(stuck) + {e.taskId});
  }

  lemma {:induction false} BackwardsHasAll(s: seq<Entry>)
    ensures |Backwards(s)| == |s| && forall e :: e in Backwards(s) <==> e in s
  {
    if s != [] {
      BackwardsHasAll(s[..|s| - 1]);
      assert s == s[..|s| - 1] + [s[|s| - 1]];
    }
  }

  /** What a pass moves and what it leaves, entry by entry. */
  lemma MovedInNumbers(s: seq<Entry>, stamps: map<Id, int>, now: int, threshold: int)
    ensures var stuck, alive := Stuck(s, stamps, now, threshold), Alive(s, stamps, now, threshold);
            && (forall e :: e in s ==>
                  (e in alive <==>
                     e.taskId == "" ||
                     if e.taskId in stamps then now - stamps[e.taskId] <= threshold
                     else e.createdAt == 0 || now - e.createdAt <= threshold))
            && |Backwards(stuck)| == |stuck|
            && (forall e :: e in Backwards(stuck) <==> e in s && e !in alive)
  {
    var stuck, alive := Stuck(s, stamps, now, threshold), Alive(s, stamps, now, threshold);
    StuckOrAlive(s, stamps, now, threshold);
    BackwardsHasAll(stuck);
    forall e | e in s
      ensures e in stuck || e in alive
    {
      assert e in multiset(s);
      assert multiset(stuck)[e] + multiset(alive)[e] > 0;
    }
  }

  // ---------------------------------------------------------------- the client

  /** Lua's `string.find`, of which only this is assumed: a pattern without magic characters is found as plain text. */
  ghost predicate PlainSearch(find: (string, string) -> bool) {
    forall text, id :: AllDigits(id) ==> (find(text, AckPattern(id)) <==> Contains(text, AckPattern(id)))
  }

  class Client {
    var tasks: seq<Entry>
    var processing: seq<Entry>
    var pending: set<Id>
    var started: map<Id, int>
    const hit: (Entry, Id) -> bool  // the ack script's test of one entry

    function View(): Store
      reads this
    {
      Store(tasks, processing, pending, started)
    }

    function FirstHit(s: seq<Entry>, id: Id): seq<Entry> {
      if s == [] then [] else if hit(s[0], id) then [s[0]] else FirstHit(s[1..], id)
    }

    /** For the decimal ids of the scheduler, the text search finds a task's own entries. */
    ghost predicate Valid() {
      forall e, id :: AllDigits(id) && id != "" ==> (hit(e, id) <==> e.taskId == id)
    }

    /** The test is Lua's search for the id in the entry's text. */
    constructor (spaced: bool, find: (string, string) -> bool)
      requires PlainSearch(find)
      ensures View() == EMPTY && Valid()
      ensures forall e, id :: hit(e, id) == find(RequestText(e, spaced), AckPattern(id))
    {
      hit := (e, id) => find(RequestText(e, spaced), AckPattern(id));
      tasks, processing, pending, started := [], [], {}, map[];
      new;
      forall e, id | AllDigits(id) && id != ""
        ensures hit(e, id) <==> e.taskId == id
      {
        AckByTextIsAckById(e, spaced, id);
      }
    }

    method PushTask(e: Entry) returns (r: PushResult)
      modifies this
      ensures r.EmptyId? <==> e.taskId == ""
      ensures r.TaskExists? <==> e.taskId != "" && e.taskId in old(pending)
      ensures View() == if e.taskId == "" then old(View()) else Apply(old(View()), Push(e))
      ensures r.Pushed? ==> tasks == [e] + old(tasks) && pending == old(pending) + {e.taskId}
      ensures !r.Pushed? ==> View() == old(View())
    {
      if e.taskId == "" {
        return EmptyId;
      }
      var added := e.taskId !in pending;
      pending := pending + {e.taskId};
      if !added {
        assert pending == old(pending);
        return TaskExists;
      }
      tasks := [e] + tasks;
      return Pushed;
    }

    /** `now` is the clock in seconds. */
    method PopTask(now: int) returns (r: PopResult)
      modifies this
      ensures r.NoTask? <==> old(tasks) == []
      ensures r.Popped? ==> r.entry == old(tasks)[|old(tasks)| - 1]
      ensures r.Popped? && r.entry.taskId != "" ==>
                View() == Apply(Apply(old(View()), Pop), Stamp(r.entry.taskId, now))
      ensures r.Popped? && r.entry.taskId == "" ==> View() == Apply(old(View()), Pop)
      ensures r.Popped? ==> tasks + [r.entry] == old(tasks) && processing == [r.entry] + old(processing)
      ensures r.NoTask? ==> View() == old(View())
    {
      if tasks == [] {
        return NoTask;
      }
      var e := tasks[|tasks| - 1];
      tasks, processing := tasks[..|tasks| - 1], [e] + processing;
      if e.taskId != "" {
        started := started[e.taskId := now];
      }
      return Popped(e);
    }

    /** Drops the pending mark of a task that was deleted, and nothing else. */
    method RemoveFromPendingSet(id: Id) returns (ok: bool)
      modifies this`pending
      ensures ok <==> id != ""
      ensures pending == if ok then old(pending) - {id} else old(pending)
      ensures ok ==> View() == Apply(old(View()), Forget(id))
    {
      if id == "" {
        return false;
      }
      pending := pending - {id};
      return true;
    }

    /** The loop of the ack script: the place of the first entry whose text holds the id, or the list's length. */
    method FindByText(list: seq<Entry>, id: Id) returns (i: nat)
      ensures i <= |list| && FirstHit(list, id) == if i < |list| then [list[i]] else []
    {
      i := 0;
      while i < |list|
        invariant 0 <= i <= |list|
        invariant FirstHit(list, id) == FirstHit(list[i..], id)
      {
        assert list[i..][0] == list[i] && list[i..][1..] == list[i + 1..];
        if hit(list[i], id) {
          break;
        }
        i := i + 1;
      }
    }

    /** For a decimal id the first entry found is the first entry of that id. */
    lemma {:induction false} FirstHitIsFirstWithId(s: seq<Entry>, id: Id)
      requires Valid() && AllDigits(id) && id != ""
      ensures FirstHit(s, id) == FirstWithId(s, id)
    {
      if s != [] {
        FirstHitIsFirstWithId(s[1..], id);
      }
    }

    /** The ack script: the first entry found goes, and for a decimal id that is the task's own entry. */
    method AckTask(id: Id) returns (removed: nat)
      requires Valid()
      modifies this
      ensures id == "" ==> removed == 0 && View() == old(View())
      ensures id != "" ==>
                var hit := FirstHit(old(processing), id);
                && removed == |hit|
                && processing == (if hit == [] then old(processing) else RemoveFirst(old(processing), hit[0]))
                && tasks == old(tasks) && pending == old(pending) - {id} && started == old(started) - {id}
      ensures AllDigits(id) && id != "" ==>
                View() == Apply(old(View()), Ack(id)) && removed == |FirstWithId(old(processing), id)|
    {
      if id == "" {
        return 0;
      }
      if AllDigits(id) {
        FirstHitIsFirstWithId(processing, id);
      }
      removed := RunAckScript(id);
    }

    method RunAckScript(id: Id) returns (removed: nat)
      modifies this
      ensures var hit := FirstHit(old(processing), id);
              && removed == |hit|
              && processing == (if hit == [] then old(processing) else RemoveFirst(old(processing), hit[0]))
              && tasks == old(tasks) && pending == old(pending) - {id} && started == old(started) - {id}
    {
      removed := 0;
      var i := FindByText(processing, id);
      if i < |processing| {
        processing := RemoveFirst(processing, processing[i]);
        removed := 1;
      }
      pending := pending - {id};
      started := started - {id};
    }

    /**
    One pass of the janitor with nobody else at work: exactly the expired entries move, to the head of the task
    list in reverse scan order, with their start times; everything else stays in place. An entry is expired if its
    start time, or without one its creation time, lies more than `threshold` seconds back.
    */
    method RescueStuckTasks(now: int, threshold: int) returns (rescued: nat)
      modifies this
      ensures pending == old(pending)
      ensures old(started) == map[] ==> rescued == 0 && View() == old(View())
      ensures old(started) != map[] && old(processing) == [] ==>
                rescued == 0 && View() == old(View()).(started := map[])
      ensures old(started) != map[] && old(processing) != [] ==>
                var stuck := Stuck(old(processing), old(started), now, threshold);
                && processing == Alive(old(processing), old(started), now, threshold)
                && tasks == Backwards(stuck) + old(tasks)
                && started == old(started) - IdSet(stuck)
                && rescued == |stuck|
      ensures forall e :: e in old(processing) ==>
                (e in processing <==>
                   old(started) == map[] || e.taskId == "" ||
                   if e.taskId in old(started) then now - old(started)[e.taskId] <= threshold
                   else e.createdAt == 0 || now - e.createdAt <= threshold)
      ensures rescued <= |tasks| && tasks[rescued..] == old(tasks)
      ensures forall e :: e in tasks[..rescued] <==> e in old(processing) && e !in processing
    {
      MovedInNumbers(processing, started, now, threshold);
      rescued := 0;
      var stamps := started;
      if stamps == map[] {
        return;
      }
      var list := processing;
      if list == [] {
        ClearStamps(stamps.Keys);
        return;
      }
      rescued := Sweep(list, stamps, now, threshold);
      assert list[..|list|] == list && list[|list|..] == [];
    }

    method Sweep(list: seq<Entry>, stamps: map<Id, int>, now: int, threshold: int) returns (rescued: nat)
      requires list == processing
      modifies this
      ensures rescued == |Stuck(list, stamps, now, threshold)|
      ensures View() == Swept(old(View()), stamps, now, threshold, |list|)
    {
      rescued := 0;
      var i := 0;
      while i < |list|
        invariant 0 <= i <= |list|
        invariant rescued == |Stuck(list[..i], stamps, now, threshold)|
        invariant View() == Swept(old(View()), stamps, now, threshold, i)
      {
        RescueAdvances(list, i, stamps, now, threshold);
        SweptAdvances(old(View()), stamps, now, threshold, i);
        if Expired(list[i], stamps, now, threshold) {
          var r := RunRescueScript(list[i]);
          rescued := rescued + r;
        }
        i := i + 1;
      }
      assert list[..i] == list;
    }

    method RunRescueScript(e: Entry) returns (r: nat)
      modifies this
      ensures View() == Apply(old(View()), Rescue(e)) && r == if e in old(processing) then 1 else 0
    {
      if e !in processing {
        return 0;
      }
      processing := RemoveFirst(processing, e);
      tasks := [e] + tasks;
      started := started - {e.taskId};
      return 1;
    }

    /** Start times without any entry in processing are deleted one by one. */
    method ClearStamps(ids: set<Id>)
      modifies this`started
      ensures started == old(started) - ids
    {
      var rest := ids;
      while rest != {}
        invariant rest <= ids && started == old(started) - (ids - rest)
      {
        var id :| id in rest;
        started := started - {id};
        rest := rest - {id};
      }
    }

    /** The first loop: collect the entries whose id was seen before. */
    method FindDuplicates(list: seq<Entry>) returns (duplicates: seq<Entry>)
      ensures duplicates == Repeats(list, {})
    {
      var seen: set<Id> := {};
      duplicates := [];
      var i := 0;
      while i < |list|
        invariant 0 <= i <= |list|
        invariant Repeats(list, {}) == duplicates + Repeats(list[i..], seen)
      {
        var e := list[i];
        assert list[i..][0] == e && list[i..][1..] == list[i + 1..];
        if e.taskId != "" {
          if e.taskId in seen {
            duplicates := duplicates + [e];
          } else {
            seen := seen + {e.taskId};
          }
        }
        i := i + 1;
      }
    }

    /** What stays is the first entry of every id and every unreadable entry; the count is what went. */
    method DeduplicateQueue() returns (removed: nat)
      modifies this`tasks
      ensures tasks == Drop(old(tasks), multiset(Repeats(old(tasks), {})))
      ensures multiset(tasks) == multiset(Kept(old(tasks), {}))
      ensures tasks == Kept(old(tasks), {}) <==> OrderKept(old(tasks), {})
      ensures removed == |old(tasks)| - |tasks| == |Repeats(old(tasks), {})|
    {
      var list := tasks;
      var duplicates := FindDuplicates(list);
      KeptAndRepeats(list, {});
      removed := 0;
      var k := 0;
      assert duplicates[0..] == duplicates;
      while k < |duplicates|
        invariant 0 <= k <= |duplicates|
        invariant multiset(tasks) == multiset(Kept(list, {})) + multiset(duplicates[k..])
        invariant Drop(tasks, multiset(duplicates[k..])) == Drop(list, multiset(duplicates))
        invariant removed == |list| - |tasks| == k
      {
        RemoveNextRepeat(tasks, multiset(Kept(list, {})), duplicates, k);
        RemovalStep(tasks, duplicates, k);
        if duplicates[k] in tasks {
          tasks := RemoveFirst(tasks, duplicates[k]);
          removed := removed + 1;
        }
        k := k + 1;
      }
      DropNothing(tasks);
      OrderExactly(list, {});
    }
  }
}
