/**
The reliable queue as Redis sees it: two lists, the set of pending ids and the hash of start times.
Every script and every single command is one atomic operation. A run is any sequence of operations,
so it contains every interleaving of schedulers, workers and janitors, with acks that come late or
twice and rescues decided on stale snapshots.
*/
module QueueStore {
  import opened TaskText

  type Id = string

  /** A queued entry; an entry whose text cannot be read has `taskId == ""`. */
  type Entry = FetchRequest

  /** Lists are written head first: LPUSH adds in front, BRPOPLPUSH takes from the back. */
  datatype Store = Store(tasks: seq<Entry>, processing: seq<Entry>, pending: set<Id>, started: map<Id, int>)

  const EMPTY := Store([], [], {}, map[])

  datatype Op =
    | Push(entry: Entry)            // the push script
    | Pop                           // BRPOPLPUSH
    | Stamp(id: Id, at: int)        // HSET started
    | Ack(id: Id)                   // the ack script
    | Rescue(entry: Entry)          // the rescue script
    | DropStamp(id: Id)             // HDEL started
    | Forget(id: Id)                // SREM pending

  // ---------------------------------------------------------------- list helpers

  /** LREM with count 1: drop the first element equal to `e`, if any. */
  function RemoveFirst(s: seq<Entry>, e: Entry): seq<Entry> {
    if s == [] then [] else if s[0] == e then s[1..] else [s[0]] + RemoveFirst(s[1..], e)
  }

  /** The first entry with the given id, as the ack script's scan finds it. */
  function FirstWithId(s: seq<Entry>, id: Id): seq<Entry> {
    if s == [] then [] else if s[0].taskId == id then [s[0]] else FirstWithId(s[1..], id)
  }

  /** How often each id occurs in a list. */
  function Ids(s: seq<Entry>): multiset<Id> {
    if s == [] then multiset{} else multiset{s[0].taskId} + Ids(s[1..])
  }

  /** The janitor's verdict on one entry, from its snapshot of the start times. */
  predicate Expired(e: Entry, stamps: map<Id, int>, now: int, threshold: int) {
    e.taskId != "" &&
    if e.taskId in stamps then now - stamps[e.taskId] > threshold
    else e.createdAt != 0 && now - e.createdAt > threshold
  }

  // ---------------------------------------------------------------- the operations

  function Apply(s: Store, op: Op): Store {
    match op
    case Push(e) =>
      if e.taskId in s.pending then s else s.(pending := s.pending + {e.taskId}, tasks := [e] + s.tasks)
    case Pop =>
      if s.tasks == [] then s
      else s.(tasks := s.tasks[..|s.tasks| - 1], processing := [s.tasks[|s.tasks| - 1]] + s.processing)
    case Stamp(id, at) =>
      s.(started := s.started[id := at])
    case Ack(id) =>
      var hit := FirstWithId(s.processing, id);
      s.(processing := if hit == [] then s.processing else RemoveFirst(s.processing, hit[0]),
         pending := s.pending - {id},
         started := s.started - {id})
    case Rescue(e) =>
      if e in s.processing
      then s.(processing := RemoveFirst(s.processing, e), tasks := [e] + s.tasks, started := s.started - {e.taskId})
      else s
    case DropStamp(id) =>
      s.(started := s.started - {id})
    case Forget(id) =>
      s.(pending := s.pending - {id})
  }

  /** The store together with what its history put in and took out. */
  datatype Ledger = Ledger(store: Store, pushed: multiset<Entry>, acked: multiset<Entry>)

  const START := Ledger(EMPTY, multiset{}, multiset{})

  function Next(l: Ledger, op: Op): Ledger {
    Ledger(Apply(l.store, op),
           if op.Push? && op.entry.taskId !in l.store.pending then l.pushed + multiset{op.entry} else l.pushed,
           if op.Ack? then l.acked + multiset(FirstWithId(l.store.processing, op.id)) else l.acked)
  }

  function Exec(ops: seq<Op>): Ledger {
    if ops == [] then START else Next(Exec(ops[..|ops| - 1]), ops[|ops| - 1])
  }

  // ---------------------------------------------------------------- facts about the lists

  lemma {:induction false} RemoveFirstDropsOne(s: seq<Entry>, e: Entry)
    requires e in s
    ensures multiset(RemoveFirst(s, e)) + multiset{e} == multiset(s)
  {
    assert s == [s[0]] + s[1..];
    if s[0] != e {
      RemoveFirstDropsOne(s[1..], e);
    }
  }

  lemma {:induction false} RemoveFirstDropsId(s: seq<Entry>, e: Entry)
    requires e in s
    ensures Ids(RemoveFirst(s, e)) + multiset{e.taskId} == Ids(s)
  {
    if s[0] != e {
      RemoveFirstDropsId(s[1..], e);
      assert RemoveFirst(s, e)[1..] == RemoveFirst(s[1..], e);
    }
  }

  lemma {:induction false} FirstWithIdFinds(s: seq<Entry>, id: Id)
    ensures if id in Ids(s) then |FirstWithId(s, id)| == 1 && FirstWithId(s, id)[0] in s && FirstWithId(s, id)[0].taskId == id
            else FirstWithId(s, id) == []
  {
    if s != [] && s[0].taskId != id {
      FirstWithIdFinds(s[1..], id);
    }
  }

  lemma {:induction false} IdsOfConcat(a: seq<Entry>, b: seq<Entry>)
    ensures Ids(a + b) == Ids(a) + Ids(b)
  {
    if a == [] {
      assert a + b == b;
    } else {
      assert (a + b)[1..] == a[1..] + b;
      IdsOfConcat(a[1..], b);
    }
  }

  lemma {:induction false} IdsOfMember(s: seq<Entry>, e: Entry)
    requires e in s
    ensures e.taskId in Ids(s)
  {
    if s[0] != e {
      IdsOfMember(s[1..], e);
    }
  }

  lemma PopMovesIds(s: Store)
    requires s.tasks != []
    ensures Ids(Apply(s, Pop).processing) == Ids(s.processing) + multiset{s.tasks[|s.tasks| - 1].taskId}
    ensures Ids(s.tasks) == Ids(Apply(s, Pop).tasks) + multiset{s.tasks[|s.tasks| - 1].taskId}
  {
    var n := |s.tasks| - 1;
    assert s.tasks == s.tasks[..n] + [s.tasks[n]];
    IdsOfConcat(s.tasks[..n], [s.tasks[n]]);
    assert ([s.tasks[n]] + s.processing)[1..] == s.processing;
  }

  lemma PopMoves(s: Store)
    requires s.tasks != []
    ensures var t := Apply(s, Pop); multiset(t.tasks) + multiset(t.processing) == multiset(s.tasks) + multiset(s.processing)
  {
    var n := |s.tasks| - 1;
    assert s.tasks == s.tasks[..n] + [s.tasks[n]];
  }

  // ---------------------------------------------------------------- no task is lost

  predicate Conserved(l: Ledger) {
    multiset(l.store.tasks) + multiset(l.store.processing) + l.acked == l.pushed
  }

  /** What an ack takes out of the processing list is exactly what it adds to the acked entries. */
  lemma AckTakesOne(s: Store, id: Id)
    ensures multiset(Apply(s, Ack(id)).processing) + multiset(FirstWithId(s.processing, id)) == multiset(s.processing)
  {
    FirstWithIdFinds(s.processing, id);
    var hit := FirstWithId(s.processing, id);
    if hit != [] {
      RemoveFirstDropsOne(s.processing, hit[0]);
      assert hit == [hit[0]];
    }
  }

  lemma AckConserves(l: Ledger, id: Id)
    requires Conserved(l)
    ensures Conserved(Next(l, Ack(id)))
  {
    AckTakesOne(l.store, id);
    var p, hit := multiset(Apply(l.store, Ack(id)).processing), multiset(FirstWithId(l.store.processing, id));
    Regroup(multiset(l.store.tasks), p, l.acked, hit);
  }

  lemma Regroup(a: multiset<Entry>, b: multiset<Entry>, c: multiset<Entry>, d: multiset<Entry>)
    ensures a + b + (c + d) == a + (b + d) + c
  {
  }

  lemma RescueConserves(l: Ledger, e: Entry)
    requires Conserved(l)
    ensures Conserved(Next(l, Rescue(e)))
  {
    if e in l.store.processing {
      RemoveFirstDropsOne(l.store.processing, e);
    }
  }

  lemma PushConserves(l: Ledger, e: Entry)
    requires Conserved(l)
    ensures Conserved(Next(l, Push(e)))
  {
    assert multiset([e] + l.store.tasks) == multiset{e} + multiset(l.store.tasks);
  }

  lemma PopConserves(l: Ledger)
    requires Conserved(l)
    ensures Conserved(Next(l, Pop))
  {
    if l.store.tasks != [] {
      PopMoves(l.store);
    }
  }

  lemma NextConserves(l: Ledger, op: Op)
    requires Conserved(l)
    ensures Conserved(Next(l, op))
  {
    match op
    case Push(e) => PushConserves(l, e);
    case Pop => PopConserves(l);
    case Stamp(_, _) =>
    case Ack(id) => AckConserves(l, id);
    case Rescue(e) => RescueConserves(l, e);
    case DropStamp(_) =>
    case Forget(_) =>
  }

  /** No task loss: in every run, what was pushed is waiting, being processed or acked, with multiplicity. */
  lemma {:induction false} NoTaskLost(ops: seq<Op>)
    ensures Conserved(Exec(ops))
  {
    if ops != [] {
      NoTaskLost(ops[..|ops| - 1]);
      NextConserves(Exec(ops[..|ops| - 1]), ops[|ops| - 1]);
    }
  }

  // ---------------------------------------------------------------- a refused push means live work

  /** The ids of all queued entries, waiting or being processed. */
  function Queued(s: Store): multiset<Id> {
    Ids(s.tasks) + Ids(s.processing)
  }

  predicate PendingIsLive(s: Store) {
    forall id :: id in s.pending ==> id in Queued(s)
  }

  lemma PopKeepsQueued(s: Store)
    ensures Queued(Apply(s, Pop)) == Queued(s)
  {
    if s.tasks != [] {
      PopMovesIds(s);
    }
  }

  lemma RescueKeepsQueued(s: Store, e: Entry)
    ensures Queued(Apply(s, Rescue(e))) == Queued(s)
  {
    if e in s.processing {
      RescueMoves(s, e);
    }
  }

  lemma PushQueues(s: Store, e: Entry)
    requires e.taskId !in s.pending
    ensures Queued(Apply(s, Push(e))) == Queued(s) + multiset{e.taskId}
  {
    assert ([e] + s.tasks)[1..] == s.tasks;
  }

  lemma AckKeepsOtherIds(s: Store, id: Id)
    ensures Ids(Apply(s, Ack(id)).processing) == Ids(s.processing) - multiset{id}
  {
    FirstWithIdFinds(s.processing, id);
    var hit := FirstWithId(s.processing, id);
    if hit != [] {
      RemoveFirstDropsId(s.processing, hit[0]);
    }
  }

  lemma RescueMoves(s: Store, e: Entry)
    requires e in s.processing
    ensures Ids(Apply(s, Rescue(e)).processing) + multiset{e.taskId} == Ids(s.processing)
    ensures Ids(Apply(s, Rescue(e)).tasks) == Ids(s.tasks) + multiset{e.taskId}
  {
    RemoveFirstDropsId(s.processing, e);
  }

  lemma ApplyKeepsPendingLive(s: Store, op: Op)
    requires PendingIsLive(s)
    ensures PendingIsLive(Apply(s, op))
  {
    match op
    case Push(e) =>
      if e.taskId !in s.pending {
        PushQueues(s, e);
      }
    case Pop => PopKeepsQueued(s);
    case Stamp(_, _) =>
    case Ack(id) => AckKeepsOtherIds(s, id);
    case Rescue(e) => RescueKeepsQueued(s, e);
    case DropStamp(_) =>
    case Forget(_) =>
  }

  lemma {:induction false} PendingAlwaysLive(ops: seq<Op>)
    ensures PendingIsLive(Exec(ops).store)
  {
    if ops != [] {
      PendingAlwaysLive(ops[..|ops| - 1]);
      ApplyKeepsPendingLive(Exec(ops[..|ops| - 1]).store, ops[|ops| - 1]);
    }
  }

  lemma {:induction false} IdHasEntry(s: seq<Entry>, id: Id) returns (e: Entry)
    requires id in Ids(s)
    ensures e in s && e.taskId == id
  {
    if s[0].taskId == id {
      e := s[0];
    } else {
      e := IdHasEntry(s[1..], id);
    }
  }

  /** ErrTaskExists never strands a task: when a push changes nothing, an entry with that id is still queued. */
  lemma RefusedPushMeansLiveWork(ops: seq<Op>, e: Entry)
    requires Exec(ops + [Push(e)]).store == Exec(ops).store
    ensures exists live :: live in Exec(ops).store.tasks + Exec(ops).store.processing && live.taskId == e.taskId
  {
    var s := Exec(ops).store;
    assert (ops + [Push(e)])[..|ops|] == ops;
    assert e.taskId in s.pending by {
      assert |Apply(s, Push(e)).tasks| == |s.tasks|;
    }
    PendingAlwaysLive(ops);
    if e.taskId in Ids(s.tasks) {
      var live := IdHasEntry(s.tasks, e.taskId);
      assert live in s.tasks + s.processing;
    } else {
      var live := IdHasEntry(s.processing, e.taskId);
      assert live in s.tasks + s.processing;
    }
  }

  // ---------------------------------------------------------------- one live entry per id

  /** The pending set holds exactly the queued ids, and each of them is queued exactly once. */
  predicate SingleLive(s: Store) {
    Queued(s) == multiset(s.pending)
  }

  /** The proviso: an ack may not name an id that waits in the task list; ids are never dropped by hand. */
  predicate Proper(s: Store, op: Op) {
    !op.Forget? && (op.Ack? ==> op.id !in Ids(s.tasks))
  }

  lemma ApplyKeepsSingleLive(s: Store, op: Op)
    requires SingleLive(s) && Proper(s, op)
    ensures SingleLive(Apply(s, op))
  {
    match op
    case Push(e) =>
      if e.taskId !in s.pending {
        PushQueues(s, e);
        assert multiset(s.pending + {e.taskId}) == multiset(s.pending) + multiset{e.taskId};
      }
    case Pop => PopKeepsQueued(s);
    case Stamp(_, _) =>
    case Ack(id) => AckKeepsSingleLive(s, id);
    case Rescue(e) => RescueKeepsQueued(s, e);
    case DropStamp(_) =>
  }

  lemma OnceAndPending(s: Store, id: Id)
    requires SingleLive(s)
    ensures Ids(s.tasks)[id] + Ids(s.processing)[id] == if id in s.pending then 1 else 0
  {
    assert (Ids(s.tasks) + Ids(s.processing))[id] == multiset(s.pending)[id];
  }

  lemma DropFromSecond(a: multiset<Id>, b: multiset<Id>, p: set<Id>, id: Id)
    requires a + b == multiset(p) && id !in a
    ensures a + (b - multiset{id}) == multiset(p - {id})
  {
    assert (a + b)[id] == b[id];
    forall x
      ensures (a + (b - multiset{id}))[x] == multiset(p - {id})[x]
    {
      assert (a + b)[x] == multiset(p)[x];
    }
  }

  /** The proviso is exact: an ack keeps the invariant if and only if its id is not waiting in the task list. */
  lemma AckKeepsSingleLive(s: Store, id: Id)
    requires SingleLive(s)
    ensures SingleLive(Apply(s, Ack(id))) <==> id !in Ids(s.tasks)
  {
    AckKeepsOtherIds(s, id);
    var t := Apply(s, Ack(id));
    if id !in Ids(s.tasks) {
      DropFromSecond(Ids(s.tasks), Ids(s.processing), s.pending, id);
    } else if SingleLive(t) {
      OnceAndPending(t, id);
    }
  }

  predicate ProperRun(ops: seq<Op>)
  {
    forall i :: 0 <= i < |ops| ==> Proper(Exec(ops[..i]).store, ops[i])
  }

  /** Single live entry: every run whose acks respect the proviso keeps one entry per pending id. */
  lemma {:induction false} OneLiveEntry(ops: seq<Op>)
    requires ProperRun(ops)
    ensures SingleLive(Exec(ops).store)
  {
    if ops != [] {
      var n := |ops| - 1;
      assert forall i :: 0 <= i < n ==> ops[..n][..i] == ops[..i];
      OneLiveEntry(ops[..n]);
      ApplyKeepsSingleLive(Exec(ops[..n]).store, ops[n]);
    }
  }

  /** Conversely, without manual removals a run that never loses the invariant respects the proviso throughout. */
  lemma SafeExactlyWhenProper(ops: seq<Op>)
    requires forall i :: 0 <= i < |ops| ==> !ops[i].Forget?
    ensures ProperRun(ops) <==> forall i :: 0 <= i <= |ops| ==> SingleLive(Exec(ops[..i]).store)
  {
    if ProperRun(ops) {
      forall i | 0 <= i <= |ops|
        ensures SingleLive(Exec(ops[..i]).store)
      {
        assert forall k :: 0 <= k < i ==> ops[..i][..k] == ops[..k];
        OneLiveEntry(ops[..i]);
      }
    }
    if forall i :: 0 <= i <= |ops| ==> SingleLive(Exec(ops[..i]).store) {
      forall i | 0 <= i < |ops|
        ensures Proper(Exec(ops[..i]).store, ops[i])
      {
        assert ops[..i + 1][..i] == ops[..i] && ops[..i + 1][i] == ops[i];
        assert SingleLive(Exec(ops[..i]).store) && SingleLive(Exec(ops[..i + 1]).store);
        if ops[i].Ack? {
          AckKeepsSingleLive(Exec(ops[..i]).store, ops[i].id);
        }
      }
    }
  }

  /** Without the proviso the invariant fails: a rescue, then the slow worker's ack, then the next scheduler push. */
  lemma LateAckDuplicates(e: Entry, e': Entry)
    requires e.taskId == e'.taskId
    ensures Exec([Push(e), Pop, Rescue(e), Ack(e.taskId), Push(e')]).store.tasks == [e', e]
  {
    var ops := [Push(e), Pop, Rescue(e), Ack(e.taskId), Push(e')];
    assert ops[..4][..3] == ops[..3] && ops[..3][..2] == ops[..2] && ops[..2][..1] == ops[..1] && ops[..1][..0] == [];
    assert Exec(ops[..0]) == START;
    assert Exec(ops[..1]).store == Store([e], [], {e.taskId}, map[]);
    assert Exec(ops[..2]).store == Store([], [e], {e.taskId}, map[]);
    assert Exec(ops[..3]).store == Store([e], [], {e.taskId}, map[]);
    assert Exec(ops[..4]).store == Store([e], [], {}, map[]);
  }

  // ---------------------------------------------------------------- first in, first out

  /** What an operation puts into the task list: an accepted push, or an entry that is really put back. */
  function PutIn(s: Store, op: Op): seq<Entry> {
    if op.Push? && op.entry.taskId !in s.pending then [op.entry]
    else if op.Rescue? && op.entry in s.processing then [op.entry]
    else []
  }

  function TakenOut(s: Store, op: Op): seq<Entry> {
    if op.Pop? && s.tasks != [] then [s.tasks[|s.tasks| - 1]] else []
  }

  /** All entries put into the task list in a run, in order, and all entries taken out of it. */
  function AllPutIn(ops: seq<Op>): seq<Entry> {
    if ops == [] then []
    else AllPutIn(ops[..|ops| - 1]) + PutIn(Exec(ops[..|ops| - 1]).store, ops[|ops| - 1])
  }

  function AllTakenOut(ops: seq<Op>): seq<Entry> {
    if ops == [] then []
    else AllTakenOut(ops[..|ops| - 1]) + TakenOut(Exec(ops[..|ops| - 1]).store, ops[|ops| - 1])
  }

  function Reversed(s: seq<Entry>): seq<Entry> {
    if s == [] then [] else Reversed(s[1..]) + [s[0]]
  }

  lemma ReversedFront(s: seq<Entry>, e: Entry)
    ensures Reversed([e] + s) == Reversed(s) + [e]
  {
    assert ([e] + s)[1..] == s;
  }

  lemma {:induction false} ReversedBack(s: seq<Entry>, e: Entry)
    ensures Reversed(s + [e]) == [e] + Reversed(s)
  {
    if s == [] {
      assert s + [e] == [e] + s;
      ReversedFront(s, e);
    } else {
      assert (s + [e])[1..] == s[1..] + [e];
      ReversedBack(s[1..], e);
    }
  }

  lemma TasksStep(s: Store, op: Op)
    ensures TakenOut(s, op) + Reversed(Apply(s, op).tasks) == Reversed(s.tasks) + PutIn(s, op)
  {
    if op.Push? || op.Rescue? {
      ReversedFront(s.tasks, op.entry);
    } else if op.Pop? && s.tasks != [] {
      var n := |s.tasks| - 1;
      assert s.tasks == s.tasks[..n] + [s.tasks[n]];
      ReversedBack(s.tasks[..n], s.tasks[n]);
    }
  }

  /**
  Tasks are taken in the order in which they were pushed or put back: what was taken out, followed by what still
  waits, oldest first, is what was put in.
  */
  lemma {:induction false} FirstInFirstOut(ops: seq<Op>)
    ensures AllTakenOut(ops) + Reversed(Exec(ops).store.tasks) == AllPutIn(ops)
  {
    if ops != [] {
      var before, op := ops[..|ops| - 1], ops[|ops| - 1];
      var s := Exec(before).store;
      FirstInFirstOut(before);
      TasksStep(s, op);
      Reassociate(AllTakenOut(before), TakenOut(s, op), Reversed(Exec(ops).store.tasks), Reversed(s.tasks), PutIn(s, op));
    }
  }

  lemma Reassociate(a: seq<Entry>, b: seq<Entry>, c: seq<Entry>, d: seq<Entry>, e: seq<Entry>)
    requires b + c == d + e
    ensures (a + b) + c == (a + d) + e
  {
    assert (a + b) + c == a + (b + c);
    assert (a + d) + e == a + (d + e);
  }
}
