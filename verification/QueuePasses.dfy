/**
Rescue passes an operator can check: passes that do not overlap, read the clock soon after the start times, and never
decide by the creation time. In such runs every rescue is decided by the start time that is still in the hash, so the
queue keeps exactly one entry per pending id.
*/
module QueuePasses {
  import opened TaskText
  import opened QueueStore
  import opened QueueRuns
  import opened QueueTiming

  const PASS_LIMIT := 20_000

  predicate Finished(jan: Janitor) {
    (jan.Sweeping? && jan.next >= |jan.list|) || (jan.Clearing? && jan.ids == {})
  }

  /** A pass starts only when all others are over. */
  predicate Alone(y: System, step: Step) {
    step.ReadStamps? ==> forall j :: j in y.janitors ==> Finished(y.janitors[j])
  }

  /** The clock is read less than 20 seconds after the start times. */
  predicate Quick(y: System, step: Step)
    requires Enabled(y, step)
  {
    step.ReadClock? ==> y.clock < y.janitors[step.j].since + PASS_LIMIT
  }

  /** No rescue is decided by the creation time. */
  predicate ByStartTime(y: System, step: Step)
    requires Enabled(y, step)
  {
    Rescues(y, step) ==> Target(y, step.j).taskId in y.janitors[step.j].stamps
  }

  predicate Careful(y: System, step: Step)
    requires Enabled(y, step)
  {
    Punctual(y, step) && Patient(step) && Alone(y, step) && Quick(y, step) && ByStartTime(y, step)
  }

  predicate IsCarefulRun(steps: seq<Step>)
    requires IsRun(steps)
  {
    steps == [] ||
    (IsCarefulRun(steps[..|steps| - 1]) && Careful(Play(steps[..|steps| - 1]), steps[|steps| - 1]))
  }

  // ---------------------------------------------------------------- the invariant

  /** A delivery with this start time, in seconds, was past its last chance to ack at the given time. */
  predicate Overdue(stamp: int, since: nat) {
    since > 1000 * stamp + 999 + ACK_DEADLINE
  }

  /** If the snapshot's start time was overdue, it is still the one in the hash. */
  predicate StillThere(started: map<Id, int>, stamps: map<Id, int>, since: nat, id: Id) {
    id in stamps && Overdue(stamps[id], since) ==> id in started && started[id] == stamps[id]
  }

  predicate DistinctIds(list: seq<Entry>) {
    forall a, b :: 0 <= a < b < |list| ==> list[a].taskId != list[b].taskId
  }

  predicate SnapshotInv(started: map<Id, int>, clock: nat, jan: Janitor) {
    match jan
    case HasStamps(_, stamps, since) =>
      since <= clock && forall id :: id in stamps ==> StillThere(started, stamps, since, id)
    case HasList(_, stamps, since, list) =>
      since <= clock && DistinctIds(list) && forall id :: id in stamps ==> StillThere(started, stamps, since, id)
    case Sweeping(_, stamps, since, list, now, next) =>
      && since <= clock && DistinctIds(list) && 1000 * now < since + PASS_LIMIT
      && forall k :: next <= k < |list| ==> StillThere(started, stamps, since, list[k].taskId)
    case Clearing(_) => true
  }

  predicate OnePass(y: System) {
    forall j, k :: j in y.janitors && k in y.janitors && !Finished(y.janitors[j]) && !Finished(y.janitors[k]) ==> j == k
  }

  predicate PassInv(y: System) {
    OnePass(y) && forall j :: j in y.janitors ==> SnapshotInv(y.ledger.store.started, y.clock, y.janitors[j])
  }

  // ---------------------------------------------------------------- overdue start times stay

  /** An ack in time is not one of an overdue delivery. */
  lemma AckIsNotOverdue(y: System, w: nat, since: nat)
    requires OrderInv(y) && Enabled(y, AckDone(w)) && Punctual(y, AckDone(w)) && since <= y.clock
    requires y.workers[w].req.taskId in y.ledger.store.started
    ensures !Overdue(y.ledger.store.started[y.workers[w].req.taskId], since)
  {
    var c, id := CoreOf(y), y.workers[w].req.taskId;
    AckHitsNoWaitingTask(y, w);
    assert StampInv(c, id);
    assert WorkerInv(c, w, c.workers[w]);
  }

  lemma BeginIsNew(y: System, w: nat)
    requires OrderInv(y) && Enabled(y, Begin(w, true))
    ensures y.workers[w].req.taskId !in y.ledger.store.started
  {
    assert WorkerInv(CoreOf(y), w, y.workers[w]);
  }

  /** What a step does to the start times. */
  lemma StartedAfter(y: System, step: Step)
    requires Enabled(y, step)
    ensures var started, started' := y.ledger.store.started, After(y, step).ledger.store.started;
            match step
            case Begin(w, true) => started' == started[y.workers[w].req.taskId := y.clock / 1000]
            case AckDone(w) => started' == started - {y.workers[w].req.taskId}
            case Clear(_, id) => started' == started - {id}
            case Visit(j) => started' == if Rescues(y, step) then started - {Target(y, j).taskId} else started
            case _ => started' == started
  {
  }

  /** While a pass is under way, an overdue start time stays unless that pass takes it. */
  lemma OverdueStays(y: System, step: Step, j: nat, since: nat, id: Id)
    requires OrderInv(y) && OnePass(y) && Enabled(y, step) && Punctual(y, step)
    requires j in y.janitors && !Finished(y.janitors[j]) && !y.janitors[j].Clearing? && since <= y.clock
    requires id in y.ledger.store.started && Overdue(y.ledger.store.started[id], since)
    requires step.Visit? && step.j == j && Rescues(y, step) ==> Target(y, j).taskId != id
    ensures var started' := After(y, step).ledger.store.started;
            id in started' && started'[id] == y.ledger.store.started[id]
  {
    StartedAfter(y, step);
    if step.Begin? && step.stamped {
      BeginIsNew(y, step.w);
    } else if step.AckDone? && y.workers[step.w].req.taskId == id {
      AckIsNotOverdue(y, step.w, since);
    }
  }

  lemma SnapshotStays(y: System, step: Step, j: nat)
    requires OrderInv(y) && PassInv(y) && Enabled(y, step) && Punctual(y, step)
    requires j in y.janitors && !((step.ReadList? || step.ReadClock? || step.Visit? || step.Clear?) && step.j == j)
    ensures SnapshotInv(After(y, step).ledger.store.started, After(y, step).clock, y.janitors[j])
  {
    var jan, started, started' := y.janitors[j], y.ledger.store.started, After(y, step).ledger.store.started;
    assert SnapshotInv(started, y.clock, jan);
    if !jan.Clearing? && !Finished(jan) {
      forall id | StillThere(started, jan.stamps, jan.since, id)
        ensures StillThere(started', jan.stamps, jan.since, id)
      {
        if id in jan.stamps && Overdue(jan.stamps[id], jan.since) {
          OverdueStays(y, step, j, jan.since, id);
        }
      }
    }
  }

  // ---------------------------------------------------------------- the pass's own steps

  lemma {:induction false} OnceMeansDistinct(s: seq<Entry>)
    requires forall id :: Ids(s)[id] <= 1
    ensures DistinctIds(s)
  {
    if s != [] {
      forall id
        ensures Ids(s[1..])[id] <= 1
      {
        assert Ids(s)[id] >= Ids(s[1..])[id];
      }
      OnceMeansDistinct(s[1..]);
      forall b | 0 < b < |s|
        ensures s[b].taskId != s[0].taskId
      {
        IdsOfMember(s[1..], s[b]);
        assert Ids(s)[s[0].taskId] == 1 + Ids(s[1..])[s[0].taskId];
      }
      assert forall b :: 0 < b < |s| ==> s[b] == s[1..][b - 1];
    }
  }

  lemma ProcessingIsDistinct(s: Store)
    requires SingleLive(s)
    ensures DistinctIds(s.processing)
  {
    forall id
      ensures Ids(s.processing)[id] <= 1
    {
      OnceAndPending(s, id);
    }
    OnceMeansDistinct(s.processing);
  }

  /** One entry further, with the entry looked at put back or not. */
  lemma VisitKeepsSnapshot(y: System, j: nat)
    requires OrderInv(y) && PassInv(y) && Enabled(y, Visit(j)) && Punctual(y, Visit(j))
    ensures var z := After(y, Visit(j));
            SnapshotInv(z.ledger.store.started, z.clock, z.janitors[j])
  {
    var jan, started, z := y.janitors[j], y.ledger.store.started, After(y, Visit(j));
    assert SnapshotInv(started, y.clock, jan);
    forall k | jan.next + 1 <= k < |jan.list|
      ensures StillThere(z.ledger.store.started, jan.stamps, jan.since, jan.list[k].taskId)
    {
      var id := jan.list[k].taskId;
      assert StillThere(started, jan.stamps, jan.since, id);
      assert jan.list[jan.next].taskId != id;
      if id in jan.stamps && Overdue(jan.stamps[id], jan.since) {
        OverdueStays(y, Visit(j), j, jan.since, id);
      }
    }
  }

  lemma ReadKeepsSnapshot(y: System, step: Step)
    requires OrderInv(y) && PassInv(y) && Enabled(y, step) && Quick(y, step)
    requires step.ReadStamps? || step.ReadList? || step.ReadClock? || step.Clear?
    ensures var z := After(y, step);
            SnapshotInv(z.ledger.store.started, z.clock, z.janitors[step.j])
  {
    StartedAfter(y, step);
    ProcessingIsDistinct(y.ledger.store);
    assert step.j in y.janitors ==> SnapshotInv(y.ledger.store.started, y.clock, y.janitors[step.j]);
  }

  lemma StepKeepsOnePass(y: System, step: Step)
    requires OnePass(y) && Enabled(y, step) && Alone(y, step)
    ensures OnePass(After(y, step))
  {
    var z := After(y, step);
    forall j, k | j in z.janitors && k in z.janitors && !Finished(z.janitors[j]) && !Finished(z.janitors[k])
      ensures j == k
    {
      UnfinishedBefore(y, step, j);
      UnfinishedBefore(y, step, k);
    }
  }

  /** Who is under way after a step was so before, or has just started. */
  lemma UnfinishedBefore(y: System, step: Step, j: nat)
    requires Enabled(y, step) && j in After(y, step).janitors && !Finished(After(y, step).janitors[j])
    ensures (j in y.janitors && !Finished(y.janitors[j])) || (step.ReadStamps? && step.j == j)
  {
  }

  lemma StepKeepsPassInv(y: System, step: Step)
    requires OrderInv(y) && PassInv(y) && Enabled(y, step) && Careful(y, step)
    ensures PassInv(After(y, step))
  {
    var z := After(y, step);
    StepKeepsOnePass(y, step);
    forall j | j in z.janitors
      ensures SnapshotInv(z.ledger.store.started, z.clock, z.janitors[j])
    {
      OneJanitor(y, step, j);
    }
  }

  lemma OneJanitor(y: System, step: Step, j: nat)
    requires OrderInv(y) && PassInv(y) && Enabled(y, step) && Careful(y, step) && j in After(y, step).janitors
    ensures SnapshotInv(After(y, step).ledger.store.started, After(y, step).clock, After(y, step).janitors[j])
  {
    if step.Visit? && step.j == j {
      VisitKeepsSnapshot(y, j);
    } else if (step.ReadStamps? || step.ReadList? || step.ReadClock? || step.Clear?) && step.j == j {
      ReadKeepsSnapshot(y, step);
    } else {
      assert j in y.janitors && After(y, step).janitors[j] == y.janitors[j];
      SnapshotStays(y, step, j);
    }
  }

  // ---------------------------------------------------------------- careful runs are timely

  /** The rescue's start time was overdue when it was read, so it is still in the hash. */
  lemma CarefulIsTimely(y: System, step: Step)
    requires TimedInv(y) && PassInv(y) && Enabled(y, step) && Careful(y, step)
    ensures Timely(y, step)
  {
    if Rescues(y, step) {
      var jan := y.janitors[step.j];
      var id := jan.list[jan.next].taskId;
      assert SnapshotInv(y.ledger.store.started, y.clock, jan);
      assert JanitorInv(y.clock, jan);
      assert StillThere(y.ledger.store.started, jan.stamps, jan.since, id);
      assert Overdue(jan.stamps[id], jan.since);
    }
  }

  lemma {:induction false} CarefulRunsAreTimely(steps: seq<Step>)
    requires IsRun(steps) && IsCarefulRun(steps)
    ensures IsTimelyRun(steps) && PassInv(Play(steps))
  {
    if steps != [] {
      var before, last := steps[..|steps| - 1], steps[|steps| - 1];
      CarefulRunsAreTimely(before);
      TimedInvHolds(before);
      CarefulIsTimely(Play(before), last);
      StepKeepsPassInv(Play(before), last);
    }
  }

  /**
  With passes that do not overlap, read the clock less than 20 seconds after the start times and never decide by the
  creation time, with thresholds of two minutes and punctual acks, each pending id has exactly one queued entry.
  */
  lemma CarefulRunsAreSafe(steps: seq<Step>)
    requires IsRun(steps) && IsCarefulRun(steps)
    ensures ProperRun(Trace(steps)) && SingleLive(Play(steps).ledger.store)
  {
    CarefulRunsAreTimely(steps);
    TimelyRunsAreSafe(steps);
  }
}
