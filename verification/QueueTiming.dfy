/**
The queue against the clock: when a rescue may put a task back so that each pending id keeps exactly one queued
entry, and that the configured timeouts see to it.
*/
module QueueTiming {
  import opened TaskText
  import opened QueueStore
  import opened QueueRuns

  const TASK_TIMEOUT := 90_000
  const REDIS_TIMEOUT := 5_000
  const ACK_DEADLINE := TASK_TIMEOUT + REDIS_TIMEOUT + REDIS_TIMEOUT
  const LEAST_THRESHOLD := 120

  // ---------------------------------------------------------------- timed steps and runs

  /**
  The clock side of a step. A worker that acks has its fetch result within the task timeout of its start time and
  each of the two Redis calls within their timeout; otherwise it never acks. Ids are not removed from the pending
  set by hand.
  */
  predicate Punctual(y: System, step: Step)
    requires Enabled(y, step)
  {
    match step
    case Finish(w, _) => y.clock <= y.workers[w].startedAt + TASK_TIMEOUT
    case Answer(w, _) => y.workers[w].phase.Completed? ==> y.clock <= y.workers[w].phase.at + REDIS_TIMEOUT
    case AckDone(w) => y.clock <= y.workers[w].phase.at + REDIS_TIMEOUT
    case RemovePending(_) => false
    case _ => true
  }

  /** When a rescue takes an entry out of processing, the start time it was decided by is still the one in the hash. */
  predicate DecidedByCurrentStamp(y: System, step: Step)
    requires Enabled(y, step)
  {
    step.Visit? ==>
      var jan, started := y.janitors[step.j], y.ledger.store.started;
      var e := jan.list[jan.next];
      FindsStuck(jan) && e in y.ledger.store.processing ==>
        e.taskId in jan.stamps && e.taskId in started && started[e.taskId] == jan.stamps[e.taskId]
  }

  /** Thresholds are two minutes or more. */
  predicate Patient(step: Step) {
    step.ReadStamps? ==> step.threshold >= LEAST_THRESHOLD
  }

  predicate Timely(y: System, step: Step)
    requires Enabled(y, step)
  {
    Punctual(y, step) && Patient(step) && DecidedByCurrentStamp(y, step)
  }

  /** The delivery can still reach its ack in time. */
  predicate MayAck(k: Worker, clock: int) {
    match k.phase
    case Popped => true
    case Running => clock <= k.startedAt + TASK_TIMEOUT
    case Completed(at, _) => clock <= at + REDIS_TIMEOUT
    case Answered(at) => clock <= at + REDIS_TIMEOUT
    case Abandoned(_) => false
    case Done => false
  }

  /** The step puts an entry back. */
  predicate Rescues(y: System, step: Step)
    requires Enabled(y, step)
  {
    step.Visit? && FindsStuck(y.janitors[step.j]) && Target(y, step.j) in y.ledger.store.processing
  }

  /** The entry a sweeping janitor looks at. */
  function Target(y: System, j: nat): Entry
    requires Enabled(y, Visit(j))
  {
    y.janitors[j].list[y.janitors[j].next]
  }

  predicate HolderMayAck(y: System, id: Id) {
    id in y.holder && y.holder[id] in y.workers && MayAck(y.workers[y.holder[id]], y.clock)
  }

  /** A rescue comes when the delivery that holds the entry can no longer ack in time. */
  predicate LateRescue(y: System, step: Step)
    requires Enabled(y, step)
  {
    Rescues(y, step) ==> !HolderMayAck(y, Target(y, step.j).taskId)
  }

  predicate Orderly(y: System, step: Step)
    requires Enabled(y, step)
  {
    Punctual(y, step) && LateRescue(y, step)
  }

  predicate IsTimelyRun(steps: seq<Step>)
    requires IsRun(steps)
  {
    steps == [] ||
    (IsTimelyRun(steps[..|steps| - 1]) && Timely(Play(steps[..|steps| - 1]), steps[|steps| - 1]))
  }

  predicate IsOrderlyRun(steps: seq<Step>)
    requires IsRun(steps)
  {
    steps == [] ||
    (IsOrderlyRun(steps[..|steps| - 1]) && Orderly(Play(steps[..|steps| - 1]), steps[|steps| - 1]))
  }

  /** The part of the state the timing argument is about; `running` counts the ids in the processing list. */
  datatype Core = Core(running: multiset<Id>, started: map<Id, int>, clock: nat, workers: map<nat, Worker>, holder: map<Id, nat>)

  function CoreOf(y: System): Core {
    Core(Ids(y.ledger.store.processing), y.ledger.store.started, y.clock, y.workers, y.holder)
  }

  /** Delivery `w` of task `id` is the one the entry in the processing list belongs to. */
  predicate Holds(holder: map<Id, nat>, w: nat, id: Id) {
    id in holder && holder[id] == w
  }

  /** A delivery that may still ack holds its entry, and its phases have kept their deadlines. */
  predicate WorkerInv(c: Core, w: nat, k: Worker) {
    && (MayAck(k, c.clock) ==> Holds(c.holder, w, k.req.taskId))
    && match k.phase
       case Popped => k.req.taskId !in c.started
       case Completed(at, _) => at <= k.startedAt + TASK_TIMEOUT
       case Answered(at) => at <= k.startedAt + TASK_TIMEOUT + REDIS_TIMEOUT
       case _ => true
  }

  /** A start time in the hash is the one of the delivery that holds the id. */
  predicate StampInv(c: Core, id: Id)
    requires id in c.started
  {
    id in c.holder && c.holder[id] in c.workers && c.started[id] == c.workers[c.holder[id]].startedAt / 1000
  }

  predicate HolderInv(c: Core, id: Id) {
    (id in c.holder <==> id in c.running) &&
    (id in c.holder ==> c.holder[id] in c.workers && c.workers[c.holder[id]].req.taskId == id)
  }

  ghost predicate CoreInv(c: Core) {
    && (forall id: Id :: HolderInv(c, id))
    && (forall w :: w in c.workers ==> WorkerInv(c, w, c.workers[w]))
    && (forall id :: id in c.started ==> StampInv(c, id))
  }

  predicate JanitorInv(clock: nat, jan: Janitor) {
    match jan
    case HasStamps(threshold, _, _) => threshold >= LEAST_THRESHOLD
    case HasList(threshold, _, _, _) => threshold >= LEAST_THRESHOLD
    case Sweeping(threshold, _, _, _, now, _) => threshold >= LEAST_THRESHOLD && now <= clock / 1000
    case Clearing(_) => true
  }

  predicate JanitorsInv(y: System) {
    forall j :: j in y.janitors ==> JanitorInv(y.clock, y.janitors[j])
  }

  /** What orderly steps keep. */
  ghost predicate OrderInv(y: System) {
    SingleLive(y.ledger.store) && CoreInv(CoreOf(y))
  }

  /** What timely steps keep. */
  ghost predicate TimedInv(y: System) {
    OrderInv(y) && JanitorsInv(y)
  }

  // What each kind of step does to the core.

  /** A worker changes phase and time may pass, but nobody's hold changes. */
  lemma CoreQuiet(c: Core, d: Core)
    requires CoreInv(c)
    requires d.running == c.running && d.holder == c.holder && d.clock >= c.clock && d.workers.Keys == c.workers.Keys
    requires d.started.Keys <= c.started.Keys && forall id :: id in d.started ==> d.started[id] == c.started[id]
    requires forall w :: w in c.workers ==>
               d.workers[w].req == c.workers[w].req && d.workers[w].startedAt == c.workers[w].startedAt
    requires forall w :: w in c.workers ==> d.workers[w] == c.workers[w] || WorkerInv(d, w, d.workers[w])
    ensures CoreInv(d)
  {
    forall id: Id
      ensures HolderInv(d, id)
    {
      assert HolderInv(c, id);
    }
    forall w | w in d.workers
      ensures WorkerInv(d, w, d.workers[w])
    {
      assert WorkerInv(c, w, c.workers[w]);
    }
    forall id | id in d.started
      ensures StampInv(d, id)
    {
      assert StampInv(c, id);
    }
  }

  /** Worker `w` moves on to a phase that respects the deadlines. */
  lemma CorePhase(c: Core, w: nat, phase: Phase)
    requires CoreInv(c) && w in c.workers && WorkerInv(c, w, c.workers[w].(phase := phase))
    ensures CoreInv(c.(workers := c.workers[w := c.workers[w].(phase := phase)]))
  {
    CoreQuiet(c, c.(workers := c.workers[w := c.workers[w].(phase := phase)]));
  }

  lemma CoreTake(c: Core, w: nat, req: Entry)
    requires CoreInv(c) && w !in c.workers && req.taskId !in c.running
    ensures CoreInv(c.(running := c.running + multiset{req.taskId}, workers := c.workers[w := Worker(req, 0, Popped)],
                       holder := c.holder[req.taskId := w]))
  {
    var d := c.(running := c.running + multiset{req.taskId}, workers := c.workers[w := Worker(req, 0, Popped)],
                holder := c.holder[req.taskId := w]);
    assert HolderInv(c, req.taskId);
    assert req.taskId in c.started ==> StampInv(c, req.taskId);
    forall id: Id
      ensures HolderInv(d, id)
    {
      assert HolderInv(c, id);
    }
    forall v | v in d.workers
      ensures WorkerInv(d, v, d.workers[v])
    {
      assert v != w ==> WorkerInv(c, v, c.workers[v]);
    }
    forall id | id in d.started
      ensures StampInv(d, id)
    {
      assert StampInv(c, id);
    }
  }

  lemma CoreBegin(c: Core, w: nat, stamped: bool)
    requires CoreInv(c) && w in c.workers && c.workers[w].phase.Popped?
    ensures var req := c.workers[w].req;
            CoreInv(c.(started := if stamped then c.started[req.taskId := c.clock / 1000] else c.started,
                       workers := c.workers[w := Worker(req, c.clock, Running)]))
  {
    var req := c.workers[w].req;
    var d := c.(started := if stamped then c.started[req.taskId := c.clock / 1000] else c.started,
                workers := c.workers[w := Worker(req, c.clock, Running)]);
    assert WorkerInv(c, w, c.workers[w]);
    forall id: Id
      ensures HolderInv(d, id)
    {
      assert HolderInv(c, id);
    }
    forall v | v in d.workers
      ensures WorkerInv(d, v, d.workers[v])
    {
      assert WorkerInv(c, v, c.workers[v]);
    }
    forall id | id in d.started
      ensures StampInv(d, id)
    {
      assert id in c.started ==> StampInv(c, id);
      assert HolderInv(c, id);
    }
  }

  /** The id leaves the processing list, by ack or rescue, once its holder is past acking. */
  lemma CoreRelease(c: Core, id: Id, rest: multiset<Id>, workers: map<nat, Worker>)
    requires CoreInv(c) && id !in rest && c.running == rest + multiset{id} && workers.Keys == c.workers.Keys
    requires forall w :: w in c.workers && c.workers[w] != workers[w] ==>
               workers[w] == c.workers[w].(phase := Done) && Holds(c.holder, w, id) && c.workers[w].req.taskId == id
    requires forall w :: w in workers && workers[w].req.taskId == id && Holds(c.holder, w, id) ==>
               !MayAck(workers[w], c.clock)
    ensures CoreInv(Core(rest, c.started - {id}, c.clock, workers, c.holder - {id}))
  {
    var d := Core(rest, c.started - {id}, c.clock, workers, c.holder - {id});
    forall i: Id
      ensures HolderInv(d, i)
    {
      assert HolderInv(c, i);
      assert c.running[i] == rest[i] + multiset{id}[i];
    }
    forall w | w in d.workers
      ensures WorkerInv(d, w, d.workers[w])
    {
      assert WorkerInv(c, w, c.workers[w]);
    }
    forall i | i in d.started
      ensures StampInv(d, i)
    {
      assert StampInv(c, i);
    }
  }

  lemma AckReleases(c: Core, w: nat)
    requires CoreInv(c) && w in c.workers && Holds(c.holder, w, c.workers[w].req.taskId)
    requires c.running[c.workers[w].req.taskId] == 1
    ensures var k := c.workers[w];
            CoreInv(Core(c.running - multiset{k.req.taskId}, c.started - {k.req.taskId}, c.clock,
                         c.workers[w := k.(phase := Done)], c.holder - {k.req.taskId}))
  {
    var id := c.workers[w].req.taskId;
    TakeOneOut(c.running, id);
    CoreRelease(c, id, c.running - multiset{id}, c.workers[w := c.workers[w].(phase := Done)]);
  }

  // The steps of the system.

  lemma AckHitsNoWaitingTask(y: System, w: nat)
    requires OrderInv(y) && Enabled(y, AckDone(w)) && Punctual(y, AckDone(w))
    ensures Holds(y.holder, w, y.workers[w].req.taskId)
    ensures Ids(y.ledger.store.processing)[y.workers[w].req.taskId] == 1
    ensures y.workers[w].req.taskId !in Ids(y.ledger.store.tasks)
  {
    var c, id := CoreOf(y), y.workers[w].req.taskId;
    assert WorkerInv(c, w, c.workers[w]);
    assert HolderInv(c, id);
    OnceAndPending(y.ledger.store, id);
  }

  lemma TakeOneOut(m: multiset<Id>, id: Id)
    requires m[id] == 1
    ensures id !in m - multiset{id} && m == (m - multiset{id}) + multiset{id}
  {
  }

  lemma AckMoves(y: System, w: nat)
    requires Enabled(y, AckDone(w))
    ensures var z, id := After(y, AckDone(w)), y.workers[w].req.taskId;
            && z.ledger.store == Apply(y.ledger.store, Ack(id)) && z.clock == y.clock
            && z.workers == Moved(y, w, Done) && z.holder == y.holder - {id}
  {
  }

  lemma AckCore(y: System, w: nat)
    requires Enabled(y, AckDone(w))
    ensures var c, k := CoreOf(y), y.workers[w];
            CoreOf(After(y, AckDone(w))) ==
              Core(c.running - multiset{k.req.taskId}, c.started - {k.req.taskId}, c.clock,
                   c.workers[w := k.(phase := Done)], c.holder - {k.req.taskId})
  {
    AckMoves(y, w);
    AckKeepsOtherIds(y.ledger.store, y.workers[w].req.taskId);
    assert Apply(y.ledger.store, Ack(y.workers[w].req.taskId)).started == y.ledger.store.started - {y.workers[w].req.taskId};
  }

  lemma AckKeepsOrderInv(y: System, w: nat)
    requires OrderInv(y) && Enabled(y, AckDone(w)) && Punctual(y, AckDone(w))
    ensures OrderInv(After(y, AckDone(w)))
  {
    AckHitsNoWaitingTask(y, w);
    assert CoreInv(CoreOf(After(y, AckDone(w)))) by {
      AckReleases(CoreOf(y), w);
      AckCore(y, w);
    }
    ApplyKeepsSingleLive(y.ledger.store, Ack(y.workers[w].req.taskId));
  }

  lemma TakeKeepsOrderInv(y: System, w: nat)
    requires OrderInv(y) && Enabled(y, Take(w))
    ensures OrderInv(After(y, Take(w)))
  {
    var s := y.ledger.store;
    var req := s.tasks[|s.tasks| - 1];
    ApplyKeepsSingleLive(s, Pop);
    PopMovesIds(s);
    IdsOfMember(s.tasks, req);
    OnceAndPending(s, req.taskId);
    CoreTake(CoreOf(y), w, req);
  }

  lemma RescueCore(y: System, j: nat)
    requires Enabled(y, Visit(j)) && Rescues(y, Visit(j))
    ensures var c, e := CoreOf(y), Target(y, j);
            CoreOf(After(y, Visit(j))) ==
              Core(Ids(Apply(y.ledger.store, Rescue(e)).processing), c.started - {e.taskId}, c.clock, c.workers,
                   c.holder - {e.taskId})
  {
  }

  lemma RescueTakesOne(s: Store, e: Entry)
    requires SingleLive(s) && e in s.processing
    ensures var rest := Ids(Apply(s, Rescue(e)).processing);
            e.taskId !in rest && Ids(s.processing) == rest + multiset{e.taskId}
  {
    RescueMoves(s, e);
    OnceAndPending(s, e.taskId);
    var rest := Ids(Apply(s, Rescue(e)).processing);
    assert Ids(s.processing)[e.taskId] == rest[e.taskId] + 1;
  }

  /** The entry leaves the processing list and its id is released. */
  lemma RescueReleases(y: System, j: nat)
    requires OrderInv(y) && Enabled(y, Visit(j)) && Rescues(y, Visit(j)) && LateRescue(y, Visit(j))
    ensures CoreInv(CoreOf(After(y, Visit(j))))
  {
    var s, e := y.ledger.store, Target(y, j);
    RescueTakesOne(s, e);
    CoreRelease(CoreOf(y), e.taskId, Ids(Apply(s, Rescue(e)).processing), y.workers);
    RescueCore(y, j);
  }

  lemma RescueKeepsOrderInv(y: System, j: nat)
    requires OrderInv(y) && Enabled(y, Visit(j)) && Rescues(y, Visit(j)) && LateRescue(y, Visit(j))
    ensures OrderInv(After(y, Visit(j)))
  {
    RescueReleases(y, j);
    ApplyKeepsSingleLive(y.ledger.store, Rescue(Target(y, j)));
  }

  lemma WorkerStepKeepsOrderInv(y: System, step: Step)
    requires OrderInv(y) && Enabled(y, step) && Punctual(y, step)
    requires step.Finish? || step.Abandon? || step.Answer?
    ensures OrderInv(After(y, step))
  {
    var c, z := CoreOf(y), After(y, step);
    assert WorkerInv(c, step.w, c.workers[step.w]);
    CorePhase(c, step.w, z.workers[step.w].phase);
    assert z.workers == Moved(y, step.w, z.workers[step.w].phase);
  }

  lemma ClockStepKeepsOrderInv(y: System, step: Step)
    requires OrderInv(y) && Enabled(y, step) && step.Tick?
    ensures OrderInv(After(y, step))
  {
    CoreQuiet(CoreOf(y), CoreOf(After(y, step)));
  }

  /** Janitor steps that leave both lists alone. */
  lemma JanitorStepKeepsOrderInv(y: System, step: Step)
    requires OrderInv(y) && Enabled(y, step) && !Rescues(y, step)
    requires step.ReadStamps? || step.ReadList? || step.ReadClock? || step.Visit?
    ensures OrderInv(After(y, step))
  {
    var z := After(y, step);
    assert z.ledger.store == y.ledger.store && CoreOf(z) == CoreOf(y);
  }

  lemma ClearKeepsOrderInv(y: System, j: nat, id: Id)
    requires OrderInv(y) && Enabled(y, Clear(j, id))
    ensures OrderInv(After(y, Clear(j, id)))
  {
    CoreQuiet(CoreOf(y), CoreOf(After(y, Clear(j, id))));
  }

  lemma BeginKeepsOrderInv(y: System, w: nat, stamped: bool)
    requires OrderInv(y) && Enabled(y, Begin(w, stamped))
    ensures OrderInv(After(y, Begin(w, stamped)))
  {
    CoreBegin(CoreOf(y), w, stamped);
  }

  lemma SubmitKeepsOrderInv(y: System, e: Entry)
    requires OrderInv(y) && Enabled(y, Submit(e))
    ensures OrderInv(After(y, Submit(e)))
  {
    ApplyKeepsSingleLive(y.ledger.store, Push(e));
    assert CoreOf(After(y, Submit(e))) == CoreOf(y);
  }

  lemma StepKeepsOrderInv(y: System, step: Step)
    requires OrderInv(y) && Enabled(y, step) && Orderly(y, step)
    ensures OrderInv(After(y, step))
  {
    if step.Take? {
      TakeKeepsOrderInv(y, step.w);
    } else if step.AckDone? {
      AckKeepsOrderInv(y, step.w);
    } else if step.Begin? {
      BeginKeepsOrderInv(y, step.w, step.stamped);
    } else if step.Submit? {
      SubmitKeepsOrderInv(y, step.e);
    } else if step.Tick? {
      ClockStepKeepsOrderInv(y, step);
    } else if step.Clear? {
      ClearKeepsOrderInv(y, step.j, step.id);
    } else if step.Finish? || step.Abandon? || step.Answer? {
      WorkerStepKeepsOrderInv(y, step);
    } else if Rescues(y, step) {
      RescueKeepsOrderInv(y, step.j);
    } else {
      JanitorStepKeepsOrderInv(y, step);
    }
  }

  lemma InitIsOrdered()
    ensures TimedInv(INIT)
  {
  }

  lemma {:induction false} OrderInvHolds(steps: seq<Step>)
    requires IsRun(steps) && IsOrderlyRun(steps)
    ensures OrderInv(Play(steps))
  {
    if steps == [] {
      InitIsOrdered();
    } else {
      var before := steps[..|steps| - 1];
      OrderInvHolds(before);
      StepKeepsOrderInv(Play(before), steps[|steps| - 1]);
    }
  }

  lemma ProperRunExtends(done: seq<Op>, ops: seq<Op>)
    requires ProperRun(done) && |ops| <= 1 && (ops != [] ==> Proper(Exec(done).store, ops[0]))
    ensures ProperRun(done + ops)
  {
    forall i | 0 <= i < |done + ops|
      ensures Proper(Exec((done + ops)[..i]).store, (done + ops)[i])
    {
      assert (done + ops)[..i] == if i < |done| then done[..i] else done;
    }
  }

  lemma OrderlyCommandIsProper(y: System, step: Step)
    requires OrderInv(y) && Enabled(y, step) && Orderly(y, step) && Commands(y, step) != []
    ensures Proper(y.ledger.store, Commands(y, step)[0])
  {
    if step.AckDone? {
      AckHitsNoWaitingTask(y, step.w);
    }
  }

  /** In every orderly run no ack names a task that waits in the task list. */
  lemma {:induction false} OrderlyTraceIsProper(steps: seq<Step>)
    requires IsRun(steps) && IsOrderlyRun(steps)
    ensures ProperRun(Trace(steps))
  {
    if steps != [] {
      var before, last := steps[..|steps| - 1], steps[|steps| - 1];
      OrderlyTraceIsProper(before);
      OrderInvHolds(before);
      RunsAreStoreRuns(before);
      var ops := Commands(Play(before), last);
      if ops != [] {
        OrderlyCommandIsProper(Play(before), last);
      }
      ProperRunExtends(Trace(before), ops);
    }
  }

  /**
  If every rescue comes when the delivery that holds the entry can no longer ack in time, each pending id has
  exactly one queued entry.
  */
  lemma OrderlyRunsAreSafe(steps: seq<Step>)
    requires IsRun(steps) && IsOrderlyRun(steps)
    ensures ProperRun(Trace(steps))
    ensures SingleLive(Play(steps).ledger.store)
  {
    OrderlyTraceIsProper(steps);
    OneLiveEntry(Trace(steps));
    RunsAreStoreRuns(steps);
  }

  // ---------------------------------------------------------------- that condition is exact

  /** Orderly steps from state `y` on. */
  predicate OrderlyFrom(y: System, steps: seq<Step>)
    decreases |steps|
  {
    steps == [] ||
    (Enabled(y, steps[0]) && Orderly(y, steps[0]) && OrderlyFrom(After(y, steps[0]), steps[1..]))
  }

  function PlayFrom(y: System, steps: seq<Step>): System
    requires OrderlyFrom(y, steps)
    decreases |steps|
  {
    if steps == [] then y else PlayFrom(After(y, steps[0]), steps[1..])
  }

  lemma {:induction false} StaysOrdered(y: System, steps: seq<Step>)
    requires OrderInv(y) && OrderlyFrom(y, steps)
    ensures OrderInv(PlayFrom(y, steps))
    decreases |steps|
  {
    if steps != [] {
      StepKeepsOrderInv(y, steps[0]);
      StaysOrdered(After(y, steps[0]), steps[1..]);
    }
  }

  /** The worker's next step on its way to the ack, all of it without delay. */
  function NextStep(w: nat, k: Worker): Step {
    match k.phase
    case Popped => Begin(w, true)
    case Running => Finish(w, Ok(Some("")))
    case Completed(_, _) => Answer(w, true)
    case _ => AckDone(w)
  }

  lemma FirstThen(y: System, step: Step, rest: seq<Step>)
    requires Enabled(y, step) && Orderly(y, step) && OrderlyFrom(After(y, step), rest)
    ensures OrderlyFrom(y, [step] + rest) && PlayFrom(y, [step] + rest) == PlayFrom(After(y, step), rest)
  {
    assert ([step] + rest)[1..] == rest;
  }

  /** A worker's step before the ack changes nothing but start times in the store. */
  lemma WorkerGoesOn(y: System, w: nat)
    requires w in y.workers && MayAck(y.workers[w], y.clock) && !y.workers[w].phase.Answered?
    ensures var step := NextStep(w, y.workers[w]);
            && Enabled(y, step) && Orderly(y, step)
            && var z := After(y, step);
               && z.ledger.store == y.ledger.store.(started := z.ledger.store.started)
               && w in z.workers && z.workers[w].req == y.workers[w].req && MayAck(z.workers[w], z.clock)
               && z.workers[w].phase == match y.workers[w].phase
                                        case Popped => Running
                                        case Running => Completed(y.clock, Some(Response(y.workers[w].req.taskId, "", "")))
                                        case _ => Answered(y.clock)
  {
  }

  function StepsToAck(phase: Phase): nat {
    match phase
    case Popped => 3
    case Running => 2
    case Completed(_, _) => 1
    case _ => 0
  }

  /** A worker that may still ack, for a task that waits again, goes on to break the invariant in good time. */
  lemma {:induction false} AckOfWaitingTask(y: System, w: nat) returns (more: seq<Step>)
    requires w in y.workers && MayAck(y.workers[w], y.clock)
    requires SingleLive(y.ledger.store) && y.workers[w].req.taskId in Ids(y.ledger.store.tasks)
    ensures OrderlyFrom(y, more) && !SingleLive(PlayFrom(y, more).ledger.store)
    decreases StepsToAck(y.workers[w].phase)
  {
    if y.workers[w].phase.Answered? {
      AckKeepsSingleLive(y.ledger.store, y.workers[w].req.taskId);
      FirstThen(y, AckDone(w), []);
      more := [AckDone(w)] + [];
    } else {
      var step := NextStep(w, y.workers[w]);
      WorkerGoesOn(y, w);
      more := AckOfWaitingTask(After(y, step), w);
      FirstThen(y, step, more);
      more := [step] + more;
    }
  }

  lemma EarlyRescueBreaks(y: System, j: nat) returns (more: seq<Step>)
    requires OrderInv(y) && Enabled(y, Visit(j)) && Rescues(y, Visit(j)) && !LateRescue(y, Visit(j))
    ensures OrderlyFrom(After(y, Visit(j)), more) && !SingleLive(PlayFrom(After(y, Visit(j)), more).ledger.store)
  {
    var e, s, z := Target(y, j), y.ledger.store, After(y, Visit(j));
    assert HolderInv(CoreOf(y), e.taskId);
    RescueMoves(s, e);
    ApplyKeepsSingleLive(s, Rescue(e));
    assert z.ledger.store == Apply(s, Rescue(e));
    more := AckOfWaitingTask(z, y.holder[e.taskId]);
  }

  /**
  The condition on rescues is exact. In any state with the invariant, a rescue is safe, whatever orderly steps
  follow, if and only if the delivery that holds the entry can no longer ack in time.
  */
  lemma RescueIsSafeExactlyWhenLate(y: System, j: nat)
    requires OrderInv(y) && Enabled(y, Visit(j)) && Rescues(y, Visit(j))
    ensures !HolderMayAck(y, Target(y, j).taskId) <==>
              forall more :: OrderlyFrom(After(y, Visit(j)), more) ==>
                SingleLive(PlayFrom(After(y, Visit(j)), more).ledger.store)
  {
    if HolderMayAck(y, Target(y, j).taskId) {
      var more := EarlyRescueBreaks(y, j);
    } else {
      RescueKeepsOrderInv(y, j);
      forall more | OrderlyFrom(After(y, Visit(j)), more)
        ensures SingleLive(PlayFrom(After(y, Visit(j)), more).ledger.store)
      {
        StaysOrdered(After(y, Visit(j)), more);
      }
    }
  }

  // ---------------------------------------------------------------- the configured timeouts meet the condition

  /** A rescue that takes an entry away comes after the deadline of the delivery that held it. */
  lemma RescueComesAfterDeadline(y: System, j: nat)
    requires TimedInv(y) && Enabled(y, Visit(j)) && Timely(y, Visit(j)) && Rescues(y, Visit(j))
    ensures var id := Target(y, j).taskId;
            && id in y.holder && y.holder[id] in y.workers && !y.workers[y.holder[id]].phase.Popped?
            && y.clock > y.workers[y.holder[id]].startedAt + ACK_DEADLINE && !HolderMayAck(y, id)
  {
    var jan, c := y.janitors[j], CoreOf(y);
    var id := jan.list[jan.next].taskId;
    assert JanitorInv(y.clock, jan);
    assert StampInv(c, id);
    assert HolderInv(c, id);
    assert WorkerInv(c, c.holder[id], c.workers[c.holder[id]]);
  }

  lemma TimelyIsOrderly(y: System, step: Step)
    requires TimedInv(y) && Enabled(y, step) && Timely(y, step)
    ensures Orderly(y, step)
  {
    if Rescues(y, step) {
      RescueComesAfterDeadline(y, step.j);
    }
  }

  lemma StepKeepsJanitors(y: System, step: Step)
    requires JanitorsInv(y) && Enabled(y, step) && Patient(step)
    ensures JanitorsInv(After(y, step))
  {
    var z := After(y, step);
    forall j | j in z.janitors
      ensures JanitorInv(z.clock, z.janitors[j])
    {
      assert j in y.janitors ==> JanitorInv(y.clock, y.janitors[j]);
    }
  }

  lemma StepKeepsTimedInv(y: System, step: Step)
    requires TimedInv(y) && Enabled(y, step) && Timely(y, step)
    ensures TimedInv(After(y, step))
  {
    TimelyIsOrderly(y, step);
    StepKeepsOrderInv(y, step);
    StepKeepsJanitors(y, step);
  }

  lemma {:induction false} TimedInvHolds(steps: seq<Step>)
    requires IsRun(steps) && IsTimelyRun(steps)
    ensures TimedInv(Play(steps)) && IsOrderlyRun(steps)
  {
    if steps == [] {
      InitIsOrdered();
    } else {
      var before := steps[..|steps| - 1];
      TimedInvHolds(before);
      TimelyIsOrderly(Play(before), steps[|steps| - 1]);
      StepKeepsTimedInv(Play(before), steps[|steps| - 1]);
    }
  }

  /**
  In every timely run no ack names a task that waits in the task list, and so each pending id has exactly one
  queued entry.
  */
  lemma TimelyRunsAreSafe(steps: seq<Step>)
    requires IsRun(steps) && IsTimelyRun(steps)
    ensures ProperRun(Trace(steps))
    ensures SingleLive(Play(steps).ledger.store)
  {
    TimedInvHolds(steps);
    OrderlyRunsAreSafe(steps);
  }

  // ---------------------------------------------------------------- why the start time must be current

  /**
  Good timing alone is not enough. Take any state of a timely run in which a worker is about to ack in time, and
  let a janitor put that worker's entry back, as one deciding by an outdated start time can: the ack then leaves
  the task waiting without its id in the pending set.
  */
  lemma RescueBeforeAckBreaks(y: System, j: nat, w: nat)
    requires TimedInv(y) && Enabled(y, Visit(j)) && Enabled(y, AckDone(w)) && Timely(y, AckDone(w))
    requires FindsStuck(y.janitors[j]) && y.janitors[j].list[y.janitors[j].next] in y.ledger.store.processing
    requires y.janitors[j].list[y.janitors[j].next].taskId == y.workers[w].req.taskId
    ensures var z := After(y, Visit(j));
            && Enabled(z, AckDone(w)) && Punctual(z, AckDone(w)) && SingleLive(z.ledger.store)
            && !SingleLive(After(z, AckDone(w)).ledger.store) && !DecidedByCurrentStamp(y, Visit(j))
  {
    var e, s := y.janitors[j].list[y.janitors[j].next], y.ledger.store;
    RescueMoves(s, e);
    ApplyKeepsSingleLive(s, Rescue(e));
    AckKeepsSingleLive(Apply(s, Rescue(e)), e.taskId);
    AckHitsNoWaitingTask(y, w);
    if DecidedByCurrentStamp(y, Visit(j)) {
      assert WorkerInv(CoreOf(y), w, y.workers[w]);
      RescueComesAfterDeadline(y, j);
    }
  }

  /** The state is reached by a timely run. */
  ghost predicate Reached(y: System) {
    exists steps :: IsRun(steps) && IsTimelyRun(steps) && Play(steps) == y
  }

  lemma StartIsReached()
    ensures Reached(INIT)
  {
    assert IsRun([]) && IsTimelyRun([]) && Play([]) == INIT;
  }

  lemma StepIsReached(y: System, step: Step)
    requires Reached(y) && Enabled(y, step) && Timely(y, step)
    ensures Reached(After(y, step))
  {
    var steps :| IsRun(steps) && IsTimelyRun(steps) && Play(steps) == y;
    var more := steps + [step];
    assert more[..|more| - 1] == steps;
    assert IsRun(more) && IsTimelyRun(more) && Play(more) == After(y, step);
  }

  /** Submit, take and begin, with the states in between. */
  lemma TaskBegins(e: Entry) returns (y1: System, y2: System, y3: System)
    requires e.taskId != ""
    ensures Enabled(INIT, Submit(e)) && Timely(INIT, Submit(e)) && y1 == After(INIT, Submit(e))
    ensures Enabled(y1, Take(0)) && Timely(y1, Take(0)) && y2 == After(y1, Take(0))
    ensures Enabled(y2, Begin(0, true)) && Timely(y2, Begin(0, true)) && y3 == After(y2, Begin(0, true))
    ensures y3.ledger.store == Store([], [e], {e.taskId}, map[e.taskId := 0])
    ensures y3.clock == 0 && y3.workers.Keys == {0} && y3.janitors == map[]
  {
    y1 := After(INIT, Submit(e));
    assert y1.ledger.store == Store([e], [], {e.taskId}, map[]);
    y2 := After(y1, Take(0));
    assert y2.ledger.store == Store([], [e], {e.taskId}, map[]);
    y3 := After(y2, Begin(0, true));
  }

  /** A worker takes a task and hangs until the clock shows `ms`. */
  lemma WorkerHangs(e: Entry, ms: nat) returns (y: System)
    requires e.taskId != ""
    ensures Reached(y) && y.clock == ms
    ensures y.ledger.store == Store([], [e], {e.taskId}, map[e.taskId := 0])
    ensures y.workers.Keys == {0} && y.janitors == map[]
  {
    var y1, y2, y3 := TaskBegins(e);
    StartIsReached();
    StepIsReached(INIT, Submit(e));
    StepIsReached(y1, Take(0));
    StepIsReached(y2, Begin(0, true));
    StepIsReached(y3, Tick(ms));
    y := After(y3, Tick(ms));
  }

  /** What a janitor that has just read everything knows. */
  function Look(y: System): Janitor {
    Sweeping(120, y.ledger.store.started, y.clock, y.ledger.store.processing, y.clock / 1000, 0)
  }

  lemma JanitorReadsOn(y: System, j: nat) returns (y1: System, y2: System)
    requires j in y.janitors && y.janitors[j].HasStamps? && y.ledger.store.processing != []
    ensures Enabled(y, ReadList(j)) && Timely(y, ReadList(j)) && y1 == After(y, ReadList(j))
    ensures Enabled(y1, ReadClock(j)) && Timely(y1, ReadClock(j)) && y2 == After(y1, ReadClock(j))
    ensures var jan := y.janitors[j];
            y2 == y.(janitors := y.janitors[j := Sweeping(jan.threshold, jan.stamps, jan.since, y.ledger.store.processing,
                                                          y.clock / 1000, 0)])
  {
    var jan, list := y.janitors[j], y.ledger.store.processing;
    y1 := y.(janitors := y.janitors[j := HasList(jan.threshold, jan.stamps, jan.since, list)]);
    var look := Sweeping(jan.threshold, jan.stamps, jan.since, list, y.clock / 1000, 0);
    y2 := y.(janitors := y.janitors[j := look]);
    assert y1.janitors[j := look] == y2.janitors;
  }

  lemma JanitorStarts(y: System, j: nat)
    requires Reached(y) && j !in y.janitors && y.ledger.store.started != map[]
    ensures Reached(y.(janitors := y.janitors[j := HasStamps(120, y.ledger.store.started, y.clock)]))
  {
    StepIsReached(y, ReadStamps(j, 120));
  }

  lemma JanitorGoesOn(y: System, j: nat)
    requires Reached(y) && j in y.janitors && y.janitors[j].HasStamps? && y.ledger.store.processing != []
    ensures var jan := y.janitors[j];
            Reached(y.(janitors := y.janitors[j := Sweeping(jan.threshold, jan.stamps, jan.since, y.ledger.store.processing,
                                                            y.clock / 1000, 0)]))
  {
    var y1, y2 := JanitorReadsOn(y, j);
    StepIsReached(y, ReadList(j));
    StepIsReached(y1, ReadClock(j));
  }

  /** A janitor reads the start times, the processing list and the clock. */
  lemma JanitorLooks(y: System, j: nat)
    requires Reached(y) && j !in y.janitors && y.ledger.store.started != map[] && y.ledger.store.processing != []
    ensures Reached(y.(janitors := y.janitors[j := Look(y)]))
  {
    var y1 := y.(janitors := y.janitors[j := HasStamps(120, y.ledger.store.started, y.clock)]);
    JanitorStarts(y, j);
    JanitorGoesOn(y1, j);
    assert y1.janitors[j := Look(y)] == y.janitors[j := Look(y)];
  }

  /** The first janitor's rescue is in good order: it decides by the start time that is in the hash. */
  lemma RescueInOrder(y: System, j: nat, e: Entry)
    requires y.ledger.store == Store([], [e], {e.taskId}, map[e.taskId := 0]) && e.taskId != ""
    requires j in y.janitors && y.janitors[j] == Sweeping(120, map[e.taskId := 0], 200_000, [e], 200, 0)
    ensures Enabled(y, Visit(j)) && Timely(y, Visit(j))
    ensures var z := After(y, Visit(j));
            && z.ledger.store.tasks == [e] && z.ledger.store.processing == [] && z.workers == y.workers
            && z.clock == y.clock && z.janitors == y.janitors[j := y.janitors[j].(next := 1)]
  {
    assert FindsStuck(y.janitors[j]);
    assert RemoveFirst([e], e) == [] && [e] + [] == [e];
    assert After(y, Visit(j)).ledger.store == Apply(y.ledger.store, Rescue(e));
  }

  /** Take, begin, finish and answer, with the states in between. */
  lemma TaskIsAnswered(y: System, w: nat, e: Entry) returns (y1: System, y2: System, y3: System, y4: System)
    requires w !in y.workers && y.ledger.store.tasks == [e]
    ensures Enabled(y, Take(w)) && Timely(y, Take(w)) && y1 == After(y, Take(w))
    ensures Enabled(y1, Begin(w, true)) && Timely(y1, Begin(w, true)) && y2 == After(y1, Begin(w, true))
    ensures var done := Finish(w, Ok(Some("")));
            Enabled(y2, done) && Timely(y2, done) && y3 == After(y2, done)
    ensures Enabled(y3, Answer(w, true)) && Timely(y3, Answer(w, true)) && y4 == After(y3, Answer(w, true))
    ensures y4.clock == y.clock && y4.janitors == y.janitors
    ensures y4.ledger.store.processing == [e] + y.ledger.store.processing
    ensures w in y4.workers && y4.workers[w] == Worker(e, y.clock, Answered(y.clock))
  {
    y1 := After(y, Take(w));
    var list := [e] + y.ledger.store.processing;
    assert y1.ledger.store.processing == list && y1.workers[w] == Worker(e, 0, Popped);
    y2 := After(y1, Begin(w, true));
    assert y2.ledger.store.processing == list && y2.workers[w] == Worker(e, y.clock, Running);
    y3 := After(y2, Finish(w, Ok(Some(""))));
    assert y3.ledger.store.processing == list && y3.workers[w].phase.Completed?;
    y4 := After(y3, Answer(w, true));
  }

  /** A worker takes the only waiting task, finishes it at once and is about to ack. */
  lemma WorkerAnswers(y: System, w: nat, e: Entry) returns (z: System)
    requires Reached(y) && w !in y.workers && y.ledger.store.tasks == [e]
    ensures Reached(z) && z.clock == y.clock && z.janitors == y.janitors
    ensures z.ledger.store.processing == [e] + y.ledger.store.processing
    ensures w in z.workers && z.workers[w] == Worker(e, y.clock, Answered(y.clock))
  {
    var y1, y2, y3, y4 := TaskIsAnswered(y, w, e);
    StepIsReached(y, Take(w));
    StepIsReached(y1, Begin(w, true));
    StepIsReached(y2, Finish(w, Ok(Some(""))));
    StepIsReached(y3, Answer(w, true));
    z := y4;
  }

  /** Two janitors look at the hanging worker's entry, and one of them puts it back. */
  lemma OneOfTwoRescues(e: Entry) returns (z: System)
    requires e.taskId != ""
    ensures Reached(z) && z.ledger.store.tasks == [e] && z.ledger.store.processing == [] && z.workers.Keys == {0}
    ensures 1 in z.janitors && z.janitors[1] == Sweeping(120, map[e.taskId := 0], 200_000, [e], 200, 0)
  {
    var y := WorkerHangs(e, 200_000);
    assert e.taskId in y.ledger.store.started;
    JanitorLooks(y, 0);
    var y1 := y.(janitors := map[0 := Look(y)]);
    JanitorLooks(y1, 1);
    var y2 := y.(janitors := y1.janitors[1 := Look(y)]);
    RescueInOrder(y2, 0, e);
    StepIsReached(y2, Visit(0));
    z := After(y2, Visit(0));
  }

  /**
  A timely run leads to a state in which a worker is about to ack in time while a janitor, still holding the start
  time of an earlier delivery, is about to put the worker's entry back; all deadlines are met, and the invariant
  is lost.
  */
  lemma OutdatedRescueBreaks(e: Entry) returns (y: System)
    requires e.taskId != ""
    ensures Reached(y) && Enabled(y, Visit(1)) && Enabled(After(y, Visit(1)), AckDone(1))
    ensures Punctual(y, Visit(1)) && Punctual(After(y, Visit(1)), AckDone(1)) && SingleLive(y.ledger.store)
    ensures !SingleLive(After(After(y, Visit(1)), AckDone(1)).ledger.store)
  {
    var z := OneOfTwoRescues(e);
    y := WorkerAnswers(z, 1, e);
    ReachedIsTimed(y);
    RescueBeforeAckBreaks(y, 1, 1);
  }

  /** A task waits for a long time while another worker hangs; a janitor then reads the start times. */
  lemma TaskWaits(e: Entry, other: Entry) returns (y: System)
    requires e.taskId != "" && other.taskId != "" && e.taskId != other.taskId && e.createdAt > 0
    ensures Reached(y) && y.clock == 1000 * e.createdAt + 200_000 && y.workers.Keys == {0}
    ensures y.ledger.store.tasks == [e] && y.ledger.store.processing == [other]
    ensures y.janitors == map[0 := HasStamps(120, map[other.taskId := 0], y.clock)]
  {
    var y1 := WorkerHangs(other, 1000 * e.createdAt);
    StepIsReached(y1, Submit(e));
    var y2 := After(y1, Submit(e));
    assert y2.ledger.store.tasks == [e] && y2.ledger.store.processing == [other];
    StepIsReached(y2, Tick(200_000));
    var y3 := After(y2, Tick(200_000));
    assert other.taskId in y3.ledger.store.started;
    JanitorStarts(y3, 0);
    y := y3.(janitors := y3.janitors[0 := HasStamps(120, y3.ledger.store.started, y3.clock)]);
  }

  /**
  One janitor alone breaks the invariant through the creation time: it reads the start times, a worker takes a task
  that waited for long, the janitor reads the list and finds the task there without a start time, puts it back
  because it was created long ago, and the worker acks in time.
  */
  lemma CreationTimeRescueBreaks(e: Entry, other: Entry) returns (y: System)
    requires e.taskId != "" && other.taskId != "" && e.taskId != other.taskId && e.createdAt > 0
    ensures Reached(y) && y.janitors.Keys == {0} && Enabled(y, Visit(0)) && Enabled(After(y, Visit(0)), AckDone(1))
    ensures Punctual(y, Visit(0)) && Punctual(After(y, Visit(0)), AckDone(1)) && SingleLive(y.ledger.store)
    ensures !SingleLive(After(After(y, Visit(0)), AckDone(1)).ledger.store)
  {
    y := JanitorMissesStart(e, other);
    ReachedIsTimed(y);
    RescueBeforeAckBreaks(y, 0, 1);
  }

  lemma JanitorMissesStart(e: Entry, other: Entry) returns (y: System)
    requires e.taskId != "" && other.taskId != "" && e.taskId != other.taskId && e.createdAt > 0
    ensures Reached(y) && y.janitors.Keys == {0} && e in y.ledger.store.processing
    ensures Enabled(y, Visit(0)) && Target(y, 0) == e && FindsStuck(y.janitors[0])
    ensures 1 in y.workers && y.workers[1] == Worker(e, y.clock, Answered(y.clock))
  {
    var y1 := TaskWaits(e, other);
    var y2 := WorkerAnswers(y1, 1, e);
    JanitorGoesOn(y2, 0);
    assert [e] + [other] == [e, other];
    y := y2.(janitors := y2.janitors[0 := Sweeping(120, map[other.taskId := 0], y2.clock, [e, other], y2.clock / 1000, 0)]);
  }

  lemma ReachedIsTimed(y: System)
    requires Reached(y)
    ensures TimedInv(y)
  {
    var steps :| IsRun(steps) && IsTimelyRun(steps) && Play(steps) == y;
    TimedInvHolds(steps);
  }
}
