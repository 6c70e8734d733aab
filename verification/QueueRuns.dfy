/**
Workers and janitors at work on the queue. Each Go method is broken into its single Redis commands, so
any number of workers and janitors interleave freely, and a janitor acts on snapshots that may be stale
by the time its rescue script runs. Time is one shared clock in milliseconds; start times are whole seconds.
*/
module QueueRuns {
  import opened TaskText
  import opened QueueStore

  datatype Option<T> = None | Some(value: T)

  datatype Response = Response(taskId: Id, items: string, errorMessage: string)

  /** What FetchItems hands back: a response that may be missing, or an error. */
  datatype Fetched = Ok(items: Option<string>) | Err(message: string)

  /** The response a worker pushes; an error without response is turned into one that carries the task id. */
  function ResponseFor(id: Id, f: Fetched): Option<Response> {
    match f
    case Ok(None) => None
    case Ok(Some(items)) => Some(Response(id, items, ""))
    case Err(message) => Some(Response(id, "", message))
  }

  datatype Phase =
    | Popped                                            // the entry is in processing, no start time yet
    | Running                                           // start time written, FetchItems under way
    | Completed(at: int, response: Option<Response>)    // FetchItems returned in time
    | Answered(at: int)                                 // result push attempted, ack comes next
    | Abandoned(response: Option<Response>)             // deadline or panic: a result, but no ack
    | Done

  /** One delivery of a task to one worker goroutine. */
  datatype Worker = Worker(req: Entry, startedAt: int, phase: Phase)

  /** RescueStuckTasks between its commands; `since` is bookkeeping: the clock when the start times were read. */
  datatype Janitor =
    | HasStamps(threshold: int, stamps: map<Id, int>, since: nat)
    | HasList(threshold: int, stamps: map<Id, int>, since: nat, list: seq<Entry>)
    | Sweeping(threshold: int, stamps: map<Id, int>, since: nat, list: seq<Entry>, now: int, next: nat)
    | Clearing(ids: set<Id>)

  datatype Event = ResultPushed(worker: nat, response: Response) | TaskAcked(worker: nat, id: Id)

  /** `holder` is bookkeeping: which delivery put an id into the processing list. */
  datatype System = System(ledger: Ledger, clock: nat, workers: map<nat, Worker>, janitors: map<nat, Janitor>,
                           holder: map<Id, nat>, log: seq<Event>)

  const INIT := System(START, 0, map[], map[], map[], [])

  datatype Step =
    | Tick(ms: nat)
    | Submit(e: Entry)
    | Take(w: nat)
    | Begin(w: nat, stamped: bool)
    | Finish(w: nat, fetched: Fetched)
    | Abandon(w: nat, message: string)
    | Answer(w: nat, delivered: bool)
    | AckDone(w: nat)
    | ReadStamps(j: nat, threshold: int)
    | ReadList(j: nat)
    | ReadClock(j: nat)
    | Visit(j: nat)
    | Clear(j: nat, id: Id)
    | RemovePending(id: Id)

  predicate WorkerIn(y: System, w: nat) {
    w in y.workers
  }

  /** Where the worker goroutine recovers from a panic; the deadline strikes in the first of these only. */
  predicate UnderWay(phase: Phase) {
    phase.Running? || phase.Completed? || phase.Answered?
  }

  /** A start time may fail to be written, which nobody notices. */
  predicate Enabled(y: System, step: Step) {
    match step
    case Tick(_) => true
    case Submit(e) => e.taskId != ""
    case Take(w) => !WorkerIn(y, w) && y.ledger.store.tasks != []
    case Begin(w, _) => WorkerIn(y, w) && y.workers[w].phase.Popped?
    case Finish(w, _) => WorkerIn(y, w) && y.workers[w].phase.Running?
    case Abandon(w, _) => WorkerIn(y, w) && UnderWay(y.workers[w].phase)
    case Answer(w, _) => WorkerIn(y, w) && (y.workers[w].phase.Completed? || y.workers[w].phase.Abandoned?)
    case AckDone(w) => WorkerIn(y, w) && y.workers[w].phase.Answered?
    case ReadStamps(j, _) => j !in y.janitors && y.ledger.store.started != map[]
    case ReadList(j) => j in y.janitors && y.janitors[j].HasStamps?
    case ReadClock(j) => j in y.janitors && y.janitors[j].HasList?
    case Visit(j) => j in y.janitors && y.janitors[j].Sweeping? && y.janitors[j].next < |y.janitors[j].list|
    case Clear(j, id) => j in y.janitors && y.janitors[j].Clearing? && id in y.janitors[j].ids
    case RemovePending(id) => id != ""
  }

  /** The janitor in `Sweeping` decides that the entry it looks at is stuck. */
  predicate FindsStuck(jan: Janitor)
    requires jan.Sweeping? && jan.next < |jan.list|
  {
    Expired(jan.list[jan.next], jan.stamps, jan.now, jan.threshold)
  }

  /** The Redis command a step sends, if any. */
  function Commands(y: System, step: Step): seq<Op>
    requires Enabled(y, step)
  {
    match step
    case Submit(e) => [Push(e)]
    case Take(_) => [Pop]
    case Begin(w, stamped) => if stamped then [Stamp(y.workers[w].req.taskId, y.clock / 1000)] else []
    case AckDone(w) => [Ack(y.workers[w].req.taskId)]
    case Visit(j) => var jan := y.janitors[j]; if FindsStuck(jan) then [Rescue(jan.list[jan.next])] else []
    case Clear(_, id) => [DropStamp(id)]
    case RemovePending(id) => [Forget(id)]
    case _ => []
  }

  function Effect(l: Ledger, ops: seq<Op>): Ledger {
    if ops == [] then l else Next(l, ops[0])
  }

  function Moved(y: System, w: nat, phase: Phase): map<nat, Worker>
    requires WorkerIn(y, w)
  {
    y.workers[w := y.workers[w].(phase := phase)]
  }

  function After(y: System, step: Step): System
    requires Enabled(y, step)
  {
    var z := y.(ledger := Effect(y.ledger, Commands(y, step)));
    match step
    case Tick(ms) => z.(clock := y.clock + ms)
    case Submit(_) => z
    case Take(w) =>
      var req := y.ledger.store.tasks[|y.ledger.store.tasks| - 1];
      z.(workers := y.workers[w := Worker(req, 0, Popped)], holder := y.holder[req.taskId := w])
    case Begin(w, _) => z.(workers := y.workers[w := Worker(y.workers[w].req, y.clock, Running)])
    case Finish(w, f) => z.(workers := Moved(y, w, Completed(y.clock, ResponseFor(y.workers[w].req.taskId, f))))
    case Abandon(w, message) =>
      z.(workers := Moved(y, w, Abandoned(ResponseFor(y.workers[w].req.taskId, Err(message)))))
    case Answer(w, delivered) =>
      var phase := y.workers[w].phase;
      z.(workers := Moved(y, w, if phase.Completed? then Answered(y.clock) else Done),
         log := y.log + if delivered && phase.response.Some? then [ResultPushed(w, phase.response.value)] else [])
    case AckDone(w) =>
      z.(workers := Moved(y, w, Done), holder := y.holder - {y.workers[w].req.taskId},
         log := y.log + [TaskAcked(w, y.workers[w].req.taskId)])
    case ReadStamps(j, threshold) => z.(janitors := y.janitors[j := HasStamps(threshold, y.ledger.store.started, y.clock)])
    case ReadList(j) =>
      var jan, list := y.janitors[j], y.ledger.store.processing;
      z.(janitors := y.janitors[j := if list == [] then Clearing(jan.stamps.Keys)
                                     else HasList(jan.threshold, jan.stamps, jan.since, list)])
    case ReadClock(j) =>
      var jan := y.janitors[j];
      z.(janitors := y.janitors[j := Sweeping(jan.threshold, jan.stamps, jan.since, jan.list, y.clock / 1000, 0)])
    case Visit(j) =>
      var jan := y.janitors[j];
      var e := jan.list[jan.next];
      z.(janitors := y.janitors[j := jan.(next := jan.next + 1)],
         holder := if FindsStuck(jan) && e in y.ledger.store.processing then y.holder - {e.taskId} else y.holder)
    case Clear(j, id) => z.(janitors := y.janitors[j := Clearing(y.janitors[j].ids - {id})])
    case RemovePending(_) => z
  }

  /** A run: every step enabled in the state the earlier ones lead to. */
  predicate IsRun(steps: seq<Step>)
    decreases |steps|, 0
  {
    steps == [] || (IsRun(steps[..|steps| - 1]) && Enabled(Play(steps[..|steps| - 1]), steps[|steps| - 1]))
  }

  function Play(steps: seq<Step>): System
    requires IsRun(steps)
    decreases |steps|, 1
  {
    if steps == [] then INIT else After(Play(steps[..|steps| - 1]), steps[|steps| - 1])
  }

  function Trace(steps: seq<Step>): seq<Op>
    requires IsRun(steps)
  {
    if steps == [] then []
    else Trace(steps[..|steps| - 1]) + Commands(Play(steps[..|steps| - 1]), steps[|steps| - 1])
  }

  /** Every run of workers and janitors is a run of the store, so all store results hold for it. */
  lemma {:induction false} RunsAreStoreRuns(steps: seq<Step>)
    requires IsRun(steps)
    ensures Play(steps).ledger == Exec(Trace(steps))
  {
    if steps != [] {
      var before, last := steps[..|steps| - 1], steps[|steps| - 1];
      RunsAreStoreRuns(before);
      var ops := Commands(Play(before), last);
      if ops == [] {
        assert Trace(steps) == Trace(before);
      } else {
        assert ops == [ops[0]];
        assert Trace(steps)[..|Trace(steps)| - 1] == Trace(before);
      }
    }
  }

  /** Conservation and live pending ids over every interleaving of workers, janitors and manual removals. */
  lemma SystemLosesNothing(steps: seq<Step>)
    requires IsRun(steps)
    ensures Conserved(Play(steps).ledger) && PendingIsLive(Play(steps).ledger.store)
  {
    RunsAreStoreRuns(steps);
    NoTaskLost(Trace(steps));
    PendingAlwaysLive(Trace(steps));
  }

  // ---------------------------------------------------------------- a result before every ack

  /** The step does not stand in the way of a result: the fetch gave a response or an error, or the push succeeded. */
  predicate Fine(step: Step, w: nat) {
    && (step.Finish? && step.w == w ==> step.fetched != Ok(None))
    && (step.Answer? && step.w == w ==> step.delivered)
  }

  /** The delivery got a response or an error from FetchItems, and the push of its result succeeded. */
  predicate GotThrough(steps: seq<Step>, w: nat) {
    forall i :: 0 <= i < |steps| ==> Fine(steps[i], w)
  }

  predicate PushedBy(log: seq<Event>, w: nat, id: Id) {
    exists i :: 0 <= i < |log| && log[i].ResultPushed? && log[i].worker == w && log[i].response.taskId == id
  }

  predicate NothingPushed(log: seq<Event>, w: nat) {
    forall i :: 0 <= i < |log| && log[i].ResultPushed? ==> log[i].worker != w
  }

  /** What the log says of a delivery on its way to the ack; `fine` tells whether it got through so far. */
  predicate WorkerHistory(log: seq<Event>, k: Worker, w: nat, fine: bool) {
    match k.phase
    case Popped => fine && NothingPushed(log, w)
    case Running => fine && NothingPushed(log, w)
    case Completed(_, response) =>
      && NothingPushed(log, w) && (response.Some? <==> fine)
      && (response.Some? ==> response.value.taskId == k.req.taskId)
    case Answered(_) => PushedBy(log, w, k.req.taskId) <==> fine
    case _ => true
  }

  /** A logged ack ended its delivery, and a result stands before it exactly if the delivery got through. */
  predicate AckHistory(y: System, i: nat, steps: seq<Step>)
    requires i < |y.log| && y.log[i].TaskAcked?
  {
    var w := y.log[i].worker;
    w in y.workers && y.workers[w].phase.Done? && (PushedBy(y.log[..i], w, y.log[i].id) <==> GotThrough(steps, w))
  }

  ghost predicate History(y: System, steps: seq<Step>) {
    && (forall w :: w in y.workers ==> WorkerHistory(y.log, y.workers[w], w, GotThrough(steps, w)))
    && (forall w: nat :: w !in y.workers ==> GotThrough(steps, w) && NothingPushed(y.log, w))
    && (forall i :: 0 <= i < |y.log| && y.log[i].TaskAcked? ==> AckHistory(y, i, steps))
  }

  /** The events a step appends to the log, all of them the stepping worker's. */
  function NewEvents(y: System, step: Step): (more: seq<Event>)
    requires Enabled(y, step)
    ensures After(y, step).log == y.log + more && |more| <= 1
  {
    if step.Answer? && step.delivered && y.workers[step.w].phase.response.Some?
    then [ResultPushed(step.w, y.workers[step.w].phase.response.value)]
    else if step.AckDone? then [TaskAcked(step.w, y.workers[step.w].req.taskId)]
    else []
  }

  lemma OthersPush(log: seq<Event>, more: seq<Event>, w: nat, id: Id)
    requires forall i :: 0 <= i < |more| && more[i].ResultPushed? ==> more[i].worker != w
    ensures PushedBy(log + more, w, id) <==> PushedBy(log, w, id)
    ensures NothingPushed(log + more, w) <==> NothingPushed(log, w)
  {
    var all := log + more;
    assert forall i :: 0 <= i < |log| ==> all[i] == log[i];
    assert forall i :: |log| <= i < |all| ==> all[i] == more[i - |log|];
  }

  lemma GotThroughStep(steps: seq<Step>, step: Step, w: nat)
    ensures GotThrough(steps + [step], w) <==> GotThrough(steps, w) && Fine(step, w)
  {
    var all := steps + [step];
    assert forall i :: 0 <= i < |steps| ==> all[i] == steps[i];
    assert all[|steps|] == step;
  }

  lemma AnswerHistory(y: System, w: nat, delivered: bool, fine: bool)
    requires Enabled(y, Answer(w, delivered)) && WorkerHistory(y.log, y.workers[w], w, fine)
    ensures var z := After(y, Answer(w, delivered));
            WorkerHistory(z.log, z.workers[w], w, fine && delivered)
  {
    var k, more := y.workers[w], NewEvents(y, Answer(w, delivered));
    if more == [] {
      assert k.phase.Completed? ==> !PushedBy(y.log, w, k.req.taskId);
    } else {
      assert (y.log + more)[|y.log|] == more[0];
    }
  }

  lemma WorkerHistoryStep(y: System, step: Step, w: nat, fine: bool)
    requires Enabled(y, step) && w in y.workers && WorkerHistory(y.log, y.workers[w], w, fine)
    ensures WorkerHistory(After(y, step).log, After(y, step).workers[w], w, fine && Fine(step, w))
  {
    if step.Answer? && step.w == w {
      AnswerHistory(y, w, step.delivered, fine);
    } else {
      OthersPush(y.log, NewEvents(y, step), w, y.workers[w].req.taskId);
    }
  }

  lemma NewWorkerHistory(y: System, step: Step, w: nat)
    requires Enabled(y, step) && w !in y.workers && NothingPushed(y.log, w)
    ensures Fine(step, w) && NothingPushed(After(y, step).log, w)
    ensures w in After(y, step).workers ==> After(y, step).workers[w].phase.Popped?
  {
    OthersPush(y.log, NewEvents(y, step), w, "");
  }

  lemma AckHistoryStep(y: System, steps: seq<Step>, step: Step, i: nat)
    requires History(y, steps) && Enabled(y, step) && i < |After(y, step).log| && After(y, step).log[i].TaskAcked?
    ensures AckHistory(After(y, step), i, steps + [step])
  {
    var z, more := After(y, step), NewEvents(y, step);
    var w := z.log[i].worker;
    GotThroughStep(steps, step, w);
    if i < |y.log| {
      assert z.log[i] == y.log[i] && z.log[..i] == y.log[..i];
      assert AckHistory(y, i, steps);
    } else {
      assert z.log[i] == more[0] && z.log[..i] == y.log;
      assert WorkerHistory(y.log, y.workers[w], w, GotThrough(steps, w));
    }
  }

  lemma StepKeepsHistory(y: System, steps: seq<Step>, step: Step)
    requires History(y, steps) && Enabled(y, step)
    ensures History(After(y, step), steps + [step])
  {
    var z := After(y, step);
    forall w | w in z.workers
      ensures WorkerHistory(z.log, z.workers[w], w, GotThrough(steps + [step], w))
    {
      GotThroughStep(steps, step, w);
      if w in y.workers {
        WorkerHistoryStep(y, step, w, GotThrough(steps, w));
      } else {
        NewWorkerHistory(y, step, w);
      }
    }
    forall w: nat | w !in z.workers
      ensures GotThrough(steps + [step], w) && NothingPushed(z.log, w)
    {
      GotThroughStep(steps, step, w);
      NewWorkerHistory(y, step, w);
    }
    forall i | 0 <= i < |z.log| && z.log[i].TaskAcked?
      ensures AckHistory(z, i, steps + [step])
    {
      AckHistoryStep(y, steps, step, i);
    }
  }

  lemma {:induction false} HistoryHolds(steps: seq<Step>)
    requires IsRun(steps)
    ensures History(Play(steps), steps)
  {
    if steps != [] {
      var before, last := steps[..|steps| - 1], steps[|steps| - 1];
      HistoryHolds(before);
      StepKeepsHistory(Play(before), before, last);
      assert steps == before + [last];
    }
  }

  /**
  Exactly when a result stands before an ack: if and only if the delivery's fetch returned a response or an error
  and the push of its result succeeded.
  */
  lemma ResultBeforeAckExactly(steps: seq<Step>, i: nat)
    requires IsRun(steps) && i < |Play(steps).log| && Play(steps).log[i].TaskAcked?
    ensures GotThrough(steps, Play(steps).log[i].worker) <==>
              exists k :: 0 <= k < i && var e := Play(steps).log[k];
                e.ResultPushed? && e.worker == Play(steps).log[i].worker && e.response.taskId == Play(steps).log[i].id
  {
    HistoryHolds(steps);
    var log := Play(steps).log;
    assert AckHistory(Play(steps), i, steps);
    assert forall k :: 0 <= k < i ==> log[..i][k] == log[k];
  }

  /** Result pushes succeed, and FetchItems never returns neither response nor error. */
  predicate ResultsGetThrough(steps: seq<Step>) {
    forall i :: 0 <= i < |steps| ==>
      (steps[i].Answer? ==> steps[i].delivered) && (steps[i].Finish? ==> steps[i].fetched != Ok(None))
  }

  /** At least one result: every acked delivery pushed a response for its task before the ack. */
  lemma ResultBeforeAck(steps: seq<Step>, i: nat)
    requires IsRun(steps) && ResultsGetThrough(steps)
    requires i < |Play(steps).log| && Play(steps).log[i].TaskAcked?
    ensures exists k :: 0 <= k < i && var e := Play(steps).log[k];
              e.ResultPushed? && e.worker == Play(steps).log[i].worker && e.response.taskId == Play(steps).log[i].id
  {
    ResultBeforeAckExactly(steps, i);
  }

  // ---------------------------------------------------------------- an ack without a result

  lemma OneStepMore(steps: seq<Step>, step: Step)
    requires IsRun(steps) && Enabled(Play(steps), step)
    ensures IsRun(steps + [step]) && Play(steps + [step]) == After(Play(steps), step)
  {
    assert (steps + [step])[..|steps|] == steps;
  }

  lemma TaskIsTaken(e: Entry) returns (steps: seq<Step>)
    requires e.taskId != ""
    ensures IsRun(steps) && Play(steps).log == []
    ensures Play(steps).workers == map[0 := Worker(e, 0, Running)]
  {
    steps := [Submit(e)];
    OneStepMore([], Submit(e));
    assert [] + [Submit(e)] == steps;
    OneStepMore(steps, Take(0));
    steps := steps + [Take(0)];
    OneStepMore(steps, Begin(0, true));
    steps := steps + [Begin(0, true)];
  }

  /** A fetch that returns neither response nor error is acked like any other, and no result was ever pushed. */
  lemma EmptyFetchIsAcked(e: Entry) returns (steps: seq<Step>)
    requires e.taskId != ""
    ensures IsRun(steps) && Play(steps).log == [TaskAcked(0, e.taskId)]
  {
    steps := TaskIsTaken(e);
    OneStepMore(steps, Finish(0, Ok(None)));
    steps := steps + [Finish(0, Ok(None))];
    OneStepMore(steps, Answer(0, true));
    steps := steps + [Answer(0, true)];
    OneStepMore(steps, AckDone(0));
    steps := steps + [AckDone(0)];
  }
}
