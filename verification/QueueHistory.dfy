/**
What happened in a run, read off its steps and the states between them: what a janitor's decision rests on, and whose
result a worker pushes.
*/
module QueueHistory {
  import opened TaskText
  import opened QueueStore
  import opened QueueRuns

  predicate Leads(y: System, step: Step, z: System) {
    Enabled(y, step) && z == After(y, step)
  }

  predicate LeadsAt(ys: seq<System>, steps: seq<Step>, k: nat)
    requires k < |steps| && k + 1 < |ys|
  {
    Leads(ys[k], steps[k], ys[k + 1])
  }

  /** `ys` are the states of a run, from the empty one on. */
  predicate IsHistory(ys: seq<System>, steps: seq<Step>) {
    |ys| == |steps| + 1 && ys[0] == INIT && forall k: nat :: k < |steps| ==> LeadsAt(ys, steps, k)
  }

  /** Every run has a history, and it ends in the state of the run. */
  lemma {:induction false} RunHasHistory(steps: seq<Step>) returns (ys: seq<System>)
    requires IsRun(steps)
    ensures IsHistory(ys, steps) && ys[|steps|] == Play(steps)
  {
    if steps == [] {
      ys := [INIT];
    } else {
      var before := steps[..|steps| - 1];
      var zs := RunHasHistory(before);
      ys := zs + [Play(steps)];
      forall k: nat | k < |steps|
        ensures LeadsAt(ys, steps, k)
      {
        if k < |before| {
          assert LeadsAt(zs, before, k);
        }
      }
    }
  }

  // ---------------------------------------------------------------- what a janitor decides by

  /** Janitor `j` is in state `jan`. */
  predicate IsAt(y: System, j: nat, jan: Janitor) {
    j in y.janitors && y.janitors[j] == jan
  }

  predicate StampsReadAt(ys: seq<System>, steps: seq<Step>, a: nat, j: nat, threshold: int, stamps: map<Id, int>) {
    a < |steps| && a < |ys| && steps[a] == ReadStamps(j, threshold) && ys[a].ledger.store.started == stamps
  }

  predicate ListReadAt(ys: seq<System>, steps: seq<Step>, b: nat, j: nat, list: seq<Entry>) {
    b < |steps| && b < |ys| && steps[b] == ReadList(j) && ys[b].ledger.store.processing == list
  }

  predicate ClockReadAt(ys: seq<System>, steps: seq<Step>, c: nat, j: nat, now: int) {
    c < |steps| && c < |ys| && steps[c] == ReadClock(j) && ys[c].clock / 1000 == now
  }

  lemma HasStampsFrom(ys: seq<System>, steps: seq<Step>, n: nat, j: nat, jan: Janitor)
    requires IsHistory(ys, steps) && n <= |steps| && IsAt(ys[n], j, jan) && jan.HasStamps?
    ensures n > 0
    ensures IsAt(ys[n - 1], j, jan) || StampsReadAt(ys, steps, n - 1, j, jan.threshold, jan.stamps)
  {
    assert LeadsAt(ys, steps, n - 1);
  }

  lemma HasListFrom(ys: seq<System>, steps: seq<Step>, n: nat, j: nat, jan: Janitor)
    requires IsHistory(ys, steps) && n <= |steps| && IsAt(ys[n], j, jan) && jan.HasList?
    ensures n > 0
    ensures IsAt(ys[n - 1], j, jan)
            || (ListReadAt(ys, steps, n - 1, j, jan.list)
                && IsAt(ys[n - 1], j, HasStamps(jan.threshold, jan.stamps, jan.since)))
  {
    assert LeadsAt(ys, steps, n - 1);
  }

  lemma SweepingFrom(ys: seq<System>, steps: seq<Step>, n: nat, j: nat, jan: Janitor)
    requires IsHistory(ys, steps) && n <= |steps| && IsAt(ys[n], j, jan) && jan.Sweeping?
    ensures n > 0
    ensures || (steps[n - 1] != Visit(j) && IsAt(ys[n - 1], j, jan))
            || (steps[n - 1] == Visit(j) && jan.next > 0 && IsAt(ys[n - 1], j, jan.(next := jan.next - 1)))
            || (ClockReadAt(ys, steps, n - 1, j, jan.now) && jan.next == 0
                && IsAt(ys[n - 1], j, HasList(jan.threshold, jan.stamps, jan.since, jan.list)))
  {
    assert LeadsAt(ys, steps, n - 1);
  }

  lemma {:induction false} StampsWereRead(ys: seq<System>, steps: seq<Step>, n: nat, j: nat, jan: Janitor) returns (a: nat)
    requires IsHistory(ys, steps) && n <= |steps| && IsAt(ys[n], j, jan) && jan.HasStamps?
    ensures a < n && StampsReadAt(ys, steps, a, j, jan.threshold, jan.stamps)
    decreases n
  {
    HasStampsFrom(ys, steps, n, j, jan);
    if IsAt(ys[n - 1], j, jan) {
      a := StampsWereRead(ys, steps, n - 1, j, jan);
    } else {
      a := n - 1;
    }
  }

  lemma {:induction false} ListWasRead(ys: seq<System>, steps: seq<Step>, n: nat, j: nat, jan: Janitor)
    returns (a: nat, b: nat)
    requires IsHistory(ys, steps) && n <= |steps| && IsAt(ys[n], j, jan) && jan.HasList?
    ensures a < b < n && StampsReadAt(ys, steps, a, j, jan.threshold, jan.stamps) && ListReadAt(ys, steps, b, j, jan.list)
    decreases n
  {
    HasListFrom(ys, steps, n, j, jan);
    if IsAt(ys[n - 1], j, jan) {
      a, b := ListWasRead(ys, steps, n - 1, j, jan);
    } else {
      a := StampsWereRead(ys, steps, n - 1, j, HasStamps(jan.threshold, jan.stamps, jan.since));
      b := n - 1;
    }
  }

  /** How often janitor `j` looked at an entry in steps `c` to `n`. */
  function Looks(steps: seq<Step>, c: nat, n: nat, j: nat): nat
    requires c <= n <= |steps|
    decreases n
  {
    if n == c then 0 else Looks(steps, c, n - 1, j) + if steps[n - 1] == Visit(j) then 1 else 0
  }

  lemma {:induction false} ClockWasRead(ys: seq<System>, steps: seq<Step>, n: nat, j: nat, jan: Janitor)
    returns (a: nat, b: nat, c: nat)
    requires IsHistory(ys, steps) && n <= |steps| && IsAt(ys[n], j, jan) && jan.Sweeping?
    ensures a < b < c < n && ClockReadAt(ys, steps, c, j, jan.now) && jan.next == Looks(steps, c + 1, n, j)
    ensures StampsReadAt(ys, steps, a, j, jan.threshold, jan.stamps) && ListReadAt(ys, steps, b, j, jan.list)
    decreases n
  {
    SweepingFrom(ys, steps, n, j, jan);
    if steps[n - 1] == Visit(j) {
      a, b, c := ClockWasRead(ys, steps, n - 1, j, jan.(next := jan.next - 1));
    } else if IsAt(ys[n - 1], j, jan) {
      a, b, c := ClockWasRead(ys, steps, n - 1, j, jan);
    } else {
      a, b := ListWasRead(ys, steps, n - 1, j, HasList(jan.threshold, jan.stamps, jan.since, jan.list));
      c := n - 1;
    }
  }

  /** The entry has an id, and its start time, or without one its creation time, lies more than the threshold back. */
  predicate LongAgo(e: Entry, stamps: map<Id, int>, now: int, threshold: int) {
    && e.taskId != "" && (e.taskId in stamps ==> now - stamps[e.taskId] > threshold)
    && (e.taskId !in stamps ==> e.createdAt != 0 && now - e.createdAt > threshold)
  }

  /** The steps at which a pass read the start times, the list and the clock, and its threshold. */
  datatype Pass = Pass(stamps: nat, list: nat, clock: nat, threshold: int)

  predicate IsPass(steps: seq<Step>, i: nat, j: nat, p: Pass) {
    && p.stamps < p.list < p.clock < i <= |steps| && steps[p.stamps] == ReadStamps(j, p.threshold)
    && steps[p.list] == ReadList(j) && steps[p.clock] == ReadClock(j)
  }

  /**
  What a janitor decides by. Its pass has read the start times, of which there were some, then the list and then the
  clock. Its k-th look sends the rescue script for entry `k` of that list if and only if, by what was read, the entry
  was started long ago.
  */
  lemma LookDecides(ys: seq<System>, steps: seq<Step>, i: nat, j: nat) returns (p: Pass)
    requires IsHistory(ys, steps) && i < |steps| && steps[i] == Visit(j)
    ensures IsPass(steps, i, j, p) && Enabled(ys[i], steps[i]) && ys[p.stamps].ledger.store.started != map[]
    ensures Looks(steps, p.clock + 1, i, j) < |ys[p.list].ledger.store.processing|
    ensures var e := ys[p.list].ledger.store.processing[Looks(steps, p.clock + 1, i, j)];
            Commands(ys[i], steps[i]) ==
              if LongAgo(e, ys[p.stamps].ledger.store.started, ys[p.clock].clock / 1000, p.threshold) then [Rescue(e)] else []
  {
    assert LeadsAt(ys, steps, i);
    var jan := ys[i].janitors[j];
    var a, b, c := ClockWasRead(ys, steps, i, j, jan);
    p := Pass(a, b, c, jan.threshold);
    assert LeadsAt(ys, steps, a);
  }

  /** The ids whose start times janitor `j` deleted in steps `b` to `n`. */
  function Cleared(steps: seq<Step>, b: nat, n: nat, j: nat): set<Id>
    requires b <= n <= |steps|
    decreases n
  {
    if n == b then {}
    else Cleared(steps, b, n - 1, j) + if steps[n - 1].Clear? && steps[n - 1].j == j then {steps[n - 1].id} else {}
  }

  lemma ClearingStep(y: System, step: Step, j: nat)
    requires Enabled(y, step) && j in After(y, step).janitors && After(y, step).janitors[j].Clearing?
    ensures var ids := After(y, step).janitors[j].ids;
            if step.Clear? && step.j == j
            then step.id !in ids && IsAt(y, j, Clearing(ids + {step.id}))
            else IsAt(y, j, Clearing(ids))
                 || (step == ReadList(j) && y.ledger.store.processing == [] && j in y.janitors
                     && y.janitors[j].HasStamps? && y.janitors[j].stamps.Keys == ids)
  {
    if step.Clear? && step.j == j {
      assert y.janitors[j].ids == y.janitors[j].ids - {step.id} + {step.id};
    }
  }

  lemma ClearingFrom(ys: seq<System>, steps: seq<Step>, n: nat, j: nat, ids: set<Id>)
    requires IsHistory(ys, steps) && n <= |steps| && IsAt(ys[n], j, Clearing(ids))
    ensures n > 0
    ensures || (!(steps[n - 1].Clear? && steps[n - 1].j == j) && IsAt(ys[n - 1], j, Clearing(ids)))
            || (steps[n - 1].Clear? && steps[n - 1].j == j && steps[n - 1].id !in ids
                && IsAt(ys[n - 1], j, Clearing(ids + {steps[n - 1].id})))
            || (ListReadAt(ys, steps, n - 1, j, []) && j in ys[n - 1].janitors && ys[n - 1].janitors[j].HasStamps?
                && ys[n - 1].janitors[j].stamps.Keys == ids)
  {
    assert n > 0;
    assert LeadsAt(ys, steps, n - 1);
    ClearingStep(ys[n - 1], steps[n - 1], j);
  }

  /** After reading the list a janitor goes on to sweep it if there is anything in it, and to clear if there is not. */
  lemma ListDecides(ys: seq<System>, steps: seq<Step>, b: nat, j: nat)
    requires IsHistory(ys, steps) && b < |steps| && steps[b] == ReadList(j)
    ensures j in ys[b + 1].janitors
    ensures ys[b].ledger.store.processing != [] ==>
              ys[b + 1].janitors[j].HasList? && ys[b + 1].janitors[j].list == ys[b].ledger.store.processing
    ensures ys[b].ledger.store.processing == [] ==> ys[b + 1].janitors[j].Clearing?
  {
    assert LeadsAt(ys, steps, b);
  }

  /**
  A janitor that finds nothing in processing deletes the start times it read, one by one: at any point those deleted
  and those still to come make up exactly what it read.
  */
  lemma {:induction false} ClearsWhatItRead(ys: seq<System>, steps: seq<Step>, n: nat, j: nat, ids: set<Id>)
    returns (a: nat, b: nat, threshold: int)
    requires IsHistory(ys, steps) && n <= |steps| && IsAt(ys[n], j, Clearing(ids))
    ensures a < b < n && steps[a] == ReadStamps(j, threshold) && steps[b] == ReadList(j)
    ensures ys[b].ledger.store.processing == []
    ensures ids !! Cleared(steps, b + 1, n, j) && ids + Cleared(steps, b + 1, n, j) == ys[a].ledger.store.started.Keys
    decreases n
  {
    ClearingFrom(ys, steps, n, j, ids);
    if steps[n - 1].Clear? && steps[n - 1].j == j {
      a, b, threshold := ClearsWhatItRead(ys, steps, n - 1, j, ids + {steps[n - 1].id});
    } else if IsAt(ys[n - 1], j, Clearing(ids)) {
      a, b, threshold := ClearsWhatItRead(ys, steps, n - 1, j, ids);
    } else {
      var jan := ys[n - 1].janitors[j];
      a := StampsWereRead(ys, steps, n - 1, j, jan);
      b, threshold := n - 1, jan.threshold;
    }
  }

  // ---------------------------------------------------------------- whose result is pushed

  /** The step logs this push, of the response the delivery had. */
  predicate Pushes(y: System, step: Step, e: Event) {
    && e.ResultPushed? && step == Answer(e.worker, true) && WorkerIn(y, e.worker)
    && HasResponse(y.workers[e.worker], e.response)
  }

  predicate HasResponse(k: Worker, r: Response) {
    (k.phase.Completed? || k.phase.Abandoned?) && k.phase.response == Some(r)
  }

  lemma LoggedFrom(ys: seq<System>, steps: seq<Step>, n: nat, i: nat)
    requires IsHistory(ys, steps) && n <= |steps| && i < |ys[n].log| && ys[n].log[i].ResultPushed?
    ensures n > 0
    ensures (i < |ys[n - 1].log| && ys[n - 1].log[i] == ys[n].log[i]) || Pushes(ys[n - 1], steps[n - 1], ys[n].log[i])
  {
    assert LeadsAt(ys, steps, n - 1);
    var more := NewEvents(ys[n - 1], steps[n - 1]);
    assert i >= |ys[n - 1].log| ==> ys[n].log[i] == more[0];
  }

  lemma {:induction false} ResultWasLogged(ys: seq<System>, steps: seq<Step>, n: nat, i: nat) returns (k: nat)
    requires IsHistory(ys, steps) && n <= |steps| && i < |ys[n].log| && ys[n].log[i].ResultPushed?
    ensures k < n && Pushes(ys[k], steps[k], ys[n].log[i])
    decreases n
  {
    LoggedFrom(ys, steps, n, i);
    if i < |ys[n - 1].log| && ys[n - 1].log[i] == ys[n].log[i] {
      k := ResultWasLogged(ys, steps, n - 1, i);
    } else {
      k := n - 1;
    }
  }

  /** The step gives delivery `w` this response: what FetchItems returned, or its error, or why it was abandoned. */
  predicate Reports(step: Step, w: nat, r: Response) {
    || (step == Finish(w, Ok(Some(r.items))) && r.errorMessage == "")
    || (step == Finish(w, Err(r.errorMessage)) && r.items == "")
    || (step == Abandon(w, r.errorMessage) && r.items == "")
  }

  lemma ResponseStep(y: System, step: Step, w: nat, r: Response)
    requires Enabled(y, step) && WorkerIn(After(y, step), w) && HasResponse(After(y, step).workers[w], r)
    ensures (WorkerIn(y, w) && y.workers[w] == After(y, step).workers[w])
            || (r.taskId == After(y, step).workers[w].req.taskId && Reports(step, w, r))
  {
  }

  lemma ResponseFrom(ys: seq<System>, steps: seq<Step>, n: nat, w: nat, k: Worker, r: Response)
    requires IsHistory(ys, steps) && n <= |steps| && WorkerIn(ys[n], w) && ys[n].workers[w] == k && HasResponse(k, r)
    ensures n > 0
    ensures (WorkerIn(ys[n - 1], w) && ys[n - 1].workers[w] == k)
            || (r.taskId == k.req.taskId && Reports(steps[n - 1], w, r))
  {
    assert n > 0;
    assert LeadsAt(ys, steps, n - 1);
    ResponseStep(ys[n - 1], steps[n - 1], w, r);
  }

  lemma {:induction false} ResponseWasReported(ys: seq<System>, steps: seq<Step>, n: nat, w: nat, k: Worker, r: Response)
    returns (m: nat)
    requires IsHistory(ys, steps) && n <= |steps| && WorkerIn(ys[n], w) && ys[n].workers[w] == k && HasResponse(k, r)
    ensures m < n && Reports(steps[m], w, r) && r.taskId == k.req.taskId
    decreases n
  {
    ResponseFrom(ys, steps, n, w, k, r);
    if WorkerIn(ys[n - 1], w) && ys[n - 1].workers[w] == k {
      m := ResponseWasReported(ys, steps, n - 1, w, k, r);
    } else {
      m := n - 1;
    }
  }

  /** Every pushed result carries the task id of its own delivery and what that delivery's fetch returned. */
  lemma PushedResultIsOwn(ys: seq<System>, steps: seq<Step>, i: nat) returns (m: nat, k: nat)
    requires IsHistory(ys, steps) && i < |ys[|steps|].log| && ys[|steps|].log[i].ResultPushed?
    ensures var e := ys[|steps|].log[i];
            && m < k < |steps| && steps[k] == Answer(e.worker, true)
            && ( || (steps[m] == Finish(e.worker, Ok(Some(e.response.items))) && e.response.errorMessage == "")
                 || (steps[m] == Finish(e.worker, Err(e.response.errorMessage)) && e.response.items == "")
                 || (steps[m] == Abandon(e.worker, e.response.errorMessage) && e.response.items == ""))
            && e.worker in ys[k].workers && e.response.taskId == ys[k].workers[e.worker].req.taskId
  {
    var e := ys[|steps|].log[i];
    k := ResultWasLogged(ys, steps, |steps|, i);
    m := ResponseWasReported(ys, steps, k, e.worker, ys[k].workers[e.worker], e.response);
  }

  /** The response a delivery is left with when its fetch ends, if any: FetchItems may return neither response nor error. */
  function ResponseLeft(step: Step, id: Id): Option<Response> {
    match step
    case Finish(_, Ok(Some(items))) => Some(Response(id, items, ""))
    case Finish(_, Err(message)) => Some(Response(id, "", message))
    case Abandon(_, message) => Some(Response(id, "", message))
    case _ => None
  }

  predicate EndsFetch(step: Step, w: nat) {
    (step.Finish? || step.Abandon?) && step.w == w
  }

  predicate Ended(k: Worker) {
    k.phase.Completed? || k.phase.Abandoned?
  }

  lemma EndStep(y: System, step: Step, w: nat)
    requires Enabled(y, step) && WorkerIn(After(y, step), w) && Ended(After(y, step).workers[w])
    ensures var k := After(y, step).workers[w];
            (WorkerIn(y, w) && y.workers[w] == k)
            || (EndsFetch(step, w) && k.phase.response == ResponseLeft(step, k.req.taskId))
  {
  }

  lemma EndFrom(ys: seq<System>, steps: seq<Step>, n: nat, w: nat, k: Worker)
    requires IsHistory(ys, steps) && n <= |steps| && WorkerIn(ys[n], w) && ys[n].workers[w] == k && Ended(k)
    ensures n > 0
    ensures (WorkerIn(ys[n - 1], w) && ys[n - 1].workers[w] == k)
            || (EndsFetch(steps[n - 1], w) && k.phase.response == ResponseLeft(steps[n - 1], k.req.taskId))
  {
    assert n > 0;
    assert LeadsAt(ys, steps, n - 1);
    EndStep(ys[n - 1], steps[n - 1], w);
  }

  lemma {:induction false} HasEnded(ys: seq<System>, steps: seq<Step>, n: nat, w: nat, k: Worker) returns (m: nat)
    requires IsHistory(ys, steps) && n <= |steps| && WorkerIn(ys[n], w) && ys[n].workers[w] == k && Ended(k)
    ensures m < n && EndsFetch(steps[m], w) && k.phase.response == ResponseLeft(steps[m], k.req.taskId)
    decreases n
  {
    EndFrom(ys, steps, n, w, k);
    if WorkerIn(ys[n - 1], w) && ys[n - 1].workers[w] == k {
      m := HasEnded(ys, steps, n - 1, w, k);
    } else {
      m := n - 1;
    }
  }

  /**
  Whenever a delivery pushes its result and the push succeeds, the result is what its fetch left: the response, the
  error, or why it was abandoned, and nothing if the fetch gave neither.
  */
  lemma AnswerPushesWhatIsLeft(ys: seq<System>, steps: seq<Step>, k: nat) returns (m: nat)
    requires IsHistory(ys, steps) && k < |steps| && steps[k].Answer?
    ensures var w := steps[k].w;
            && m < k && EndsFetch(steps[m], w) && w in ys[k].workers
            && var left := ResponseLeft(steps[m], ys[k].workers[w].req.taskId);
               ys[k + 1].log ==
                 ys[k].log + if steps[k].delivered && left.Some? then [ResultPushed(w, left.value)] else []
  {
    assert LeadsAt(ys, steps, k);
    m := HasEnded(ys, steps, k, steps[k].w, ys[k].workers[steps[k].w]);
  }
}
