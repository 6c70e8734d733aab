# GoodsHunter: a verified model of the hard parts

GoodsHunter watches second-hand markets. A scheduler queues search tasks in Redis, crawler processes take them,
fetch result pages through a shared browser, and push results back, which the scheduler turns into a timeline and
notification mails. This project models the parts of that pipeline whose correctness is not visible from any single
function, and proves what they are supposed to guarantee, for every input and every interleaving.

| file | part of the system |
|---|---|
| `QueueStore.dfy` | the Redis queue: each Lua script and each single command is one atomic step on four keys |
| `QueueRuns.dfy` | any number of workers and janitors on that queue, command by command |
| `QueueTiming.dfy` | the same with a shared clock: which rescues are safe, and that the configured timeouts ensure them |
| `QueuePasses.dfy` | rescue passes an operator can check to be safe: alone, quick, and never by creation time |
| `QueueHistory.dfy` | runs read off their steps: what a janitor decides by, whose result a worker pushes |
| `QueueClient.dfy` | the queue client as a class: ack scan, rescue pass, de-duplication, with their loops |
| `QueueDedup.dfy` | what de-duplication leaves of the task list, and in which order |
| `TaskText.dfy` | the JSON text of a queued task, and the text search the ack script uses |
| `TaskReader.dfy` | reading a queued task back from its text |
| `TokenBucket.dfy` | the rate-limit script over reals, with arbitrary caller clocks and key expiry |
| `Drain.dfy` | the browser drain handshake, one step per atomic operation of every goroutine |
| `DrainEnd.dfy` | what the end of a drain says about the pages in use |
| `Ingest.dfy`, `IngestRuns.dfy`, `Notices.dfy` | result ingestion for one task: price cache, item prices, link rows, notices |
| `Timeline.dfy`, `Cleanup.dfy` | the order of the timeline over whole runs, and the cap on link rows |
| `Price.dfy`, `PriceText.dfy` | the price printer of the mails and the price parser of the crawler |
| `SearchKey.dfy`, `SearchQuery.dfy` | the URL that serves as the de-duplication key of a search |
| `Decimal.dfy`, `Blanks.dfy` | decimal numerals and Unicode white space |

`dafny verify dfyconfig.toml` checks everything.

## How the model is set up

- A queue entry is the request it encodes. An entry whose text cannot be decoded, or has no task id, has the id `""`;
  the client skips both in the same places. Redis compares entries by their text; `TaskReader.SameTextSameRequest`
  shows that this is comparing the requests.
- A worker or janitor is a program counter with its local variables. A Go method that sends several Redis commands
  can be interrupted between any two of them, and a janitor works on snapshots that may be out of date. A process
  that crashes, or a command that never arrives, is a worker that takes no further step.
- A run is any sequence of enabled steps. No bound is put on the number of workers, janitors, pages, entries, calls,
  batches or items.
- Clocks are parameters: every call of a clock in the source is a value chosen freely by the run, restricted only
  where a theorem says so.

## Where code, comments and expectations part

- An id must not be acked while an entry of it waits in the task list. Nothing in the scripts prevents it: a rescue,
  a late ack and the next scheduler push leave two entries of one task (`QueueStore.LateAckDuplicates`).
  `QueueStore.AckKeepsSingleLive` and `QueueStore.SafeExactlyWhenProper` show that this is the only way an ack breaks
  the invariant. `QueueTiming.RescueIsSafeExactlyWhenLate` turns it into a condition on rescues: one is safe if and
  only if the delivery that holds the entry can no longer ack in time. The configured timeouts meet that condition
  whenever the janitor decides by the start time that is still in the hash (`QueueTiming.TimelyRunsAreSafe`), and
  `QueueTiming.OutdatedRescueBreaks` gives a run in which a janitor decides by an outdated one and the invariant is
  lost. One janitor alone loses it through the creation time it falls back on
  (`QueueTiming.CreationTimeRescueBreaks`). `QueuePasses.CarefulRunsAreSafe` says what to check: passes that do not
  overlap, the clock read less than 20 s after the start times, and no decision by creation time. The crawler's own
  callers cap a whole pass at 10 s (cmd/crawler/main.go:52, internal/crawler/service.go:35).
- A worker acks every completed task, also one whose fetch returned neither response nor error, for which no result
  is pushed (`QueueRuns.EmptyFetchIsAcked`). `QueueRuns.ResultBeforeAckExactly` says for every ack when a result
  stands before it.
- waitForDrain is documented to return true when all active pages are closed. A page may close the channel on a stale
  count while another one is in use (`DrainEnd.DrainMayEndEarly`). `DrainEnd.CloserFindsIdleExactly` says when the
  promise holds: if and only if whoever entered since the closing page counted itself out has left again.
- De-duplication is documented to keep the first entry of every task id. The right entries survive, but LREM deletes
  the first equal text, so the survivors may change places, as on the list a, b, a. `QueueDedup.OrderExactly` says
  for every list when they do not: if and only if of any two entries to keep the earlier one also has the earlier
  last copy.
- An item that leaves the feed and returns at its head comes back with its old link time, so the timeline shows it
  too late (`Timeline.ReturningItemIsShownLate`). `Timeline.TimelineOrderExactly` says for every run when the latest
  batch is shown in its own order: if and only if the link times of the items known before do not increase along it.
- The clean-up comments speak both of deleting rows older than the cutoff and of deleting those not newer; the code
  deletes the latter, so fewer than the cap may stay. `Cleanup.CleanupKeepsTheNewest` says exactly when, and
  `Cleanup.NothingStaysExactly` when none stays: a first batch above the cap loses all its rows
  (`IngestRuns.OverfullFirstBatchVanishes`). A known item whose row was deleted comes back as the newest one
  (`IngestRuns.DeletedRowReturnsAsNewest`).
- A negative price is printed with the minus sign counted like a digit, for example `-,123`
  (`Price.MinusSignMayBeCutOff` says exactly when this happens).

## Model

| member | source | states |
|---|---|---|
| `QueueStore.NoTaskLost` | internal/pkg/redisqueue/client.go:58-301 | over every sequence of scripts and commands, late and double acks included, waiting + processing + acked entries equal the pushed entries as multisets |
| `QueueStore.PendingAlwaysLive` | internal/pkg/redisqueue/client.go:58-301 | in every reachable store each pending id has an entry in the task list or the processing list, even after manual removals |
| `QueueStore.RefusedPushMeansLiveWork` | internal/pkg/redisqueue/client.go:70-108 | a push that changes nothing implies a live entry of the same id, so ErrTaskExists strands no task |
| `QueueStore.AckKeepsSingleLive` | internal/pkg/redisqueue/client.go:206-229 | an ack keeps "pending is exactly the queued ids, each once" if and only if its id does not wait in the task list |
| `QueueStore.ApplyKeepsSingleLive` | internal/pkg/redisqueue/client.go:58-301 | every script and command keeps that invariant, given the condition on acks; removing ids by hand is excluded |
| `QueueStore.OneLiveEntry` | internal/pkg/redisqueue/client.go:58-301 | every run whose acks respect the condition keeps one queued entry per pending id and none without |
| `QueueStore.SafeExactlyWhenProper` | internal/pkg/redisqueue/client.go:58-301 | without manual removals, a run has one entry per pending id at every point if and only if none of its acks hits a waiting id |
| `QueueStore.LateAckDuplicates` | internal/pkg/redisqueue/client.go:206-229 | push, pop, rescue, late ack, push leaves two entries of the same task waiting |
| `QueueStore.FirstInFirstOut` | internal/pkg/redisqueue/client.go:58-65 | tasks are taken in the order in which they were pushed or put back: what was taken out followed by what still waits, oldest first, is what was put in |
| `QueueRuns.RunsAreStoreRuns` | internal/pkg/redisqueue/client.go:135-383 | each interleaving of workers and janitors is, on the store, a run of the atomic scripts and commands it issued |
| `QueueRuns.SystemLosesNothing` | internal/crawler/crawl.go:120-203 | conservation and live pending ids hold in every interleaving of workers, janitors with stale snapshots and manual removals |
| `QueueRuns.ResultBeforeAck` | internal/crawler/crawl.go:148-203 | if result pushes succeed and no fetch returns neither response nor error, every acked delivery put a response carrying its task id into the results before its ack |
| `QueueRuns.ResultBeforeAckExactly` | internal/crawler/crawl.go:148-203 | in every run, a result of the delivery stands before its ack if and only if its fetch returned a response or an error and the push of its result succeeded |
| `QueueRuns.EmptyFetchIsAcked` | internal/crawler/crawl.go:163-199 | for every task a run in which the fetch returns neither, and the only event is the ack |
| `QueueHistory.LookDecides` | internal/pkg/redisqueue/client.go:311-372 | in every run, a janitor's k-th look sends the rescue script for entry k of the list it read if and only if the entry has an id and its start time, as read, lies more than the threshold before the clock, as read, or it has no start time and a creation time that does; with no start times at all it looks at nothing |
| `QueueHistory.ListDecides` | internal/pkg/redisqueue/client.go:320-331 | a janitor sweeps the list it read if there is anything in it and clears start times if there is not |
| `QueueHistory.ClearsWhatItRead` | internal/pkg/redisqueue/client.go:325-331 | the start times a clearing janitor deleted and those still to come are exactly the ones it read |
| `QueueHistory.PushedResultIsOwn` | internal/crawler/crawl.go:142-186 | every pushed result carries its delivery's task id and the response, the error or the reason for giving up of that delivery's own fetch |
| `QueueHistory.AnswerPushesWhatIsLeft` | internal/crawler/crawl.go:142-186 | every successful push is of exactly what the fetch left, also after a timeout or panic, and nothing is pushed if the fetch gave neither response nor error |
| `QueueTiming.AckHitsNoWaitingTask` | internal/crawler/crawl.go:188-199 | a delivery that acks in time still owns the one entry of its id, which is in the processing list, if every rescue so far was late |
| `QueueTiming.StepKeepsOrderInv` | internal/crawler/crawl.go:120-203 | the invariant linking holders, start times and deadlines is kept by every punctual step with late rescues, panics after completion and failed start-time writes included |
| `QueueTiming.OrderlyRunsAreSafe` | internal/crawler/crawl.go:120-203 | if acks are punctual and every rescue is late, each reachable store has exactly one entry per pending id |
| `QueueTiming.RescueIsSafeExactlyWhenLate` | internal/pkg/redisqueue/client.go:293-301 | in any state with the invariant, a rescue is followed only by safe states, whatever orderly steps come, if and only if the delivery that holds the entry can no longer ack in time |
| `QueueTiming.EarlyRescueBreaks` | internal/pkg/redisqueue/client.go:293-301 | after a rescue that is not late, the holder's own punctual steps lead to a state that breaks the invariant |
| `QueueTiming.TimelyIsOrderly` | internal/crawler/service.go:36-41 | with thresholds of 120 s and decisions by the current start time every rescue is late |
| `QueueTiming.RescueComesAfterDeadline` | internal/pkg/redisqueue/client.go:333-367 | a rescue that moves an entry comes after the last moment at which the delivery holding it may ack |
| `QueueTiming.StepKeepsTimedInv` | internal/crawler/crawl.go:120-203 | the invariant, janitor thresholds included, is kept by each of the timely steps |
| `QueueTiming.TimedInvHolds` | internal/crawler/crawl.go:120-203 | that invariant holds after every timely run, and the run's rescues were all late |
| `QueueTiming.OrderlyTraceIsProper` | internal/crawler/crawl.go:188-199 | a run whose rescues are all late never acks an id that waits in the task list |
| `QueueTiming.TimelyRunsAreSafe` | internal/crawler/service.go:36-41 | with a shared clock, thresholds of 120 s or more in whole seconds, acks within 90+5+5 s or never, and rescues decided by the current start time, every reachable store has exactly one entry per pending id |
| `QueueTiming.RescueBeforeAckBreaks` | internal/pkg/redisqueue/client.go:312-378 | if a janitor with an outdated start time puts back an entry whose worker then acks in time, the invariant is broken although all deadlines are met |
| `QueueTiming.OutdatedRescueBreaks` | internal/pkg/redisqueue/client.go:312-378 | for every task there is a timely run (two janitors look, one rescues, a second worker takes the task) after which the other janitor's outdated rescue and the worker's punctual ack leave the task waiting without its pending mark |
| `QueueTiming.CreationTimeRescueBreaks` | internal/pkg/redisqueue/client.go:348-378 | for every task a timely run with one janitor after which its rescue by creation time and the worker's punctual ack leave the task waiting without its pending mark |
| `QueuePasses.OverdueStays` | internal/pkg/redisqueue/client.go:306-383 | while a pass is under way alone, a start time that was overdue when the pass read it stays in the hash unless that pass takes it |
| `QueuePasses.CarefulIsTimely` | internal/pkg/redisqueue/client.go:333-367 | a rescue of a pass that is alone, quick and decides by a start time decides by the one still in the hash |
| `QueuePasses.CarefulRunsAreTimely` | internal/pkg/redisqueue/client.go:306-383 | every run of such passes is a timely run |
| `QueuePasses.CarefulRunsAreSafe` | internal/pkg/redisqueue/client.go:306-383 | in every run of such passes with thresholds of 120 s and punctual acks each pending id has exactly one entry |
| `QueueClient.StuckOrAlive` | internal/pkg/redisqueue/client.go:337-367 | the entries put back and those left alone partition the processing list, into the expired ones and the others |
| `QueueClient.SweptAdvances` | internal/pkg/redisqueue/client.go:337-380 | one loop turn of the rescue pass equals running the rescue script on the entry, exactly when it is expired |
| `QueueDedup.KeptAndRepeats` | internal/pkg/redisqueue/client.go:405-421 | kept entries and repeats partition the list |
| `QueueDedup.KeptIsFirstOfEach` | internal/pkg/redisqueue/client.go:405-421 | of each readable id exactly the first entry is kept, once |
| `QueueDedup.KeptHasAllUnreadable` | internal/pkg/redisqueue/client.go:405-413 | entries without a readable id are all kept |
| `QueueDedup.DropAfterRemove` | internal/pkg/redisqueue/client.go:423-430 | deleting one copy by LREM and then the leading copies of the rest is deleting the leading copies of all |
| `QueueDedup.RepeatCount` | internal/pkg/redisqueue/client.go:405-421 | of an entry to keep all copies but one are deleted, of an unreadable one none, of any other all |
| `QueueDedup.FrontIsDropped` | internal/pkg/redisqueue/client.go:405-430 | nothing of the first j entries survives if and only if every entry to keep has its last copy behind them |
| `QueueDedup.OrderExactly` | internal/pkg/redisqueue/client.go:387-433 | the survivors stand in the order of the first entries if and only if of any two entries to keep the earlier one also has the earlier last copy |
| `QueueDedup.DeduplicationMayReorder` | internal/pkg/redisqueue/client.go:423-430 | on a list a, b, a the survivors change places, while on a, b, a, b they do not |
| `QueueClient.Client.PushTask` | internal/pkg/redisqueue/client.go:58-108 | refuses an empty id, reports an existing task exactly when the id was pending, and otherwise acts as the push script |
| `QueueClient.Client.PopTask` | internal/pkg/redisqueue/client.go:135-159 | moves the oldest entry to processing and writes its start time, or reports that there is no task |
| `QueueClient.Client.RemoveFromPendingSet` | internal/pkg/redisqueue/client.go:437-445 | drops the id's pending mark and nothing else; an empty id is refused |
| `QueueClient.Client.constructor` | internal/pkg/redisqueue/client.go:206-217 | the ack script's test of an entry is Lua's search in the entry's text, which for a decimal id is a test of that entry's task id |
| `QueueClient.Client.FindByText` | internal/pkg/redisqueue/client.go:213-222 | the scan stops at the first entry whose text holds the id, or finds none when there is none |
| `QueueClient.Client.FirstHitIsFirstWithId` | internal/pkg/redisqueue/client.go:213-222 | for a decimal id the first entry found is the first entry of that id |
| `QueueClient.Client.RunAckScript` | internal/pkg/redisqueue/client.go:206-229 | the first entry found goes, if any, and pending mark and start time of the id go in any case |
| `QueueClient.Client.AckTask` | internal/pkg/redisqueue/client.go:206-257 | for every id the first entry found by the text search goes, with the id's pending mark and start time; for decimal ids that is the first entry of the id and nothing else; an empty id is refused without effect |
| `QueueClient.Client.RescueStuckTasks` | internal/pkg/redisqueue/client.go:306-383 | a lone pass moves an entry if and only if it has an id and its start time lies more than the threshold back, or it has no start time but a creation time that does; the others stay in order, the moved ones go on the head of the task list in reverse scan order, exactly their start times are deleted, their number is returned and pending is left alone; orphan start times are cleared when nothing is in processing |
| `QueueClient.Client.Sweep` | internal/pkg/redisqueue/client.go:333-382 | the loop of the pass reaches the described store and count |
| `QueueClient.Client.RunRescueScript` | internal/pkg/redisqueue/client.go:293-301 | moves the entry only if it is still in processing, and says so |
| `QueueClient.Client.ClearStamps` | internal/pkg/redisqueue/client.go:325-331 | deletes exactly the given start times |
| `QueueClient.Client.FindDuplicates` | internal/pkg/redisqueue/client.go:401-421 | collects, in order, every entry whose id occurred before |
| `QueueClient.Client.DeduplicateQueue` | internal/pkg/redisqueue/client.go:387-433 | what remains is the list without the leading copies of its repeats: the first entry of every id plus all unreadable entries, in the order of the first entries if and only if the condition on last copies holds, and the count is the number removed |
| `TaskText.QuoteFollowsBackslash` | internal/api/scheduler/scheduler.go:487-497 | inside an escaped string every quote stands behind a backslash |
| `TaskText.HitIsField` | internal/pkg/redisqueue/client.go:217 | an occurrence of the ack pattern anywhere in the text is a real key `taskId` followed by that literal, never part of a keyword |
| `TaskText.FieldIsMember` | internal/pkg/redisqueue/client.go:217 | a key with a string behind it in the text is a member of the object with that string value |
| `TaskText.AckByTextIsAckById` | internal/pkg/redisqueue/client.go:213-222 | the text of a request contains `"taskId":"<id>"` if and only if its task id is that decimal id, whatever its other fields hold |
| `TaskReader.EscapeReadsBack` | internal/api/scheduler/scheduler.go:487-497 | an escaped string (section 7 of RFC 8259) reads back as the string |
| `TaskReader.ObjectReadsBack` | internal/pkg/redisqueue/client.go:84 | the text of an object reads back as its names and values, in order |
| `TaskReader.RequestReadsBack` | internal/pkg/redisqueue/client.go:147-150 | reading a written request gives that request, field by field, whatever its strings hold |
| `TaskReader.SameTextSameRequest` | internal/pkg/redisqueue/client.go:294 | two requests have the same text if and only if they are equal, so LREM by text removes that request |
| `TokenBucket.Key.Run` | internal/pkg/ratelimit/ratelimit.go:15-53 | the script's verdict, new tokens, refill time and expiry; non-positive limits admit everything and change nothing |
| `TokenBucket.LevelIsLeastAllowance` | internal/pkg/ratelimit/ratelimit.go:26-50 | the token level is the least allowance over all windows ending in the call, and the refill time is the running maximum of the clocks |
| `TokenBucket.AdmittedIffEveryWindowAllows` | internal/pkg/ratelimit/ratelimit.go:26-52 | for any clocks, a call is admitted if and only if on every window the admissions plus one fit burst + rate * elapsed / 1000 |
| `TokenBucket.MostPermissive` | internal/pkg/ratelimit/ratelimit.go:26-52 | no limiter that obeys the bound on every window has admitted more calls at any point of any run |
| `TokenBucket.BucketIsObedient` | internal/pkg/ratelimit/ratelimit.go:26-52 | the bucket itself obeys the bound on every window |
| `TokenBucket.FullAfterLifetime` | internal/pkg/ratelimit/ratelimit.go:45-51 | after the key's time to live the bucket would be full anyway |
| `TokenBucket.LifetimeIsTwoRefills` | internal/pkg/ratelimit/ratelimit.go:45-51 | the time to live is the least whole number of milliseconds in which an empty bucket fills up twice |
| `TokenBucket.ExpiryAndRefusalsUnobservable` | internal/pkg/ratelimit/ratelimit.go:29-51 | with a clock that never runs back, expiring keys when due and erasing any refused calls changes no verdict of the calls that remain |
| `TokenBucket.Replay` | internal/pkg/ratelimit/ratelimit.go:15-53 | a stored key called along a clock that never runs back, and expired by that clock, gives exactly the verdicts of the run without expiry |
| `Drain.InvHolds` | internal/crawler/browser.go:280-385 | the invariant on counter, mutex, channel and program counters holds in every interleaving of pages and repeated drains |
| `Drain.NoLostWakeUp` | internal/crawler/browser.go:294-385 | while the waiter blocks on an open channel, it is the current channel and some page is active or on its way to close it |
| `Drain.NeverStranded` | internal/crawler/browser.go:294-385 | while the waiter blocks on an open channel some page can take a step that does not wait for the rotator's lock, so pages at rest imply a closed channel |
| `Drain.ClosedOnce` | internal/crawler/browser.go:330-385 | no drain channel is closed twice, by pages or by completeDraining |
| `Drain.CounterIsExact` | internal/crawler/browser.go:349-370 | the counter is the number of pages between their two counter updates |
| `DrainEnd.IdleExactly` | internal/crawler/browser.go:349-370 | from a moment without active pages on, there is none again exactly when whoever entered since has left |
| `DrainEnd.CloserFindsIdleExactly` | internal/crawler/browser.go:294-385 | when a page is about to close the drain channel, no page is active if and only if whoever entered since that page counted itself out has left again |
| `DrainEnd.RefusedExactlyWhileDraining` | internal/crawler/browser.go:349-354 | in every run, a page that loads the flag during a drain is turned away for good, and any other goes on to read the browser |
| `DrainEnd.RefusedWithoutBrowser` | internal/crawler/browser.go:356-365 | a page that finds no browser is turned away for good, uncounted |
| `DrainEnd.LetInBeforeDrain` | internal/crawler/browser.go:349-366 | a page on its way in, active or on its way out during a drain loaded the flag before it went up, while it was down |
| `DrainEnd.ClosesExactlyAsLastOfDrain` | internal/crawler/browser.go:369-374 | a leaving page goes on to the drain channel if and only if the flag is up and its count is down to zero |
| `DrainEnd.WoundUpWhenIdle` | internal/crawler/browser.go:330-345 | between two drains the flag is down, no channel is in place and every channel ever made has been closed |
| `DrainEnd.DrainMayEndEarly` | internal/crawler/browser.go:369-385 | a run in which the waiter's channel is closed while a page is in use |
| `Ingest.TaskBook.LinkTaskItem` | internal/api/scheduler/scheduler.go:894-906 | inserts the row, or updates only the rank of an existing one |
| `Ingest.TaskBook.ProcessOne` | internal/api/scheduler/scheduler.go:558-686 | one item's effect on cache, item prices, link rows, anchor and notices; `Notices.ShareOfItem` says which notice |
| `Ingest.TaskBook.WalkOne` | internal/api/scheduler/scheduler.go:558-686 | one turn of the loop over the batch, and the notices it sends |
| `Ingest.TaskBook.WalkItems` | internal/api/scheduler/scheduler.go:555-686 | the loop's effect and the notices it sends, in order, if the user is to be notified |
| `Ingest.TaskBook.ProcessItems` | internal/api/scheduler/scheduler.go:552-690 | the whole method, clean-up included; which mails these notices are is stated by `Notices.MailsExactly` |
| `IngestRuns.OthersUntouched` | internal/api/scheduler/scheduler.go:558-686 | an id that a batch does not mention keeps its cache entry, item price and link row |
| `IngestRuns.StaysConsistent` | internal/api/scheduler/scheduler.go:558-686 | linked items stay cached and cached items keep an item row |
| `IngestRuns.CacheAfterRun` | internal/api/scheduler/scheduler.go:564-658 | after every run of batches the cache holds each id's price at its latest sighting and nothing else, and the item table has the same prices |
| `IngestRuns.PricesStayAgreed` | internal/api/scheduler/scheduler.go:592-658 | the item table keeps the cached prices |
| `IngestRuns.BlankIdsUntouched` | internal/api/scheduler/scheduler.go:559-562 | items with a blank id leave no trace |
| `IngestRuns.ItemPriceIsWritten` | internal/api/scheduler/scheduler.go:649-658 | a new or changed price ends up in the item table and the cache |
| `IngestRuns.OnlyDropsMoveTheTime` | internal/api/scheduler/scheduler.go:661-668 | a known item's row gets the time of the touch if and only if its price dropped, and its new rank in any case |
| `IngestRuns.MissingItemRowIsSkipped` | internal/api/scheduler/scheduler.go:635-645 | a known item without item row and with unchanged price is left alone |
| `IngestRuns.NoticesFollowSightings` | internal/api/scheduler/scheduler.go:592-686 | in every run the drop branch fires, with the right old price, exactly at a strict descent from the latest earlier sighting, and the new-item branch exactly at a first sighting |
| `IngestRuns.NewAtMostOnce` | internal/api/scheduler/scheduler.go:592-626 | the new-item branch is taken at most once per source id in a run |
| `Notices.ShareOfItem` | internal/api/scheduler/scheduler.go:555-686 | what one item adds to the mails: found-new if it is unknown and nothing known stands before it, price-drop with the cached price if it got cheaper, else nothing |
| `Notices.MailsExactly` | internal/api/scheduler/scheduler.go:555-686 | a batch mails exactly these, for every item |
| `Notices.SentInOrder` | internal/api/scheduler/scheduler.go:555-686 | the mails of a batch are about its items, in the order of the batch, at most one for each |
| `Notices.DropsInRun` | internal/api/scheduler/scheduler.go:660-679 | in every run an item is mailed as cheaper if and only if its price is below that of its latest earlier sighting, which is the price quoted |
| `Notices.NewInRun` | internal/api/scheduler/scheduler.go:592-619 | in every run an item is mailed as new if and only if it was never sighted before and no item before it in the batch has a link row yet |
| `IngestRuns.AnchorIsNearest` | internal/api/scheduler/scheduler.go:573-590 | the anchor carried through the loop is the link time of the nearest earlier known item with a row |
| `IngestRuns.ExactlyTheHeadIsNew` | internal/api/scheduler/scheduler.go:555-626 | an unknown item is really new if and only if no known item with a link row stands before it; otherwise it gets the nearest such item's link time, and its row keeps that time to the end of the batch |
| `IngestRuns.LaterItemsLeaveLink` | internal/api/scheduler/scheduler.go:558-686 | with distinct ids, later items of the batch do not touch an item's entries |
| `IngestRuns.FirstRunSettles` | internal/api/scheduler/scheduler.go:592-658 | after a batch, cache, item row and rank agree with every item of it |
| `IngestRuns.RedeliveryIsHarmless` | internal/api/scheduler/scheduler.go:552-690 | processing the same items again at any later time sends no notice and leaves cache, prices, link times and ranks unchanged, if clean-up removed none of the batch's rows |
| `IngestRuns.OverfullFirstBatchVanishes` | internal/api/scheduler/scheduler.go:698-744 | a first batch of distinct ids that leaves more rows than the cap ends with no rows at all |
| `IngestRuns.DeletedRowReturnsAsNewest` | internal/api/scheduler/scheduler.go:634-653 | a known item whose row was deleted gets the batch time at its next sighting without a drop, and no notice |
| `Timeline.NewFeedFollows` | internal/api/scheduler/scheduler.go:894-906 | after gains at the head and losses anywhere, the feed is still followed if the rows the task has are in order along it |
| `Timeline.NewGainsKeepOrder` | internal/api/scheduler/scheduler.go:894-906 | they are, whatever is lost, when the gained items are new to the task |
| `Timeline.BatchKeepsOrder` | internal/api/scheduler/scheduler.go:552-626 | a batch fetched from the head of a feed whose rows are in order keeps them in order and leaves its own strictly in timeline order |
| `Timeline.KnownKeepsTime` | internal/api/scheduler/scheduler.go:628-658 | without a price drop a known item keeps its link time |
| `Timeline.OrderedExactly` | internal/api/scheduler/scheduler.go:552-690 | a batch of distinct ids ends up strictly in timeline order if and only if the link times of its known items did not increase along it |
| `Timeline.TurnKeepsOrder` | internal/api/scheduler/scheduler.go:552-626 | one batch keeps link times descending along the feed and leaves its own rows strictly in timeline order |
| `Timeline.LinksFollowFeed` | internal/api/scheduler/scheduler.go:552-626 | after every allowed run link times never increase along the feed |
| `Timeline.OnlyOneSorted` | internal/api/server.go:881-887 | rows with strictly increasing sort keys have only one sorted arrangement |
| `Timeline.TimelineFollowsFeed` | internal/api/server.go:881-887 | after every run of a feed along which existing rows stay in order, ordering the latest batch's rows by created_at DESC, rank ASC gives back that batch's own order |
| `Timeline.FreshRunIsAllowed` | internal/api/scheduler/scheduler.go:552-626 | a feed that gains only items new to the task, loses items anywhere and is fetched to any depth is such a run |
| `Timeline.AllowedRunIsPlain` | internal/api/scheduler/scheduler.go:552-690 | the batches of such a run are one of the runs of the next row |
| `Timeline.TimelineOrderExactly` | internal/api/server.go:881-887 | in every run of distinct-id batches, from whatever feeds, the sorted rows give back the latest batch's order if and only if the link times of the items known before do not increase along it |
| `Timeline.ReturningItemIsShownLate` | internal/api/scheduler/scheduler.go:573-643 | gain a, gain b and lose a, gain a again: every sorted answer for the batch a, b is b, a |
| `Cleanup.NewestFirst` | internal/api/scheduler/scheduler.go:716-722 | the ordered query: every row once, newest first, then by rank |
| `Cleanup.SameCutoff` | internal/api/scheduler/scheduler.go:713-722 | the cutoff time does not depend on how the database breaks ties |
| `Cleanup.KeptCount` | internal/api/scheduler/scheduler.go:733-738 | at most the cap stays, and exactly the cap if and only if the cap-th and the next time differ |
| `Cleanup.CleanupKeepsTheNewest` | internal/api/scheduler/scheduler.go:698-744 | at most the cap stays, every kept row is unchanged and strictly newer than every deleted one; when rows go, exactly those newer than the row at place cap stay, for every answer the ordered query may give, and they are as many as the cap exactly under the stated condition |
| `Cleanup.NothingStaysExactly` | internal/api/scheduler/scheduler.go:733-738 | no row stays if and only if the newest time is shared by more rows than the cap |
| `Cleanup.CleanupOldItems` | internal/api/scheduler/scheduler.go:698-744 | the method computes that set of rows, whatever ordering its query returns |
| `Price.FormatJPY` | internal/pkg/notify/email.go:136-150 | the printing loop writes groups of three from the right, joined by commas |
| `Price.GroupsOfThree` | internal/pkg/notify/email.go:136-150 | commas stand in front of every third character from the right and nowhere else |
| `Price.ParsePrice` | internal/crawler/parse.go:120-158 | the parser with its loop over matches computes the price whose meaning `Price.FirstCurrencyAmountWins` and `PriceText.LongestNumberWins` state |
| `Price.RunIsMaximal` | internal/crawler/parse.go:136 | every match of the digit expression is a maximal run of digits |
| `Price.MaximalIsRun` | internal/crawler/parse.go:136 | every maximal run of digits is a match |
| `Price.BestIsBest` | internal/crawler/parse.go:140-153 | the loop keeps a longest fitting match, the largest on ties, and nothing if none fits |
| `Price.LongestRunWins` | internal/crawler/parse.go:120-157 | without a currency amount that fits 64 bits, an overflowing one included, the result is the value of the longest maximal digit run of the cleaned text that fits, ties going to the larger value; it fails if and only if no run fits |
| `PriceText.RunsOfText` | internal/crawler/parse.go:129-136 | the digit runs found are the digits of the text's maximal blocks of digits, commas and yen signs, from left to right |
| `PriceText.LongestNumberWins` | internal/crawler/parse.go:120-157 | the same result said of the text itself: of these blocks' numbers that fit 64 bits the longest wins, ties going to the larger; there is none if and only if no number fits |
| `Price.FirstCurrencyAmountWins` | internal/crawler/parse.go:120-127 | the currency expression matches if and only if some yen sign is followed by white space and a digit; it takes the leftmost one with all of its digits and commas, whose value is the price if it fits 64 bits |
| `Price.GroupedStrips` | internal/pkg/notify/email.go:136-150 | dropping the commas of a grouped numeral gives the numeral back |
| `Price.PricesPrintAndParseBack` | internal/crawler/parse.go:120-158 | for every v in 0 .. 2^31-1, parsing the printed price, bare or behind a yen sign and any white space, gives v |
| `Price.MinusSignMayBeCutOff` | internal/pkg/notify/email.go:136-150 | a negative price is printed with a comma right behind the minus sign if and only if its digits fill whole groups of three |
| `SearchKey.EscapeRoundTrip` | internal/crawler/url_builder.go:64-65 | percent-encoding (section 2.1 of RFC 3986) can be read back, with blanks written as plus or as %20 |
| `SearchKey.KeysAreSorted` | internal/crawler/url_builder.go:64 | any two parameter names stand in increasing byte order along the order in which they are written |
| `SearchKey.SpacedJoin` | internal/crawler/url_builder.go:64-65 | rewriting every plus of the encoded query to %20 equals encoding blanks as %20 in the first place |
| `SearchKey.JoinInjective` | internal/crawler/url_builder.go:64-66 | an encoded query determines its list of names and values |
| `SearchKey.EncodeInjective` | internal/crawler/url_builder.go:64-66 | an encoded query determines the parameter map |
| `SearchKey.FillMercari` | internal/crawler/url_builder.go:25-62 | the parameters set and added step by step, with prices below 300 raised, non-positive bounds dropped and blank exclude keywords skipped |
| `SearchKey.BlankTextIsAllSpace` | internal/crawler/url_builder.go:46-48 | on the bytes of a UTF-8 text the blank test is the test that all characters are white space |
| `SearchKey.BuildMercariURL` | internal/crawler/url_builder.go:23-67 | the URL with the query in sorted order and blanks as %20; `SearchQuery.MercariURLSays` says what it says |
| `SearchKey.MercariURLNamesOneSearch` | internal/crawler/url_builder.go:23-67 | two Mercari URLs are equal if and only if keyword, non-blank exclude keywords in their order, effective price bounds, sort and order are equal |
| `SearchKey.BuildDedupURL` | internal/api/server.go:791-827 | the key of a request, in both URL forms, empty for an empty keyword |
| `SearchKey.KeyNamesOneSearch` | internal/api/server.go:791-827 | for nonempty keywords and accepted sorts, two keys are equal if and only if platform, keyword, sort, order and effective price bounds are equal |
| `SearchQuery.QueryReadsBack` | internal/crawler/url_builder.go:64-66 | cutting an encoded query at `&` and `=` and unescaping gives back its names and values in order |
| `SearchQuery.MercariURLSays` | internal/crawler/url_builder.go:23-111 | a Mercari URL gives, by name, the keyword, status on_sale, the decimal bounds, the exclude keywords that are not blank, sort price, score, num_likes or created_time, and order asc if and only if it is ascending |
| `SearchQuery.NoOtherParameters` | internal/crawler/url_builder.go:25-66 | and no other parameter |
| `SearchQuery.OtherKeySays` | internal/api/server.go:809-826 | the key of another platform gives, by name, keyword, bounds when positive, sort and order numbers |
| `SearchQuery.KeyNeedsKeyword` | internal/api/server.go:791-794 | a request has no key if and only if it has no keyword |
| `Decimal.DigitsRoundTrip` | internal/api/scheduler/scheduler.go:908-910 | a printed number reads back as itself |
| `Decimal.NumeralOfValue` | internal/api/scheduler/scheduler.go:908-910 | a digit string without leading zeros is the numeral of its value |
| `Decimal.NumeralInjective` | internal/api/server.go:812-819 | two integers print alike only if they are equal |

## Left out

- QueueClient.Client.AckTask: Lua's `string.find` is a parameter of which only the search for decimal ids is fixed; how it reads magic characters in other ids is not modelled. The scheduler only makes decimal ids.
- QueueRuns.ResultBeforeAck: concerns the log of result pushes and acks; the consumer side (PopResult) is not modelled.
- Drain.NoLostWakeUp: the handshake is a state machine on values, not a class, so that goroutines can interleave at every instruction; the lock `s.mu` is not modelled, which only allows more interleavings, with one rotation at a time; `Drain.NeverStranded` therefore names a page that does not wait for that lock.
- Drain.InvHolds: does not claim that no page uses a replaced browser; trackPageStart reads the browser before it counts the page.
- Timeline.TimelineOrderExactly: assumes no price drop and no row removed by clean-up, because both change link rows on purpose.
- TokenBucket.Key.Run: arithmetic is exact over reals; rounding inside Redis is not modelled.
- PushTaskForce: it pushes and marks the id as pending in two commands and skips the check, so the queue invariants are not claimed for it.
- mapSortAndOrder: sort and order are taken as the enum numbers it returns.
- handleResult: the baseline and notify decision is the parameter `notify`; the "is new" mark of the timeline is not modelled.
- Guest mode ingestion, which writes to Redis only.
- Redis and database errors inside ingestion and the queue client; a run in which they occur is not covered.
- The item table is shared by all tasks; the model has one task, so nothing is claimed about several tasks that price the same item.
- The cached price is an integer here; its decimal text is covered by the round trip of numerals.
- Database time precision and collation of source ids.
- SHA-256 of the search key, taken to be collision-free.
- Page rendering, extraction, block detection, HTTP handlers, authentication, mail sending, configuration and metrics.
- The in-memory worker pool, the adaptive throttler and the proxy failure counter, which would only add simple counting.
