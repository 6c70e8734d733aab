/**
The browser drain handshake: page goroutines count themselves in and out, and one goroutine at a time drains
before it swaps the browser. Every atomic load, store, add, lock, channel make and channel close is a step of its
own, and the steps of all goroutines interleave freely.
*/
module Drain {

  type Chan = nat

  /** trackPageStart and trackPageEnd, by the next instruction of the goroutine. */
  datatype PagePc =
    | Fresh                           // load draining
    | MayEnter                        // read the browser
    | GotBrowser                      // activePages.Add(1)
    | Active                          // the page is in use; activePages.Add(-1)
    | Counted(newCount: int)          // load draining, compare newCount
    | WantsLock                       // drainMu.Lock
    | Locked                          // look at drainComplete
    | Closing(ch: Chan)               // close it
    | Unlocking                       // drainMu.Unlock
    | Gone

  /** rotateBrowser: startDraining, waitForDrain, completeDraining, by the next instruction. */
  datatype RotatorPc =
    | Idle
    | StartLocked | StartSetting | StartMaking | StartUnlocking
    | WaitCheckDraining | WaitCheckPages | WaitLock | WaitLocked | WaitUnlocking(seen: MaybeChan) | WaitTest(seen: MaybeChan)
    | Blocked(ch: Chan)
    | EndLock | EndLocked | EndLooking | EndClosing(ch: Chan) | EndClearing | EndUnlocking

  datatype MaybeChan = NoChan | ChanIs(ch: Chan)

  datatype Owner = Nobody | Rotator | Page(p: nat)

  datatype State = State(
    draining: bool, activePages: int, drainComplete: MaybeChan, mutex: Owner,
    made: nat,               // channels made so far are 0 .. made - 1
    closed: set<Chan>,
    closedTwice: bool,       // set by a close of a closed channel, where Go panics
    pages: map<nat, PagePc>, rotator: RotatorPc)

  const INIT := State(false, 0, NoChan, Nobody, 0, {}, false, map[], Idle)

  /** A step of the rotator, of page goroutine `p`, or the birth of `p`. `alt` picks between outcomes left open. */
  datatype Step = Spawn(p: nat) | PageStep(p: nat, alt: bool) | RotatorStep(alt: bool)

  function Close(s: State, ch: Chan): State {
    s.(closed := s.closed + {ch}, closedTwice := s.closedTwice || ch in s.closed)
  }

  // ---------------------------------------------------------------- steps

  predicate PageEnabled(s: State, p: nat) {
    p in s.pages && s.pages[p] != Gone && (s.pages[p].WantsLock? ==> s.mutex.Nobody?)
  }

  /** `browserThere` is the outcome of reading the browser reference. */
  function PageNext(s: State, p: nat, browserThere: bool): State
    requires PageEnabled(s, p)
  {
    match s.pages[p]
    case Fresh => s.(pages := s.pages[p := if s.draining then Gone else MayEnter])
    case MayEnter => s.(pages := s.pages[p := if browserThere then GotBrowser else Gone])
    case GotBrowser => s.(pages := s.pages[p := Active], activePages := s.activePages + 1)
    case Active => s.(pages := s.pages[p := Counted(s.activePages - 1)], activePages := s.activePages - 1)
    case Counted(n) => s.(pages := s.pages[p := if s.draining && n <= 0 then WantsLock else Gone])
    case WantsLock => s.(pages := s.pages[p := Locked], mutex := Page(p))
    case Locked =>
      s.(pages := s.pages[p := if s.drainComplete.ChanIs? && s.drainComplete.ch !in s.closed
                               then Closing(s.drainComplete.ch) else Unlocking])
    case Closing(ch) => Close(s, ch).(pages := s.pages[p := Unlocking])
    case Unlocking => s.(pages := s.pages[p := Gone], mutex := Nobody)
    case Gone => s
  }

  predicate RotatorEnabled(s: State, timeout: bool) {
    match s.rotator
    case Idle => s.mutex.Nobody?
    case WaitLock => s.mutex.Nobody?
    case EndLock => s.mutex.Nobody?
    case Blocked(ch) => timeout || ch in s.closed
    case _ => true
  }

  function RotatorNext(s: State): State {
    match s.rotator
    case Idle => s.(rotator := StartLocked, mutex := Rotator)
    case StartLocked => s.(rotator := if s.draining then StartUnlocking else StartSetting)
    case StartSetting => s.(rotator := StartMaking, draining := true)
    case StartMaking => s.(rotator := StartUnlocking, drainComplete := ChanIs(s.made), made := s.made + 1)
    case StartUnlocking => s.(rotator := WaitCheckDraining, mutex := Nobody)
    case WaitCheckDraining => s.(rotator := if s.draining then WaitCheckPages else EndLock)
    case WaitCheckPages => s.(rotator := if s.activePages <= 0 then EndLock else WaitLock)
    case WaitLock => s.(rotator := WaitLocked, mutex := Rotator)
    case WaitLocked => s.(rotator := WaitUnlocking(s.drainComplete))
    case WaitUnlocking(seen) => s.(rotator := WaitTest(seen), mutex := Nobody)
    case WaitTest(seen) => s.(rotator := if seen.NoChan? then EndLock else Blocked(seen.ch))
    case Blocked(ch) => s.(rotator := EndLock)
    case EndLock => s.(rotator := EndLocked, mutex := Rotator)
    case EndLocked => s.(rotator := EndLooking, draining := false)
    case EndLooking =>
      s.(rotator := if s.drainComplete.NoChan? then EndUnlocking
                    else if s.drainComplete.ch in s.closed then EndClearing else EndClosing(s.drainComplete.ch))
    case EndClosing(ch) => Close(s, ch).(rotator := EndClearing)
    case EndClearing => s.(rotator := EndUnlocking, drainComplete := NoChan)
    case EndUnlocking => s.(rotator := Idle, mutex := Nobody)
  }

  predicate Enabled(s: State, step: Step) {
    match step
    case Spawn(p) => p !in s.pages
    case PageStep(p, _) => PageEnabled(s, p)
    case RotatorStep(alt) => RotatorEnabled(s, alt)
  }

  function Next(s: State, step: Step): State
    requires Enabled(s, step)
  {
    match step
    case Spawn(p) => s.(pages := s.pages[p := Fresh])
    case PageStep(p, alt) => PageNext(s, p, alt)
    case RotatorStep(_) => RotatorNext(s)
  }

  predicate IsRun(steps: seq<Step>)
    decreases |steps|, 0
  {
    steps == [] || (IsRun(steps[..|steps| - 1]) && Enabled(Play(steps[..|steps| - 1]), steps[|steps| - 1]))
  }

  function Play(steps: seq<Step>): State
    requires IsRun(steps)
    decreases |steps|, 1
  {
    if steps == [] then INIT else Next(Play(steps[..|steps| - 1]), steps[|steps| - 1])
  }

  // ---------------------------------------------------------------- the invariant

  function ActiveSet(pages: map<nat, PagePc>): set<nat> {
    set p | p in pages && pages[p].Active?
  }

  /** Page `p` has counted down to zero or below and is on its way to close the drain channel. */
  predicate WillClose(pages: map<nat, PagePc>, p: nat) {
    p in pages && match pages[p]
                  case Counted(n) => n <= 0
                  case WantsLock => true
                  case Locked => true
                  case Closing(_) => true
                  case _ => false
  }

  predicate HoldsLock(pc: PagePc) {
    pc.Locked? || pc.Closing? || pc.Unlocking?
  }

  predicate RotatorHoldsLock(pc: RotatorPc) {
    match pc
    case StartLocked => true case StartSetting => true case StartMaking => true case StartUnlocking => true
    case WaitLocked => true case WaitUnlocking(_) => true
    case EndLocked => true case EndLooking => true case EndClosing(_) => true case EndClearing => true case EndUnlocking => true
    case _ => false
  }

  /** The waiter has seen an active page while draining and has not been told to stop waiting. */
  predicate Committed(pc: RotatorPc) {
    pc.WaitLock? || pc.WaitLocked? || pc.WaitUnlocking? || pc.WaitTest? || pc.Blocked?
  }

  /** Between startDraining and completeDraining the flag is up and the channel is in place. */
  predicate Draining(pc: RotatorPc) {
    Committed(pc) || pc.StartUnlocking? || pc.WaitCheckDraining? || pc.WaitCheckPages? || pc.EndLock? || pc.EndLocked?
  }

  /** Outside of a drain the flag is down. */
  predicate BeforeOrAfter(pc: RotatorPc) {
    || pc.Idle? || pc.StartLocked? || pc.StartSetting?
    || pc.EndLooking? || pc.EndClosing? || pc.EndClearing? || pc.EndUnlocking?
  }

  predicate LockInv(s: State) {
    && (RotatorHoldsLock(s.rotator) <==> s.mutex.Rotator?)
    && (forall p :: p in s.pages && HoldsLock(s.pages[p]) ==> s.mutex == Page(p))
    && (s.mutex.Page? ==> s.mutex.p in s.pages && HoldsLock(s.pages[s.mutex.p]))
  }

  /** Channels in use exist, and whoever is about to close one has found it open and still is alone with it. */
  predicate ChannelInv(s: State) {
    && (forall ch :: ch in s.closed ==> ch < s.made)
    && (s.drainComplete.ChanIs? ==> s.drainComplete.ch < s.made)
    && (s.rotator.EndClosing? ==> s.drainComplete == ChanIs(s.rotator.ch) && s.rotator.ch !in s.closed)
    && (forall p :: p in s.pages && s.pages[p].Closing? ==>
          s.drainComplete == ChanIs(s.pages[p].ch) && s.pages[p].ch !in s.closed)
    && !s.closedTwice
  }

  /** The rotator alone writes the draining flag and the channel, in step with its program. */
  predicate RotatorInv(s: State) {
    && (Draining(s.rotator) ==> s.draining && s.drainComplete.ChanIs?)
    && (s.rotator.StartMaking? ==> s.draining)
    && (BeforeOrAfter(s.rotator) ==> !s.draining)
    && (s.rotator.Blocked? ==> s.drainComplete == ChanIs(s.rotator.ch))
    && (s.rotator.WaitTest? ==> s.rotator.seen == s.drainComplete)
    && (s.rotator.WaitUnlocking? ==> s.rotator.seen == s.drainComplete)
  }

  /** While the waiter is committed and the channel is open, someone is left who will close it. */
  predicate WakeUpInv(s: State) {
    Committed(s.rotator) && s.drainComplete.ChanIs? && s.drainComplete.ch !in s.closed ==>
      s.activePages > 0 || exists p :: p in s.pages && WillClose(s.pages, p)
  }

  predicate Inv(s: State) {
    && s.activePages == |ActiveSet(s.pages)|
    && LockInv(s) && ChannelInv(s) && RotatorInv(s) && WakeUpInv(s)
  }

  // ---------------------------------------------------------------- every step keeps it

  lemma ActiveSetStep(pages: map<nat, PagePc>, p: nat, pc: PagePc)
    ensures var after := ActiveSet(pages[p := pc]);
            |after| == |ActiveSet(pages)| - (if p in pages && pages[p].Active? then 1 else 0) + (if pc.Active? then 1 else 0)
  {
    var before, after := ActiveSet(pages), ActiveSet(pages[p := pc]);
    assert after - {p} == before - {p};
    assert p in before ==> |before - {p}| == |before| - 1;
    assert p in after ==> |after - {p}| == |after| - 1;
    assert p !in before ==> before - {p} == before;
    assert p !in after ==> after - {p} == after;
  }

  lemma PageKeepsLock(s: State, p: nat, alt: bool)
    requires LockInv(s) && PageEnabled(s, p)
    ensures LockInv(PageNext(s, p, alt))
  {
  }

  lemma PageKeepsChannel(s: State, p: nat, alt: bool)
    requires LockInv(s) && ChannelInv(s) && PageEnabled(s, p)
    ensures ChannelInv(PageNext(s, p, alt))
  {
  }

  lemma PageKeepsRotator(s: State, p: nat, alt: bool)
    requires RotatorInv(s) && PageEnabled(s, p)
    ensures RotatorInv(PageNext(s, p, alt))
  {
  }

  /** A page that stops being a closer has closed the channel. */
  lemma PageKeepsWakeUp(s: State, p: nat, alt: bool)
    requires Inv(s) && PageEnabled(s, p)
    ensures WakeUpInv(PageNext(s, p, alt))
  {
    var t := PageNext(s, p, alt);
    if Committed(s.rotator) && t.drainComplete.ch !in t.closed {
      if s.activePages > 0 {
        assert s.pages[p].Active? ==> t.activePages > 0 || WillClose(t.pages, p);
      } else {
        var q :| q in s.pages && WillClose(s.pages, q);
        assert q in t.pages && WillClose(t.pages, q);
      }
    }
  }

  lemma PageKeepsInv(s: State, p: nat, alt: bool)
    requires Inv(s) && PageEnabled(s, p)
    ensures Inv(PageNext(s, p, alt))
  {
    var t := PageNext(s, p, alt);
    ActiveSetStep(s.pages, p, t.pages[p]);
    PageKeepsLock(s, p, alt);
    PageKeepsChannel(s, p, alt);
    PageKeepsRotator(s, p, alt);
    PageKeepsWakeUp(s, p, alt);
  }

  lemma RotatorKeepsLocks(s: State, timeout: bool)
    requires Inv(s) && RotatorEnabled(s, timeout)
    ensures LockInv(RotatorNext(s)) && ChannelInv(RotatorNext(s))
  {
  }

  lemma RotatorKeepsInv(s: State, timeout: bool)
    requires Inv(s) && RotatorEnabled(s, timeout)
    ensures Inv(RotatorNext(s))
  {
    RotatorKeepsLocks(s, timeout);
    assert RotatorInv(RotatorNext(s));
  }

  lemma SpawnKeepsInv(s: State, p: nat)
    requires Inv(s) && p !in s.pages
    ensures Inv(s.(pages := s.pages[p := Fresh]))
  {
    var t := s.(pages := s.pages[p := Fresh]);
    ActiveSetStep(s.pages, p, Fresh);
    if exists q :: q in s.pages && WillClose(s.pages, q) {
      var q :| q in s.pages && WillClose(s.pages, q);
      assert WillClose(t.pages, q);
    }
  }

  lemma {:induction false} InvHolds(steps: seq<Step>)
    requires IsRun(steps)
    ensures Inv(Play(steps))
  {
    if steps == [] {
      assert ActiveSet(map[]) == {};
    } else {
      var s, step := Play(steps[..|steps| - 1]), steps[|steps| - 1];
      InvHolds(steps[..|steps| - 1]);
      match step
      case Spawn(p) => SpawnKeepsInv(s, p);
      case PageStep(p, alt) => PageKeepsInv(s, p, alt);
      case RotatorStep(alt) => RotatorKeepsInv(s, alt);
    }
  }

  // ---------------------------------------------------------------- what it gives

  /**
  No lost wake-up: whenever the waiter is blocked on an open channel, a page is still active, or a page that
  counted down to zero or below is on its way to close that very channel.
  */
  lemma NoLostWakeUp(steps: seq<Step>)
    requires IsRun(steps)
    requires var s := Play(steps); s.rotator.Blocked? && s.rotator.ch !in s.closed
    ensures var s := Play(steps);
            && s.drainComplete == ChanIs(s.rotator.ch)
            && exists p :: p in s.pages && (s.pages[p].Active? || WillClose(s.pages, p))
  {
    InvHolds(steps);
    var s := Play(steps);
    if s.activePages > 0 {
      assert ActiveSet(s.pages) != {};
      var p :| p in ActiveSet(s.pages);
      assert s.pages[p].Active?;
    }
  }

  /**
  The waiter is never stranded: as long as it is blocked on an open channel, some page goroutine can take a step
  other than reading the browser, which waits for the rotator's own lock; so if the pages come to rest the channel
  has been closed.
  */
  lemma NeverStranded(steps: seq<Step>)
    requires IsRun(steps)
    requires var s := Play(steps); s.rotator.Blocked? && s.rotator.ch !in s.closed
    ensures exists p :: PageEnabled(Play(steps), p) && !Play(steps).pages[p].MayEnter?
  {
    InvHolds(steps);
    NoLostWakeUp(steps);
    var s := Play(steps);
    var p :| p in s.pages && (s.pages[p].Active? || WillClose(s.pages, p));
    if s.pages[p].WantsLock? && s.mutex.Page? {
      assert PageEnabled(s, s.mutex.p) && HoldsLock(s.pages[s.mutex.p]);
    } else {
      assert PageEnabled(s, p);
    }
  }

  /** No channel is ever closed twice. */
  lemma ClosedOnce(steps: seq<Step>)
    requires IsRun(steps)
    ensures !Play(steps).closedTwice
  {
    InvHolds(steps);
  }

  /** The page counter is exact: it is the number of pages between their two counter updates, never negative. */
  lemma CounterIsExact(steps: seq<Step>)
    requires IsRun(steps)
    ensures Play(steps).activePages == |ActiveSet(Play(steps).pages)|
  {
    InvHolds(steps);
  }
}
