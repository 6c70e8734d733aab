/**
What the end of a drain says about the pages. waitForDrain is meant to return true once all active pages are closed;
here is exactly when that is so, and a run in which it is not.
*/
module DrainEnd {
  import opened Drain

  // ---------------------------------------------------------------- are all pages closed when the channel is?

  lemma {:induction false} PrefixIsRun(steps: seq<Step>, i: nat)
    requires IsRun(steps) && i <= |steps|
    ensures IsRun(steps[..i])
  {
    if i == |steps| {
      assert steps[..i] == steps;
    } else {
      PrefixIsRun(steps[..|steps| - 1], i);
      assert steps[..|steps| - 1][..i] == steps[..i];
    }
  }

  /** The state before step `i` of a run. */
  ghost function At(steps: seq<Step>, i: nat): State
    requires IsRun(steps) && i <= |steps|
  {
    PrefixIsRun(steps, i);
    Play(steps[..i])
  }

  lemma AtNext(steps: seq<Step>, i: nat)
    requires IsRun(steps) && i < |steps|
    ensures Enabled(At(steps, i), steps[i]) && At(steps, i + 1) == Next(At(steps, i), steps[i])
  {
    PrefixIsRun(steps, i + 1);
    assert steps[..i + 1][..i] == steps[..i] && steps[..i + 1][i] == steps[i];
  }

  predicate ActiveIn(s: State, q: nat) {
    q in s.pages && s.pages[q].Active?
  }

  /** Step `i` of the run is page `q` counting itself in. */
  ghost predicate Enters(steps: seq<Step>, i: nat, q: nat)
    requires IsRun(steps) && i < |steps|
  {
    var s := At(steps, i);
    steps[i].PageStep? && steps[i].p == q && q in s.pages && s.pages[q].GotBrowser?
  }

  /** Step `i` of the run is page `q` counting itself out. */
  ghost predicate Leaves(steps: seq<Step>, i: nat, q: nat)
    requires IsRun(steps) && i < |steps|
  {
    steps[i].PageStep? && steps[i].p == q && ActiveIn(At(steps, i), q)
  }

  /** What one step does to a page `q`. */
  lemma PageMoves(s: State, step: Step, q: nat)
    requires Enabled(s, step)
    ensures var t := Next(s, step);
            if step == Spawn(q) then q in t.pages && t.pages[q].Fresh?
            else if step.PageStep? && step.p == q then q in s.pages && q in t.pages && Follows(s.pages[q], t.pages[q])
            else (q in s.pages <==> q in t.pages) && (q in s.pages ==> t.pages[q] == s.pages[q])
  {
  }

  /** The order of a page's instructions. */
  predicate Follows(before: PagePc, after: PagePc) {
    match before
    case Fresh => after.Gone? || after.MayEnter?
    case MayEnter => after.Gone? || after.GotBrowser?
    case GotBrowser => after.Active?
    case Active => after.Counted?
    case Counted(n) => after.Gone? || (after.WantsLock? && n <= 0)
    case WantsLock => after.Locked?
    case Locked => after.Closing? || after.Unlocking?
    case Closing(_) => after.Unlocking?
    case _ => after.Gone?
  }

  /** A page that was active and has not left still is. */
  lemma {:induction false} StaysActive(steps: seq<Step>, k: nat, n: nat, q: nat)
    requires IsRun(steps) && k <= n <= |steps| && ActiveIn(At(steps, k), q)
    requires forall l :: k <= l < n ==> !Leaves(steps, l, q)
    ensures ActiveIn(At(steps, n), q)
    decreases n
  {
    if k < n {
      StaysActive(steps, k, n - 1, q);
      AtNext(steps, n - 1);
      PageMoves(At(steps, n - 1), steps[n - 1], q);
      assert !Leaves(steps, n - 1, q);
    }
  }

  /** A page past its use of the browser. */
  predicate Out(s: State, q: nat) {
    q in s.pages && (s.pages[q].Counted? || s.pages[q].WantsLock? || HoldsLock(s.pages[q]) || s.pages[q].Gone?)
  }

  lemma {:induction false} StaysOut(steps: seq<Step>, k: nat, n: nat, q: nat)
    requires IsRun(steps) && k <= n <= |steps| && Out(At(steps, k), q)
    ensures Out(At(steps, n), q)
    decreases n
  {
    if k < n {
      StaysOut(steps, k, n - 1, q);
      AtNext(steps, n - 1);
      PageMoves(At(steps, n - 1), steps[n - 1], q);
    }
  }

  lemma {:induction false} ActiveHasEntered(steps: seq<Step>, m: nat, n: nat, q: nat) returns (k: nat)
    requires IsRun(steps) && m <= n <= |steps| && !ActiveIn(At(steps, m), q) && ActiveIn(At(steps, n), q)
    ensures m <= k < n && Enters(steps, k, q)
    decreases n
  {
    AtNext(steps, n - 1);
    PageMoves(At(steps, n - 1), steps[n - 1], q);
    if ActiveIn(At(steps, n - 1), q) {
      k := ActiveHasEntered(steps, m, n - 1, q);
    } else {
      k := n - 1;
    }
  }

  /** Whoever entered between steps `m` and `n` has left again. */
  ghost predicate AllLeftAgain(steps: seq<Step>, m: nat, n: nat)
    requires IsRun(steps) && n <= |steps|
  {
    forall k, q :: m <= k < n && Enters(steps, k, q) ==> exists l :: k < l < n && Leaves(steps, l, q)
  }

  lemma NobodyActive(steps: seq<Step>, n: nat)
    requires IsRun(steps) && n <= |steps|
    ensures At(steps, n).activePages == 0 <==> forall q :: !ActiveIn(At(steps, n), q)
  {
    PrefixIsRun(steps, n);
    InvHolds(steps[..n]);
    var s := At(steps, n);
    if s.activePages == 0 {
      forall q
        ensures !ActiveIn(s, q)
      {
        assert q !in ActiveSet(s.pages);
      }
    } else {
      assert ActiveSet(s.pages) != {};
      var q :| q in ActiveSet(s.pages);
      assert ActiveIn(s, q);
    }
  }

  lemma StillActive(steps: seq<Step>, k: nat, n: nat, q: nat)
    requires IsRun(steps) && k < n <= |steps| && Enters(steps, k, q)
    requires forall l :: k < l < n ==> !Leaves(steps, l, q)
    ensures ActiveIn(At(steps, n), q)
  {
    AtNext(steps, k);
    StaysActive(steps, k + 1, n, q);
  }

  lemma LeftIsNotActive(steps: seq<Step>, l: nat, n: nat, q: nat)
    requires IsRun(steps) && l < n <= |steps| && Leaves(steps, l, q)
    ensures !ActiveIn(At(steps, n), q)
  {
    AtNext(steps, l);
    StaysOut(steps, l + 1, n, q);
  }

  /** From a moment without active pages on, there is again none exactly when whoever entered has left. */
  lemma IdleExactly(steps: seq<Step>, m: nat, n: nat)
    requires IsRun(steps) && m <= n <= |steps| && At(steps, m).activePages == 0
    ensures At(steps, n).activePages == 0 <==> AllLeftAgain(steps, m, n)
  {
    NobodyActive(steps, m);
    NobodyActive(steps, n);
    if At(steps, n).activePages == 0 {
      forall k, q | m <= k < n && Enters(steps, k, q)
        ensures exists l :: k < l < n && Leaves(steps, l, q)
      {
        if forall l :: k < l < n ==> !Leaves(steps, l, q) {
          StillActive(steps, k, n, q);
        }
      }
    } else if AllLeftAgain(steps, m, n) {
      var q :| ActiveIn(At(steps, n), q);
      var k := ActiveHasEntered(steps, m, n, q);
      var l :| k < l < n && Leaves(steps, l, q);
      LeftIsNotActive(steps, l, n, q);
    }
  }

  /** A page that left others behind does not go on to close the channel. */
  lemma {:induction false} NotLast(steps: seq<Step>, k: nat, n: nat, p: nat)
    requires IsRun(steps) && k <= n <= |steps|
    requires var s := At(steps, k); p in s.pages && s.pages[p].Counted? && s.pages[p].newCount > 0
    ensures var s := At(steps, n); p in s.pages && (s.pages[p] == At(steps, k).pages[p] || s.pages[p].Gone?)
    decreases n
  {
    if k < n {
      NotLast(steps, k, n - 1, p);
      AtNext(steps, n - 1);
      PageMoves(At(steps, n - 1), steps[n - 1], p);
    }
  }

  /**
  What waitForDrain's answer means: when page `p`, which counted itself out at step `d`, is about to close the
  channel, no page is active if and only if whoever entered since step `d` has left again.
  */
  lemma CloserFindsIdleExactly(steps: seq<Step>, d: nat, p: nat)
    requires IsRun(steps) && d < |steps| && Leaves(steps, d, p)
    requires p in Play(steps).pages && Play(steps).pages[p].Closing?
    ensures Play(steps).activePages == 0 <==> AllLeftAgain(steps, d + 1, |steps|)
  {
    AtNext(steps, d);
    PrefixIsRun(steps, d + 1);
    InvHolds(steps[..d + 1]);
    assert steps[..|steps|] == steps;
    if At(steps, d + 1).activePages > 0 {
      NotLast(steps, d + 1, |steps|, p);
    }
    IdleExactly(steps, d + 1, |steps|);
  }

  // ---------------------------------------------------------------- who is let in

  /** Step `i` of the run is page `p` loading the draining flag on its way in. */
  ghost predicate AsksToEnter(steps: seq<Step>, i: nat, p: nat)
    requires IsRun(steps) && i < |steps|
  {
    var s := At(steps, i);
    steps[i].PageStep? && steps[i].p == p && p in s.pages && s.pages[p].Fresh?
  }

  /** A page that asks during a drain is turned away for good, and any other page goes on to read the browser. */
  lemma RefusedExactlyWhileDraining(steps: seq<Step>, i: nat, p: nat, n: nat)
    requires IsRun(steps) && i < n <= |steps| && AsksToEnter(steps, i, p)
    ensures At(steps, i).draining ==> p in At(steps, n).pages && At(steps, n).pages[p].Gone?
    ensures !At(steps, i).draining ==> p in At(steps, i + 1).pages && At(steps, i + 1).pages[p].MayEnter?
  {
    AtNext(steps, i);
    if At(steps, i).draining {
      StaysGone(steps, i + 1, n, p);
    }
  }

  /** Step `i` of the run is page `p` reading the browser reference; `steps[i].alt` says whether there is one. */
  ghost predicate ReadsBrowser(steps: seq<Step>, i: nat, p: nat)
    requires IsRun(steps) && i < |steps|
  {
    var s := At(steps, i);
    steps[i].PageStep? && steps[i].p == p && p in s.pages && s.pages[p].MayEnter?
  }

  /** Without a browser a page is turned away for good too, uncounted. */
  lemma RefusedWithoutBrowser(steps: seq<Step>, i: nat, p: nat, n: nat)
    requires IsRun(steps) && i < n <= |steps| && ReadsBrowser(steps, i, p)
    ensures At(steps, i + 1).activePages == At(steps, i).activePages
    ensures !steps[i].alt ==> p in At(steps, n).pages && At(steps, n).pages[p].Gone?
    ensures steps[i].alt ==> p in At(steps, i + 1).pages && At(steps, i + 1).pages[p].GotBrowser?
  {
    AtNext(steps, i);
    if !steps[i].alt {
      StaysGone(steps, i + 1, n, p);
    }
  }

  lemma {:induction false} StaysGone(steps: seq<Step>, k: nat, n: nat, p: nat)
    requires IsRun(steps) && k <= n <= |steps| && p in At(steps, k).pages && At(steps, k).pages[p].Gone?
    ensures p in At(steps, n).pages && At(steps, n).pages[p].Gone?
    decreases n
  {
    if k < n {
      StaysGone(steps, k, n - 1, p);
      AtNext(steps, n - 1);
      PageMoves(At(steps, n - 1), steps[n - 1], p);
    }
  }

  /** Past the first load of the flag, and let in. */
  predicate LetIn(s: State, p: nat) {
    p in s.pages && !s.pages[p].Fresh? && !s.pages[p].Gone?
  }

  lemma {:induction false} LetInHasAsked(steps: seq<Step>, n: nat, p: nat) returns (i: nat)
    requires IsRun(steps) && n <= |steps| && LetIn(At(steps, n), p)
    ensures i < n && AsksToEnter(steps, i, p) && !At(steps, i).draining
    decreases n
  {
    AtNext(steps, n - 1);
    PageMoves(At(steps, n - 1), steps[n - 1], p);
    if LetIn(At(steps, n - 1), p) {
      i := LetInHasAsked(steps, n - 1, p);
    } else {
      i := n - 1;
    }
  }

  /**
  Only pages that asked before the flag went up are let in during a drain: if the flag is up from step `d` to step
  `n`, a page that is on its way in, active or on its way out at step `n` loaded the flag before step `d`, while it
  was down.
  */
  lemma LetInBeforeDrain(steps: seq<Step>, d: nat, n: nat, p: nat) returns (i: nat)
    requires IsRun(steps) && d <= n <= |steps| && LetIn(At(steps, n), p)
    requires forall k :: d <= k < n ==> At(steps, k).draining
    ensures i < d && AsksToEnter(steps, i, p) && !At(steps, i).draining
  {
    i := LetInHasAsked(steps, n, p);
  }

  /** Step `i` of the run is page `p` loading the draining flag on its way out. */
  ghost predicate AsksToClose(steps: seq<Step>, i: nat, p: nat)
    requires IsRun(steps) && i < |steps|
  {
    var s := At(steps, i);
    steps[i].PageStep? && steps[i].p == p && p in s.pages && s.pages[p].Counted?
  }

  /** A leaving page goes on to the drain channel if and only if the flag is up and its count is down to zero. */
  lemma ClosesExactlyAsLastOfDrain(steps: seq<Step>, i: nat, p: nat)
    requires IsRun(steps) && i < |steps| && AsksToClose(steps, i, p)
    ensures var s, t := At(steps, i), At(steps, i + 1);
            && p in t.pages
            && (t.pages[p].WantsLock? <==> s.draining && s.pages[p].newCount <= 0)
            && (t.pages[p].Gone? <==> !s.draining || s.pages[p].newCount > 0)
  {
    AtNext(steps, i);
  }

  // ---------------------------------------------------------------- every drain is wound up

  /** A channel that is still open belongs to the drain under way. */
  predicate OpenIsCurrent(s: State) {
    && (forall ch: nat :: ch < s.made && ch !in s.closed ==> s.drainComplete == ChanIs(ch))
    && (s.rotator.EndClearing? ==> s.drainComplete.ChanIs? && s.drainComplete.ch in s.closed)
    && (s.rotator.StartMaking? || s.rotator.StartSetting? ==> s.drainComplete.NoChan?)
    && (s.rotator.Idle? || s.rotator.StartLocked? || s.rotator.EndUnlocking? ==> s.drainComplete.NoChan?)
  }

  lemma StepKeepsOpenIsCurrent(s: State, step: Step)
    requires Inv(s) && OpenIsCurrent(s) && Enabled(s, step)
    ensures OpenIsCurrent(Next(s, step))
  {
  }

  lemma {:induction false} OpenIsCurrentHolds(steps: seq<Step>)
    requires IsRun(steps)
    ensures OpenIsCurrent(Play(steps))
  {
    if steps != [] {
      OpenIsCurrentHolds(steps[..|steps| - 1]);
      InvHolds(steps[..|steps| - 1]);
      StepKeepsOpenIsCurrent(Play(steps[..|steps| - 1]), steps[|steps| - 1]);
    }
  }

  /** Between two drains the flag is down, no channel is in place, and every channel ever made has been closed. */
  lemma WoundUpWhenIdle(steps: seq<Step>)
    requires IsRun(steps) && Play(steps).rotator.Idle?
    ensures var s := Play(steps); !s.draining && s.drainComplete.NoChan? && forall ch: nat :: ch < s.made ==> ch in s.closed
  {
    InvHolds(steps);
    OpenIsCurrentHolds(steps);
  }

  // ---------------------------------------------------------------- a drain that ends too early

  ghost predicate Reached(s: State) {
    exists steps :: IsRun(steps) && Play(steps) == s
  }

  lemma StepIsReached(s: State, step: Step)
    requires Reached(s) && Enabled(s, step)
    ensures Reached(Next(s, step))
  {
    var steps :| IsRun(steps) && Play(steps) == s;
    assert (steps + [step])[..|steps|] == steps;
    assert IsRun(steps + [step]) && Play(steps + [step]) == Next(s, step);
  }

  /** Page `p` is at this instruction, all else being as in `s`. */
  function With(s: State, p: nat, pc: PagePc): State {
    s.(pages := s.pages[p := pc])
  }

  lemma WithTwice(s: State, p: nat, pc: PagePc, pc': PagePc)
    ensures With(With(s, p, pc), p, pc') == With(s, p, pc')
  {
  }

  /** A page comes in. */
  lemma PageEnters(s: State, p: nat)
    requires Reached(s) && p !in s.pages && !s.draining
    ensures Reached(With(s, p, Active).(activePages := s.activePages + 1))
  {
    StepIsReached(s, Spawn(p));
    WithTwice(s, p, Fresh, MayEnter);
    StepIsReached(With(s, p, Fresh), PageStep(p, true));
    WithTwice(s, p, MayEnter, GotBrowser);
    StepIsReached(With(s, p, MayEnter), PageStep(p, true));
    WithTwice(s, p, GotBrowser, Active);
    StepIsReached(With(s, p, GotBrowser), PageStep(p, true));
  }

  /** The rotator starts to drain. */
  lemma DrainStarts(s: State)
    requires Reached(s) && s.rotator.Idle? && s.mutex.Nobody? && !s.draining
    ensures Reached(s.(rotator := WaitCheckDraining, draining := true, drainComplete := ChanIs(s.made), made := s.made + 1))
  {
    StepIsReached(s, RotatorStep(false));
    var s1 := s.(rotator := StartLocked, mutex := Rotator);
    StepIsReached(s1, RotatorStep(false));
    var s2 := s1.(rotator := StartSetting);
    StepIsReached(s2, RotatorStep(false));
    var s3 := s2.(rotator := StartMaking, draining := true);
    StepIsReached(s3, RotatorStep(false));
    StepIsReached(RotatorNext(s3), RotatorStep(false));
  }

  /** With a page active the rotator goes on to wait for the channel. */
  lemma DrainBlocks(s: State)
    requires Reached(s) && s.rotator.WaitCheckDraining? && s.draining && s.activePages > 0
    requires s.mutex.Nobody? && s.drainComplete.ChanIs?
    ensures Reached(s.(rotator := Blocked(s.drainComplete.ch)))
  {
    StepIsReached(s, RotatorStep(false));
    var s1 := s.(rotator := WaitCheckPages);
    StepIsReached(s1, RotatorStep(false));
    var s2 := s.(rotator := WaitLock);
    StepIsReached(s2, RotatorStep(false));
    var s3 := s.(rotator := WaitLocked, mutex := Rotator);
    StepIsReached(s3, RotatorStep(false));
    var s4 := s3.(rotator := WaitUnlocking(s.drainComplete));
    StepIsReached(s4, RotatorStep(false));
    StepIsReached(s.(rotator := WaitTest(s.drainComplete)), RotatorStep(false));
  }

  /** A page that counted itself out as the last one finds the channel open. */
  lemma PageFindsChannel(s: State, p: nat)
    requires Reached(s) && p in s.pages && s.pages[p] == Counted(0) && s.draining && s.mutex.Nobody?
    requires s.drainComplete.ChanIs? && s.drainComplete.ch !in s.closed
    ensures Reached(With(s, p, Closing(s.drainComplete.ch)).(mutex := Page(p)))
  {
    StepIsReached(s, PageStep(p, false));
    WithTwice(s, p, WantsLock, Locked);
    StepIsReached(With(s, p, WantsLock), PageStep(p, false));
    WithTwice(s, p, Locked, Closing(s.drainComplete.ch));
    StepIsReached(With(s, p, Locked).(mutex := Page(p)), PageStep(p, false));
  }

  /** Then it closes the channel. */
  lemma PageCloses(s: State, p: nat)
    requires Reached(s) && p in s.pages && s.pages[p].Closing?
    ensures Reached(Close(With(s, p, Unlocking), s.pages[p].ch))
  {
    StepIsReached(s, PageStep(p, false));
  }

  /**
  A drain may end with a page in use, although nobody timed out: page 0 counts itself out, page 1 counts itself in
  before the drain starts, the rotator waits for it, and then page 0 closes the channel on its stale count.
  */
  lemma DrainMayEndEarly() returns (s: State)
    ensures Reached(s) && s.rotator == Blocked(0) && 0 in s.closed && s.activePages == 1 && ActiveIn(s, 1)
    ensures RotatorEnabled(s, false)
  {
    assert IsRun([]) && Play([]) == INIT;
    PageEnters(INIT, 0);
    var s1 := With(INIT, 0, Active).(activePages := 1);
    StepIsReached(s1, PageStep(0, false));
    WithTwice(INIT, 0, Active, Counted(0));
    var s2 := With(INIT, 0, Counted(0));
    PageEnters(s2, 1);
    var s3 := With(s2, 1, Active).(activePages := 1);
    DrainStarts(s3);
    var s4 := s3.(rotator := WaitCheckDraining, draining := true, drainComplete := ChanIs(0), made := 1);
    DrainBlocks(s4);
    var s5 := s4.(rotator := Blocked(0));
    PageFindsChannel(s5, 0);
    var s6 := With(s5, 0, Closing(0)).(mutex := Page(0));
    PageCloses(s6, 0);
    s := Close(With(s6, 0, Unlocking), 0);
  }
}
