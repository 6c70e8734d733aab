/**
The distributed rate limiter: a script that keeps two numbers per key, the tokens left and the time of the last
refill. The results say what those two numbers mean for the whole history of calls.
*/
module TokenBucket {

  /** Tokens per second and bucket size, both positive. */
  datatype Limit = Limit(rate: real, burst: real)

  type Positive = l: Limit | l.rate > 0.0 && l.burst > 0.0 witness Limit(1.0, 1.0)

  /** The stored hash: absent, or tokens and refill time in milliseconds. */
  datatype Bucket = Absent | Stored(tokens: real, ts: real)

  function Max(a: real, b: real): real {
    if a < b then b else a
  }

  function Min(a: real, b: real): real {
    if b < a then b else a
  }

  /** Tokens earned up to time `t`, counted from time zero. */
  function Credit(l: Positive, t: real): real {
    t * l.rate / 1000.0
  }

  /** The stored pair once the time since the last refill is paid out. */
  function Refilled(b: Bucket, l: Positive, now: real): (r: Bucket)
    ensures r.Stored?
  {
    var tokens := if b.Stored? then b.tokens else l.burst;
    var ts := if b.Stored? then b.ts else now;
    var refill := Max(0.0, now - ts) * l.rate / 1000.0;
    if refill > 0.0 then Stored(Min(l.burst, tokens + refill), now) else Stored(tokens, ts)
  }

  predicate Admits(b: Bucket, l: Positive, now: real) {
    Refilled(b, l, now).tokens >= 1.0
  }

  function Taken(b: Bucket, l: Positive, now: real): Bucket {
    var r := Refilled(b, l, now);
    if r.tokens >= 1.0 then Stored(r.tokens - 1.0, r.ts) else r
  }

  /** The key's time to live in milliseconds, renewed by every call. */
  function Lifetime(l: Positive): real {
    Ceil(l.burst / l.rate * 1000.0 * 2.0) as real
  }

  function Ceil(x: real): int {
    if x.Floor as real == x then x.Floor else x.Floor + 1
  }

  /** One key of the limiter, as Redis stores it. */
  class Key {
    var bucket: Bucket
    var expiresAt: real

    constructor ()
      ensures bucket == Absent
    {
      bucket, expiresAt := Absent, 0.0;
    }

    /** The script, with the server's clock for expiry and the caller's clock `now` for refilling. */
    method Run(rate: real, burst: real, now: real, serverNow: real) returns (allowed: bool)
      modifies this
      ensures rate <= 0.0 || burst <= 0.0 ==> allowed && bucket == old(bucket) && expiresAt == old(expiresAt)
      ensures rate > 0.0 && burst > 0.0 ==>
                var before := if old(expiresAt) <= serverNow then Absent else old(bucket);
                && allowed == Admits(before, Limit(rate, burst), now)
                && bucket == Taken(before, Limit(rate, burst), now)
                && expiresAt == serverNow + Lifetime(Limit(rate, burst))
    {
      if rate <= 0.0 || burst <= 0.0 {
        return true;
      }
      if expiresAt <= serverNow {
        bucket := Absent;
      }
      var tokens, ts := burst, now;
      if bucket.Stored? {
        tokens, ts := bucket.tokens, bucket.ts;
      }
      var delta := Max(0.0, now - ts);
      var refill := delta * rate / 1000.0;
      if refill > 0.0 {
        tokens := Min(burst, tokens + refill);
        ts := now;
      }
      expiresAt := serverNow + Lifetime(Limit(rate, burst));
      if tokens < 1.0 {
        bucket := Stored(tokens, ts);
        return false;
      }
      tokens := tokens - 1.0;
      bucket := Stored(tokens, ts);
      return true;
    }
  }

  // ---------------------------------------------------------------- runs without expiry, any clocks

  /** The bucket after the first `k` calls. */
  function After(l: Positive, clocks: seq<real>, k: nat): Bucket
    requires k <= |clocks|
  {
    if k == 0 then Absent else Taken(After(l, clocks, k - 1), l, clocks[k - 1])
  }

  predicate Verdict(l: Positive, clocks: seq<real>, k: nat)
    requires k < |clocks|
  {
    Admits(After(l, clocks, k), l, clocks[k])
  }

  /** The largest clock among calls 0 to `k`. */
  function Latest(clocks: seq<real>, k: nat): real
    requires k < |clocks|
  {
    if k == 0 then clocks[0] else Max(Latest(clocks, k - 1), clocks[k])
  }

  /** Number of admitted calls from `j` up to but not including `k`. */
  function Admitted(l: Positive, clocks: seq<real>, j: nat, k: nat): nat
    requires j <= k <= |clocks|
    decreases k
  {
    if j == k then 0 else Admitted(l, clocks, j, k - 1) + if Verdict(l, clocks, k - 1) then 1 else 0
  }

  /** The most calls a window from call `j` to call `k` may hold: the burst and what the rate earns meanwhile. */
  function Budget(l: Positive, clocks: seq<real>, j: nat, k: nat): real
    requires j <= k < |clocks|
  {
    l.burst + l.rate * (Latest(clocks, k) - Latest(clocks, j)) / 1000.0
  }

  /** What the window from call `j` to call `k` still allows. */
  function Allowance(l: Positive, clocks: seq<real>, j: nat, k: nat): real
    requires j <= k < |clocks|
  {
    Budget(l, clocks, j, k) - Admitted(l, clocks, j, k) as real
  }

  lemma RefillIsCredit(l: Positive, from: real, to: real)
    ensures (to - from) * l.rate / 1000.0 == Credit(l, to) - Credit(l, from)
    ensures l.rate * (to - from) / 1000.0 == Credit(l, to) - Credit(l, from)
    ensures from < to ==> Credit(l, from) < Credit(l, to)
  {
    assert (to - from) * l.rate == to * l.rate - from * l.rate;
    if from < to {
      assert (to - from) * l.rate > 0.0;
    }
  }

  /** Refilling in terms of credits, for a stored bucket that is not over-full. */
  lemma RefilledLevel(b: Bucket, l: Positive, now: real)
    requires b.Stored? && b.tokens <= l.burst
    ensures Refilled(b, l, now).ts == Max(b.ts, now)
    ensures Refilled(b, l, now).tokens == Min(l.burst, b.tokens + Credit(l, Max(b.ts, now)) - Credit(l, b.ts))
  {
    RefillIsCredit(l, b.ts, now);
  }

  /** From one call to the next every window gains the same credit and pays for the same admission. */
  lemma AllowanceStep(l: Positive, clocks: seq<real>, i: nat, k: nat)
    requires i < k < |clocks|
    ensures Allowance(l, clocks, i, k) ==
              Allowance(l, clocks, i, k - 1) + Credit(l, Latest(clocks, k)) - Credit(l, Latest(clocks, k - 1))
              - (if Verdict(l, clocks, k - 1) then 1.0 else 0.0)
  {
    RefillIsCredit(l, Latest(clocks, i), Latest(clocks, k));
    RefillIsCredit(l, Latest(clocks, i), Latest(clocks, k - 1));
  }

  /** The same for the stored level, cut off at the burst. */
  lemma LevelStep(l: Positive, clocks: seq<real>, k: nat)
    requires 0 < k < |clocks|
    requires Refilled(After(l, clocks, k - 1), l, clocks[k - 1]).ts == Latest(clocks, k - 1)
    requires Refilled(After(l, clocks, k - 1), l, clocks[k - 1]).tokens <= l.burst
    ensures var r0, r := Refilled(After(l, clocks, k - 1), l, clocks[k - 1]), Refilled(After(l, clocks, k), l, clocks[k]);
            && r.ts == Latest(clocks, k)
            && r.tokens == Min(l.burst, r0.tokens - (if Verdict(l, clocks, k - 1) then 1.0 else 0.0)
                                        + Credit(l, Latest(clocks, k)) - Credit(l, Latest(clocks, k - 1)))
  {
    RefilledLevel(After(l, clocks, k), l, clocks[k]);
  }

  /**
  The level before call `k` decides is the smallest allowance of all windows that end in call `k`.
  `j` is a window that attains it.
  */
  lemma {:induction false} LevelIsLeastAllowance(l: Positive, clocks: seq<real>, k: nat) returns (j: nat)
    requires k < |clocks|
    ensures Refilled(After(l, clocks, k), l, clocks[k]).ts == Latest(clocks, k)
    ensures Refilled(After(l, clocks, k), l, clocks[k]).tokens <= l.burst
    ensures forall i :: 0 <= i <= k ==> Refilled(After(l, clocks, k), l, clocks[k]).tokens <= Allowance(l, clocks, i, k)
    ensures j <= k && Refilled(After(l, clocks, k), l, clocks[k]).tokens == Allowance(l, clocks, j, k)
  {
    if k == 0 {
      j := 0;
    } else {
      j := LevelIsLeastAllowance(l, clocks, k - 1);
      LevelStep(l, clocks, k);
      AllowanceStep(l, clocks, j, k);
      var level := Refilled(After(l, clocks, k), l, clocks[k]).tokens;
      assert Allowance(l, clocks, k, k) == l.burst;
      forall i | 0 <= i <= k
        ensures level <= Allowance(l, clocks, i, k)
      {
        if i < k {
          AllowanceStep(l, clocks, i, k);
        }
      }
      if level == l.burst {
        j := k;
      }
    }
  }

  /** The bound a window from call `j` puts on admitting call `k`. */
  predicate WindowAllows(l: Positive, clocks: seq<real>, j: nat, k: nat)
    requires j <= k < |clocks|
  {
    Admitted(l, clocks, j, k) as real + 1.0 <= Budget(l, clocks, j, k)
  }

  /**
  Two numbers stand for the whole history: call `k` is admitted exactly when, for every earlier call `j` and for
  `k` itself, the admissions since `j` plus this one fit in the burst plus what the rate earned since.
  */
  lemma AdmittedIffEveryWindowAllows(l: Positive, clocks: seq<real>, k: nat)
    requires k < |clocks|
    ensures Verdict(l, clocks, k) <==> forall j :: 0 <= j <= k ==> WindowAllows(l, clocks, j, k)
  {
    var least := LevelIsLeastAllowance(l, clocks, k);
    assert WindowAllows(l, clocks, least, k) <==> Verdict(l, clocks, k);
    forall j | 0 <= j <= k && Verdict(l, clocks, k)
      ensures WindowAllows(l, clocks, j, k)
    {
      assert Refilled(After(l, clocks, k), l, clocks[k]).tokens <= Allowance(l, clocks, j, k);
    }
  }

  // ---------------------------------------------------------------- no obedient limiter admits more

  /** Admissions of an arbitrary limiter with the verdicts `v`. */
  function Count(v: seq<bool>, j: nat, k: nat): nat
    requires j <= k <= |v|
    decreases k
  {
    if j == k then 0 else Count(v, j, k - 1) + if v[k - 1] then 1 else 0
  }

  /** The limiter `v` obeys the bound on every window. */
  predicate Obedient(l: Positive, clocks: seq<real>, v: seq<bool>)
    requires |v| == |clocks|
  {
    forall j, k :: 0 <= j <= k < |v| && v[k] ==> Count(v, j, k) as real + 1.0 <= Budget(l, clocks, j, k)
  }

  lemma {:induction false} CountSplits(v: seq<bool>, j: nat, k: nat)
    requires j <= k <= |v|
    ensures Count(v, 0, k) == Count(v, 0, j) + Count(v, j, k)
  {
    if j < k {
      CountSplits(v, j, k - 1);
    }
  }

  lemma {:induction false} AdmittedSplits(l: Positive, clocks: seq<real>, j: nat, k: nat)
    requires j <= k <= |clocks|
    ensures Admitted(l, clocks, 0, k) == Admitted(l, clocks, 0, j) + Admitted(l, clocks, j, k)
  {
    if j < k {
      AdmittedSplits(l, clocks, j, k - 1);
    }
  }

  /** When the bucket refuses a call that `v` admits, some window holds more of the bucket's admissions. */
  lemma FullerWindow(l: Positive, clocks: seq<real>, v: seq<bool>, k: nat) returns (j: nat)
    requires |v| == |clocks| && k < |v| && Obedient(l, clocks, v) && v[k] && !Verdict(l, clocks, k)
    ensures j <= k && Admitted(l, clocks, j, k) > Count(v, j, k)
  {
    AdmittedIffEveryWindowAllows(l, clocks, k);
    j :| 0 <= j <= k && !WindowAllows(l, clocks, j, k);
  }

  /** The bucket is the most permissive limiter: at every point of every run it has admitted at least as many calls. */
  lemma {:induction false} MostPermissive(l: Positive, clocks: seq<real>, v: seq<bool>, k: nat)
    requires |v| == |clocks| && k <= |v| && Obedient(l, clocks, v)
    ensures Count(v, 0, k) <= Admitted(l, clocks, 0, k)
    decreases k
  {
    if k > 0 {
      MostPermissive(l, clocks, v, k - 1);
      if v[k - 1] && !Verdict(l, clocks, k - 1) {
        var j := FullerWindow(l, clocks, v, k - 1);
        MostPermissive(l, clocks, v, j);
        CountSplits(v, j, k - 1);
        AdmittedSplits(l, clocks, j, k - 1);
      }
    }
  }

  lemma {:induction false} CountOfVerdicts(l: Positive, clocks: seq<real>, v: seq<bool>, j: nat, k: nat)
    requires |v| == |clocks| && j <= k <= |v| && forall i :: 0 <= i < |v| ==> v[i] == Verdict(l, clocks, i)
    ensures Count(v, j, k) == Admitted(l, clocks, j, k)
    decreases k
  {
    if j < k {
      CountOfVerdicts(l, clocks, v, j, k - 1);
    }
  }

  /** The bucket's own verdicts obey the bound, so it is the best of the obedient limiters and not above them. */
  lemma BucketIsObedient(l: Positive, clocks: seq<real>, v: seq<bool>)
    requires |v| == |clocks| && forall i :: 0 <= i < |v| ==> v[i] == Verdict(l, clocks, i)
    ensures Obedient(l, clocks, v)
  {
    forall j, k | 0 <= j <= k < |v| && v[k]
      ensures Count(v, j, k) as real + 1.0 <= Budget(l, clocks, j, k)
    {
      AdmittedIffEveryWindowAllows(l, clocks, k);
      assert WindowAllows(l, clocks, j, k);
      CountOfVerdicts(l, clocks, v, j, k);
    }
  }

  // ---------------------------------------------------------------- expiry and refusals with a shared clock

  /** A call at time `now`; before an `expired` call the key was dropped, and an `erased` call is left out. */
  datatype Call = Call(now: real, expired: bool, erased: bool)

  /** Tokens available at time `now`, which is all that matters of a bucket when time only moves on. */
  function Level(b: Bucket, l: Positive, now: real): real {
    if b.Absent? then l.burst else Min(l.burst, b.tokens + Credit(l, now) - Credit(l, b.ts))
  }

  predicate Sane(b: Bucket, l: Positive, now: real) {
    b.Stored? ==> 0.0 <= b.tokens <= l.burst && b.ts <= now
  }

  lemma TakenByLevel(b: Bucket, l: Positive, now: real)
    requires Sane(b, l, now)
    ensures Refilled(b, l, now) == Stored(Level(b, l, now), now)
    ensures Sane(Taken(b, l, now), l, now) && 0.0 <= Level(b, l, now) <= l.burst
  {
    if b.Stored? {
      RefilledLevel(b, l, now);
      RefillIsCredit(l, b.ts, now);
    }
  }

  /** The time to live is the least whole number of milliseconds in which an empty bucket fills up twice. */
  lemma LifetimeIsTwoRefills(l: Positive)
    ensures Credit(l, Lifetime(l)) >= 2.0 * l.burst
    ensures Lifetime(l).Floor as real == Lifetime(l) && Credit(l, Lifetime(l) - 1.0) < 2.0 * l.burst
  {
    var exact := l.burst / l.rate * 1000.0 * 2.0;
    assert exact * l.rate / 1000.0 == 2.0 * l.burst;
    assert exact <= Lifetime(l) < exact + 1.0;
    LargerTimesRate(l, exact, Lifetime(l));
    LargerTimesRate(l, Lifetime(l) - 1.0, exact);
  }

  lemma LargerTimesRate(l: Positive, a: real, b: real)
    ensures a <= b ==> Credit(l, a) <= Credit(l, b)
    ensures a < b ==> Credit(l, a) < Credit(l, b)
  {
    assert (b - a) * l.rate == b * l.rate - a * l.rate;
  }

  /** After the time to live of the last write the bucket is full again, so dropping the key loses nothing. */
  lemma FullAfterLifetime(b: Bucket, l: Positive, now: real)
    requires b.Stored? && b.tokens >= 0.0 && now >= b.ts + Lifetime(l)
    ensures Level(b, l, now) == l.burst
  {
    var x := l.burst / l.rate * 1000.0 * 2.0;
    assert Lifetime(l) >= x;
    RefillIsCredit(l, b.ts, now);
    assert (now - b.ts) * l.rate >= x * l.rate;
    assert x * l.rate == l.burst * 2000.0 by {
      assert l.burst / l.rate * l.rate == l.burst;
    }
  }

  /** Passing through an intermediate time does not change the level at a later time. */
  lemma LevelIsStable(b: Bucket, l: Positive, mid: real, now: real)
    requires Sane(b, l, mid) && mid <= now
    ensures Level(Refilled(b, l, mid), l, now) == Level(b, l, now)
  {
    TakenByLevel(b, l, mid);
    RefillIsCredit(l, mid, now);
    if b.Stored? {
      RefillIsCredit(l, b.ts, mid);
    }
  }

  /** All calls reach the server, nothing expires. */
  function FullRun(b: Bucket, l: Positive, calls: seq<Call>): (v: seq<bool>)
    ensures |v| == |calls|
    decreases |calls|
  {
    if calls == [] then [] else [Admits(b, l, calls[0].now)] + FullRun(Taken(b, l, calls[0].now), l, calls[1..])
  }

  /** Erased calls are not made, and keys are dropped where the calls say so. */
  function ThinRun(b: Bucket, l: Positive, calls: seq<Call>): seq<bool>
    decreases |calls|
  {
    if calls == [] then []
    else if calls[0].erased then ThinRun(b, l, calls[1..])
    else
      var b' := if calls[0].expired then Absent else b;
      [Admits(b', l, calls[0].now)] + ThinRun(Taken(b', l, calls[0].now), l, calls[1..])
  }

  /** The verdicts of the calls that are not erased. */
  function Remaining(v: seq<bool>, calls: seq<Call>): seq<bool>
    requires |v| == |calls|
  {
    if calls == [] then []
    else (if calls[0].erased then [] else [v[0]]) + Remaining(v[1..], calls[1..])
  }

  predicate SharedClock(calls: seq<Call>, from: real) {
    calls == [] || (from <= calls[0].now && SharedClock(calls[1..], calls[0].now))
  }

  /** A key is only dropped once its time to live has passed since the last call that was made. */
  predicate ExpiryIsDue(l: Positive, calls: seq<Call>, lastCall: real) {
    calls == [] ||
    if calls[0].erased then ExpiryIsDue(l, calls[1..], lastCall)
    else (calls[0].expired ==> calls[0].now >= lastCall + Lifetime(l)) && ExpiryIsDue(l, calls[1..], calls[0].now)
  }

  predicate ErasesRefusalsOnly(v: seq<bool>, calls: seq<Call>)
    requires |v| == |calls|
  {
    forall i :: 0 <= i < |v| ==> calls[i].erased ==> !v[i]
  }

  /** Two buckets that agree on all later levels give the same verdicts. */
  ghost predicate SameLater(b: Bucket, c: Bucket, l: Positive, from: real) {
    forall t :: from <= t ==> Level(b, l, t) == Level(c, l, t)
  }

  lemma SameLaterAfterCall(b: Bucket, c: Bucket, l: Positive, from: real, now: real)
    requires SameLater(b, c, l, from) && from <= now && Sane(b, l, now) && Sane(c, l, now)
    ensures Admits(b, l, now) == Admits(c, l, now) && Taken(b, l, now) == Taken(c, l, now)
  {
    TakenByLevel(b, l, now);
    TakenByLevel(c, l, now);
  }

  lemma RefusedCallChangesNothing(b: Bucket, c: Bucket, l: Positive, from: real, now: real)
    requires SameLater(b, c, l, from) && from <= now && Sane(b, l, now) && !Admits(b, l, now)
    ensures SameLater(Taken(b, l, now), c, l, now)
  {
    forall t | now <= t
      ensures Level(Taken(b, l, now), l, t) == Level(c, l, t)
    {
      LevelIsStable(b, l, now, t);
    }
  }

  lemma DueExpiryChangesNothing(b: Bucket, c: Bucket, l: Positive, from: real, now: real)
    requires SameLater(b, c, l, from) && from <= now && Sane(c, l, now)
    requires c.Stored? ==> now >= c.ts + Lifetime(l)
    ensures SameLater(b, Absent, l, now)
  {
    forall t | now <= t
      ensures Level(b, l, t) == l.burst
    {
      if c.Stored? {
        FullAfterLifetime(c, l, t);
      }
    }
  }

  /**
  With a clock that never runs back, neither dropping keys after their time to live nor erasing refused calls
  changes any verdict of the calls that remain. `b` is the bucket of the full run, `c` that of the thinned one,
  whose last call was at `lastCall`.
  */
  lemma {:induction false} ThinningFrom(b: Bucket, c: Bucket, l: Positive, calls: seq<Call>, from: real, lastCall: real)
    requires Sane(b, l, from) && Sane(c, l, from) && SameLater(b, c, l, from)
    requires c.Stored? ==> c.ts <= lastCall
    requires SharedClock(calls, from) && ExpiryIsDue(l, calls, lastCall)
    requires ErasesRefusalsOnly(FullRun(b, l, calls), calls)
    ensures ThinRun(c, l, calls) == Remaining(FullRun(b, l, calls), calls)
    decreases |calls|
  {
    if calls != [] {
      var call, rest := calls[0], calls[1..];
      var b' := Taken(b, l, call.now);
      var v := FullRun(b, l, calls);
      assert v[1..] == FullRun(b', l, rest);
      assert ErasesRefusalsOnly(v[1..], rest) by {
        assert forall i :: 0 <= i < |rest| ==> v[1..][i] == v[i + 1] && rest[i] == calls[i + 1];
      }
      TakenByLevel(b, l, call.now);
      if call.erased {
        assert !v[0];
        RefusedCallChangesNothing(b, c, l, from, call.now);
        ThinningFrom(b', c, l, rest, call.now, lastCall);
      } else {
        var c0 := if call.expired then Absent else c;
        if call.expired {
          DueExpiryChangesNothing(b, c, l, from, call.now);
        }
        SameLaterAfterCall(b, c0, l, call.now, call.now);
        TakenByLevel(c0, l, call.now);
        ThinningFrom(b', Taken(c0, l, call.now), l, rest, call.now, call.now);
      }
    }
  }

  lemma ExpiryAndRefusalsUnobservable(l: Positive, calls: seq<Call>, from: real)
    requires SharedClock(calls, from) && ExpiryIsDue(l, calls, from)
    requires ErasesRefusalsOnly(FullRun(Absent, l, calls), calls)
    ensures ThinRun(Absent, l, calls) == Remaining(FullRun(Absent, l, calls), calls)
  {
    ThinningFrom(Absent, Absent, l, calls, from, from);
  }

  // ---------------------------------------------------------------- the stored key over a whole run

  /** The calls at these clocks, none of them erased. */
  function CallsAt(clocks: seq<real>): (calls: seq<Call>)
    ensures |calls| == |clocks|
  {
    seq(|clocks|, i requires 0 <= i < |clocks| => Call(clocks[i], false, false))
  }

  /** Both descriptions of a run agree. */
  lemma {:induction false} FullRunIsVerdicts(l: Positive, clocks: seq<real>, i: nat)
    requires i <= |clocks|
    ensures var v := FullRun(After(l, clocks, i), l, CallsAt(clocks)[i..]);
            forall k :: i <= k < |clocks| ==> v[k - i] == Verdict(l, clocks, k)
    decreases |clocks| - i
  {
    if i < |clocks| {
      var calls := CallsAt(clocks)[i..];
      FullRunIsVerdicts(l, clocks, i + 1);
      assert calls[0].now == clocks[i] && calls[1..] == CallsAt(clocks)[i + 1..];
      var v, rest := FullRun(After(l, clocks, i), l, calls), FullRun(After(l, clocks, i + 1), l, calls[1..]);
      assert v == [Verdict(l, clocks, i)] + rest;
    }
  }

  /** Whether or not Redis has dropped the key, the next call has the same outcome. */
  lemma NextCall(b: Bucket, l: Positive, last: real, now: real, dropped: bool)
    requires Sane(b, l, last) && last <= now && (dropped && b.Stored? ==> now >= last + Lifetime(l))
    ensures var c := if dropped then Absent else b;
            Admits(c, l, now) == Admits(b, l, now) && Taken(c, l, now) == Taken(b, l, now)
    ensures Sane(Taken(b, l, now), l, now)
  {
    TakenByLevel(b, l, now);
    if dropped {
      DueExpiryChangesNothing(b, b, l, now, now);
      SameLaterAfterCall(b, Absent, l, now, now);
    }
  }

  /**
  A key of its own, called at a clock that never runs back and that Redis also expires it by: the verdicts are those
  of the run without expiry.
  */
  method Replay(l: Positive, clocks: seq<real>) returns (verdicts: seq<bool>)
    requires forall i, j :: 0 <= i < j < |clocks| ==> clocks[i] <= clocks[j]
    ensures |verdicts| == |clocks| && forall k :: 0 <= k < |clocks| ==> verdicts[k] == Verdict(l, clocks, k)
    ensures verdicts == FullRun(Absent, l, CallsAt(clocks))
  {
    var key := new Key();
    verdicts := [];
    var i := 0;
    while i < |clocks|
      invariant 0 <= i <= |clocks| && |verdicts| == i
      invariant forall k :: 0 <= k < i ==> verdicts[k] == Verdict(l, clocks, k)
      invariant key.bucket == After(l, clocks, i)
      invariant i > 0 ==> Sane(key.bucket, l, clocks[i - 1]) && key.expiresAt == clocks[i - 1] + Lifetime(l)
    {
      var now := clocks[i];
      NextCall(key.bucket, l, if i == 0 then now else clocks[i - 1], now, key.expiresAt <= now);
      var allowed := key.Run(l.rate, l.burst, now, now);
      verdicts := verdicts + [allowed];
      i := i + 1;
    }
    FullRunIsVerdicts(l, clocks, 0);
    assert CallsAt(clocks)[0..] == CallsAt(clocks);
  }
}
