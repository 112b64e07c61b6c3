/** The two loops that back off: `wait_ready`, and the watcher that ends a log stream when its task
    exits. Durations are in nanoseconds. */
module Backoff {
  const MS: nat := 1_000_000

  function Pow2(k: nat): (p: nat)
    ensures p >= 1
  {
    if k == 0 then 1 else 2 * Pow2(k - 1)
  }

  /** min(base * 2^k, cap): the closed form of "double, up to a cap". */
  function Capped(base: nat, cap: nat, k: nat): nat {
    if base * Pow2(k) < cap then base * Pow2(k) else cap
  }

  /** One doubling step of the loops is one step of the closed form. */
  lemma CappedStep(base: nat, cap: nat, k: nat)
    ensures Capped(base, cap, k + 1)
         == if 2 * Capped(base, cap, k) < cap then 2 * Capped(base, cap, k) else cap
  {
    assert base * Pow2(k + 1) == 2 * (base * Pow2(k)) by {
      assert Pow2(k + 1) == 2 * Pow2(k);
    }
  }

  // ---- readiness ----

  const INITIAL_INTERVAL: nat := 100 * MS
  const MAX_INTERVAL: nat := 2_000 * MS

  /** One turn: the inspection fails, shows no task, a stopped one, a running one with the result of
      the check, or one in another state. `cost` covers the inspection and the check. */
  datatype Look = Look(cost: nat, seen: Seen)
  datatype Seen = InspectFailed | NoTask | Exited | RunningPassed | RunningFailed | NotYet

  datatype Verdict = Ready | TaskNotFound | TaskExited | InspectError | TimedOut

  /** A look that ends the wait, and with what. */
  function Decides(s: Seen): (r: (bool, Verdict)) {
    match s
    case InspectFailed => (true, InspectError)
    case NoTask => (true, TaskNotFound)
    case Exited => (true, TaskExited)
    case RunningPassed => (true, Ready)
    case RunningFailed => (false, TimedOut)
    case NotYet => (false, TimedOut)
  }

  datatype WaitEnd = WaitEnd(verdict: Verdict, end: nat, looks: nat)

  /** Sleep after the k-th look: doubling up to two seconds, or the healthcheck's own fixed interval. */
  function IntervalAt(initial: nat, backoff: bool, k: nat): nat {
    if backoff then Capped(initial, MAX_INTERVAL, k) else initial
  }

  /** Time passes at every turn: the interval is not zero, or no look is instant. */
  ghost predicate Advances(initial: nat, looks: nat -> Look) { initial > 0 || forall k: nat :: looks(k).cost > 0 }

  lemma TurnAdvances(initial: nat, backoff: bool, looks: nat -> Look, k: nat)
    requires Advances(initial, looks)
    ensures looks(k).cost + IntervalAt(initial, backoff, k) > 0
  {
    if initial > 0 { assert initial * Pow2(k) >= initial * 1; }
  }

  function Wait(start: nat, timeout: nat, initial: nat, backoff: bool, looks: nat -> Look, now: nat, k: nat): WaitEnd
    requires start <= now && Advances(initial, looks)
    decreases start + timeout + 1 - now
  {
    var t := now + looks(k).cost;
    if Decides(looks(k).seen).0 then WaitEnd(Decides(looks(k).seen).1, t, k + 1)
    else if t - start > timeout then WaitEnd(TimedOut, t, k + 1)
    else
      TurnAdvances(initial, backoff, looks, k);
      Wait(start, timeout, initial, backoff, looks, t + IntervalAt(initial, backoff, k), k + 1)
  }

  /** The polling loop of `wait_ready`, after any start period. */
  method WaitReady(start: nat, timeout: nat, initial: nat, backoff: bool, looks: nat -> Look) returns (r: WaitEnd)
    requires Advances(initial, looks) && (backoff ==> initial <= MAX_INTERVAL)
    ensures r == Wait(start, timeout, initial, backoff, looks, start, 0)
    ensures r.verdict == Ready
       <==> exists n: nat :: Made(start, timeout, initial, backoff, looks, n) && looks(n).seen.RunningPassed?
    ensures r.looks > 0 && (r.verdict == Ready <==> looks(r.looks - 1).seen.RunningPassed?)
    ensures r.verdict == TimedOut <==> looks(r.looks - 1).seen.RunningFailed? || looks(r.looks - 1).seen.NotYet?
  {
    hide Wait, Made;
    r := WaitLoop(start, timeout, initial, backoff, looks);
    ReadyIff(start, timeout, initial, backoff, looks);
    WaitMeaning(start, timeout, initial, backoff, looks, start, 0);
  }

  method WaitLoop(start: nat, timeout: nat, initial: nat, backoff: bool, looks: nat -> Look) returns (r: WaitEnd)
    requires Advances(initial, looks) && (backoff ==> initial <= MAX_INTERVAL)
    ensures r == Wait(start, timeout, initial, backoff, looks, start, 0)
  {
    hide Capped;
    var now, k, interval := start, 0, initial;
    assert interval == IntervalAt(initial, backoff, 0) by { FirstInterval(initial, backoff); }
    while true
      invariant start <= now
      invariant interval == IntervalAt(initial, backoff, k)
      invariant Wait(start, timeout, initial, backoff, looks, now, k)
             == Wait(start, timeout, initial, backoff, looks, start, 0)
      decreases start + timeout + 1 - now
    {
      var look := looks(k);
      now := now + look.cost;
      var (done, verdict) := Decides(look.seen);
      if done { return WaitEnd(verdict, now, k + 1); }
      if now - start > timeout { return WaitEnd(TimedOut, now, k + 1); }
      TurnAdvances(initial, backoff, looks, k);
      now := now + interval;
      CappedStep(initial, MAX_INTERVAL, k);
      if backoff { interval := if 2 * interval < MAX_INTERVAL then 2 * interval else MAX_INTERVAL; }
      k := k + 1;
    }
  }

  lemma FirstInterval(initial: nat, backoff: bool)
    requires backoff ==> initial <= MAX_INTERVAL
    ensures IntervalAt(initial, backoff, 0) == initial
  {
    assert initial * Pow2(0) == initial;
  }

  /** A backoff-driven wait ends within the timeout, two seconds, and one look. */
  lemma {:induction false} WaitBound(start: nat, timeout: nat, initial: nat, looks: nat -> Look,
                                     now: nat, k: nat, d: nat)
    requires start <= now <= start + timeout + MAX_INTERVAL && Advances(initial, looks)
    requires forall j: nat :: looks(j).cost <= d
    ensures Wait(start, timeout, initial, true, looks, now, k).end <= start + timeout + 2_000_000_000 + d
    decreases start + timeout + 1 - now
  {
    hide Capped;
    var t := now + looks(k).cost;
    if !Decides(looks(k).seen).0 && t - start <= timeout {
      TurnAdvances(initial, true, looks, k);
      assert IntervalAt(initial, true, k) <= MAX_INTERVAL by { AtMostCap(initial, k); }
      WaitBound(start, timeout, initial, looks, t + IntervalAt(initial, true, k), k + 1, d);
    }
  }

  lemma AtMostCap(initial: nat, k: nat)
    ensures Capped(initial, MAX_INTERVAL, k) <= MAX_INTERVAL
  {
  }

  /** The verdict is that of the last look: every earlier one showed a task still starting or a check that
      failed, and so does the last one exactly on a timeout, which is reported only after it has passed. */
  lemma {:induction false} WaitMeaning(start: nat, timeout: nat, initial: nat, backoff: bool, looks: nat -> Look,
                                       now: nat, k: nat)
    requires start <= now && Advances(initial, looks)
    ensures var r := Wait(start, timeout, initial, backoff, looks, now, k);
            && r.looks > k
            && (forall j: nat | k <= j < r.looks - 1 :: looks(j).seen.RunningFailed? || looks(j).seen.NotYet?)
            && var last := looks(r.looks - 1).seen;
               && (r.verdict == Ready <==> last.RunningPassed?)
               && (r.verdict == TaskNotFound <==> last.NoTask?)
               && (r.verdict == TaskExited <==> last.Exited?)
               && (r.verdict == InspectError <==> last.InspectFailed?)
               && (r.verdict == TimedOut <==> last.RunningFailed? || last.NotYet?)
               && (r.verdict == TimedOut ==> r.end - start > timeout)
    decreases start + timeout + 1 - now
  {
    hide Capped;
    var t := now + looks(k).cost;
    if (looks(k).seen.RunningFailed? || looks(k).seen.NotYet?) && t - start <= timeout {
      TurnAdvances(initial, backoff, looks, k);
      WaitMeaning(start, timeout, initial, backoff, looks, t + IntervalAt(initial, backoff, k), k + 1);
    }
  }

  /** The sleep after the k-th look: the initial interval doubled k times, up to two seconds, or always the
      healthcheck's own. */
  lemma IntervalIs(initial: nat, backoff: bool, k: nat)
    ensures backoff ==>
              IntervalAt(initial, backoff, k)
              == if initial * Pow2(k) < 2_000_000_000 then initial * Pow2(k) else 2_000_000_000
    ensures !backoff ==> IntervalAt(initial, backoff, k) == initial
    ensures INITIAL_INTERVAL == 100_000_000
  {
  }

  /** When the n-th look starts. */
  function LookTime(start: nat, initial: nat, backoff: bool, looks: nat -> Look, n: nat): (t: nat)
    ensures t >= start
  {
    if n == 0 then start
    else LookTime(start, initial, backoff, looks, n - 1) + looks(n - 1).cost + IntervalAt(initial, backoff, n - 1)
  }

  lemma {:induction false} LookTimesIncrease(start: nat, initial: nat, backoff: bool, looks: nat -> Look,
                                             a: nat, b: nat)
    requires a <= b
    ensures LookTime(start, initial, backoff, looks, a) <= LookTime(start, initial, backoff, looks, b)
    ensures a < b ==>
              LookTime(start, initial, backoff, looks, a) + looks(a).cost <= LookTime(start, initial, backoff, looks, b)
  {
    hide IntervalAt;
    if a < b { LookTimesIncrease(start, initial, backoff, looks, a, b - 1); }
  }

  /** The n-th look is made: no earlier one decided, and the one before ended within the timeout. */
  predicate Made(start: nat, timeout: nat, initial: nat, backoff: bool, looks: nat -> Look, n: nat) {
    && (forall j: nat | j < n :: looks(j).seen.RunningFailed? || looks(j).seen.NotYet?)
    && (n > 0 ==> LookTime(start, initial, backoff, looks, n - 1) + looks(n - 1).cost - start <= timeout)
  }

  lemma {:induction false} WaitTimes(start: nat, timeout: nat, initial: nat, backoff: bool, looks: nat -> Look, k: nat)
    requires Advances(initial, looks) && Made(start, timeout, initial, backoff, looks, k)
    ensures var r := Wait(start, timeout, initial, backoff, looks, LookTime(start, initial, backoff, looks, k), k);
            && r.looks > k && Made(start, timeout, initial, backoff, looks, r.looks - 1)
            && r.end == LookTime(start, initial, backoff, looks, r.looks - 1) + looks(r.looks - 1).cost
    decreases start + timeout + 1 - LookTime(start, initial, backoff, looks, k)
  {
    hide IntervalAt, LookTime;
    NextLook(start, initial, backoff, looks, k);
    var t := LookTime(start, initial, backoff, looks, k) + looks(k).cost;
    if !Decides(looks(k).seen).0 && t - start <= timeout {
      TurnAdvances(initial, backoff, looks, k);
      assert Made(start, timeout, initial, backoff, looks, k + 1);
      WaitTimes(start, timeout, initial, backoff, looks, k + 1);
    }
  }

  lemma NextLook(start: nat, initial: nat, backoff: bool, looks: nat -> Look, k: nat)
    ensures LookTime(start, initial, backoff, looks, k + 1)
         == LookTime(start, initial, backoff, looks, k) + looks(k).cost + IntervalAt(initial, backoff, k)
  {
    hide IntervalAt;
  }

  /** The wait is over with Ready if and only if some look that gets made shows a running task whose check
      passes. */
  lemma ReadyIff(start: nat, timeout: nat, initial: nat, backoff: bool, looks: nat -> Look)
    requires Advances(initial, looks)
    ensures Wait(start, timeout, initial, backoff, looks, start, 0).verdict == Ready
       <==> exists n: nat :: Made(start, timeout, initial, backoff, looks, n) && looks(n).seen.RunningPassed?
  {
    hide Wait, IntervalAt;
    WaitTimes(start, timeout, initial, backoff, looks, 0);
    WaitMeaning(start, timeout, initial, backoff, looks, start, 0);
    var r := Wait(start, timeout, initial, backoff, looks, start, 0);
    var last := r.looks - 1;
    forall n: nat | Made(start, timeout, initial, backoff, looks, n) && looks(n).seen.RunningPassed? ensures n == last {
      if n > last { LookTimesIncrease(start, initial, backoff, looks, last, n - 1); }
    }
  }

  // ---- the until-exit watcher ----

  const WATCH_BASE: nat := 250 * MS
  const WATCH_MAX: nat := 5_000 * MS
  const MAX_CONSECUTIVE_ERRORS: nat := 60

  /** What one inspection of the watched container shows. */
  datatype Answer = Alive | Stopped | Gone | Error

  /** Consecutive errors at the end of the first `n` answers. */
  function Errors(a: seq<Answer>, n: nat): nat
    requires n <= |a|
  {
    if n == 0 || !a[n - 1].Error? then 0 else 1 + Errors(a, n - 1)
  }

  /** The answer at `i` makes the watcher signal the follower to stop. */
  predicate Ends(a: seq<Answer>, i: nat)
    requires i < |a|
  {
    a[i].Stopped? || a[i].Gone? || Errors(a, i + 1) >= MAX_CONSECUTIVE_ERRORS
  }

  /** Total sleep before the first `n` inspections. */
  function Slept(a: seq<Answer>, n: nat): nat
    requires n <= |a|
  {
    if n == 0 then 0 else Slept(a, n - 1) + Capped(WATCH_BASE, WATCH_MAX, Errors(a, n - 1))
  }

  /** The last sixty of the first `n` answers are errors. */
  predicate ErrorsBefore(a: seq<Answer>, n: nat)
    requires n <= |a|
  {
    60 <= n && forall i | n - 60 <= i < n :: a[i].Error?
  }

  /** The watcher over a finite run of answers: it stops at the first answer that ends it, and the
      sleep before each inspection is 250 ms doubled for each error since the last success, up to 5 s. */
  method Watch(a: seq<Answer>) returns (signalled: bool, used: nat, slept: nat)
    ensures used <= |a| && slept == Slept(a, used)
    ensures signalled ==> used > 0 && Ends(a, used - 1)
    ensures !signalled ==> used == |a|
    ensures forall i | 0 <= i < (if signalled then used - 1 else used) :: !Ends(a, i)
    // it signals on a stopped task, a container that is gone, or sixty errors in a row, and on nothing before
    ensures signalled ==> a[used - 1].Stopped? || a[used - 1].Gone? || ErrorsBefore(a, used)
    ensures forall i | 0 <= i < (if signalled then used - 1 else used) ::
              (a[i].Alive? || a[i].Error?) && !ErrorsBefore(a, i + 1)
  {
    hide Capped;
    forall n | 0 <= n <= |a| ensures Errors(a, n) >= 60 <==> ErrorsBefore(a, n) { ErrorsCount(a, n, 60); }
    var interval, errors := WATCH_BASE, 0;
    assert interval == Capped(WATCH_BASE, WATCH_MAX, 0) by { BaseInterval(); }
    signalled, used, slept := false, 0, 0;
    while used < |a|
      invariant used <= |a| && slept == Slept(a, used) && !signalled
      invariant errors == Errors(a, used) < MAX_CONSECUTIVE_ERRORS
      invariant interval == Capped(WATCH_BASE, WATCH_MAX, errors)
      invariant forall i | 0 <= i < used :: !Ends(a, i)
      invariant forall i | 0 <= i < used :: (a[i].Alive? || a[i].Error?) && !ErrorsBefore(a, i + 1)
    {
      slept := slept + interval;
      var done := false;
      match a[used] {
        case Alive => errors, interval := 0, WATCH_BASE; BaseInterval();
        case Stopped => errors, interval := 0, WATCH_BASE; done := true; BaseInterval();
        case Gone => done := true;
        case Error =>
          CappedStep(WATCH_BASE, WATCH_MAX, errors);
          errors := errors + 1;
          interval := if 2 * interval < WATCH_MAX then 2 * interval else WATCH_MAX;
          done := errors >= MAX_CONSECUTIVE_ERRORS;
      }
      used := used + 1;
      if done { signalled := true; return; }
    }
  }

  lemma BaseInterval()
    ensures Capped(WATCH_BASE, WATCH_MAX, 0) == WATCH_BASE
  {
    assert WATCH_BASE * Pow2(0) == WATCH_BASE;
  }

  /** Giving up on errors takes exactly sixty in a row. */
  lemma {:induction false} ErrorsCount(a: seq<Answer>, n: nat, k: nat)
    requires n <= |a|
    ensures Errors(a, n) >= k <==> (k <= n && forall i | n - k <= i < n :: a[i].Error?)
    decreases k
  {
    if k > 0 && n > 0 { ErrorsCount(a, n - 1, k - 1); }
  }

  /** Sleep over a run of `e` consecutive errors, from the base interval on. */
  function ErrorSleep(e: nat): nat {
    if e == 0 then 0 else ErrorSleep(e - 1) + Capped(WATCH_BASE, WATCH_MAX, e - 1)
  }

  lemma {:induction false} LongErrorSleep(e: nat)
    requires e >= 5
    ensures ErrorSleep(e) == 7_750 * MS + (e - 5) * WATCH_MAX
    ensures Pow2(e) >= 32
  {
    assert Pow2(1) == 2 && Pow2(2) == 4 && Pow2(3) == 8 && Pow2(4) == 16 && Pow2(5) == 32;
    if e == 5 {
      assert ErrorSleep(2) == 750 * MS;
      assert ErrorSleep(4) == ErrorSleep(2) + 1_000 * MS + 2_000 * MS;
      assert ErrorSleep(5) == ErrorSleep(4) + 4_000 * MS;
    } else {
      LongErrorSleep(e - 1);
      assert WATCH_BASE * Pow2(e - 1) >= WATCH_BASE * 32;
      assert Capped(WATCH_BASE, WATCH_MAX, e - 1) == WATCH_MAX;
    }
  }

  lemma {:induction false} SleepOverErrors(a: seq<Answer>, n: nat, k: nat)
    requires k <= n <= |a| && Errors(a, n) == k
    ensures Slept(a, n) == Slept(a, n - k) + ErrorSleep(k)
    decreases k
  {
    hide Capped;
    if k > 0 { SleepOverErrors(a, n - 1, k - 1); }
  }

  /** From the last success to giving up the watcher sleeps exactly 282.75 seconds. */
  lemma GiveUpAfter(a: seq<Answer>, n: nat)
    requires n <= |a| && Errors(a, n) == MAX_CONSECUTIVE_ERRORS
    ensures n >= MAX_CONSECUTIVE_ERRORS
    ensures Slept(a, n) - Slept(a, n - MAX_CONSECUTIVE_ERRORS) == 282_750 * MS
  {
    hide Capped, ErrorSleep, Slept, Errors;
    ErrorsCount(a, n, MAX_CONSECUTIVE_ERRORS);
    SleepOverErrors(a, n, MAX_CONSECUTIVE_ERRORS);
    LongErrorSleep(MAX_CONSECUTIVE_ERRORS);
  }
}
