/** Stop and delete against a clock. Time is in nanoseconds; every request answers after some cost,
    and what it answers is an arbitrary function of how many came before. Sleeps are exact. */
module Deadlines {
  const MS: nat := 1_000_000
  const POLL_INTERVAL: nat := 100 * MS
  const MAX_SIGTERM_GRACE: nat := 5_000 * MS

  /** One evaluation of a polled predicate. */
  datatype Probe = Probe(cost: nat, yes: bool)

  datatype PollEnd = PollEnd(ok: bool, end: nat, probes: nat)

  /** `poll_until` from `now`, the k-th probe coming next. */
  function PollUntil(start: nat, timeout: nat, interval: nat, now: nat, p: nat -> Probe, k: nat): (r: PollEnd)
    requires start <= now && interval > 0
    ensures r.end >= now && r.probes >= k
    decreases start + timeout + 1 - now
  {
    if now - start > timeout then PollEnd(false, now, k)
    else if p(k).yes then PollEnd(true, now + p(k).cost, k + 1)
    else PollUntil(start, timeout, interval, now + p(k).cost + interval, p, k + 1)
  }

  method PollUntilLoop(start: nat, timeout: nat, interval: nat, p: nat -> Probe) returns (r: PollEnd)
    requires interval > 0
    ensures r == PollUntil(start, timeout, interval, start, p, 0)
  {
    var now, k := start, 0;
    while true
      invariant start <= now
      invariant PollUntil(start, timeout, interval, now, p, k) == PollUntil(start, timeout, interval, start, p, 0)
      decreases start + timeout + 1 - now
    {
      if now - start > timeout { return PollEnd(false, now, k); }
      var answer := p(k);
      if answer.yes { return PollEnd(true, now + answer.cost, k + 1); }
      now, k := now + answer.cost + interval, k + 1;
    }
  }

  ghost predicate CostsAtMost(p: nat -> Probe, d: nat) { forall k: nat :: p(k).cost <= d }

  /** With each probe costing at most `d`, polling ends within timeout + interval + d. */
  lemma {:induction false} PollBound(start: nat, timeout: nat, interval: nat, now: nat, p: nat -> Probe, k: nat, d: nat)
    requires start <= now <= start + timeout + interval + d && interval > 0 && CostsAtMost(p, d)
    ensures PollUntil(start, timeout, interval, now, p, k).end <= start + timeout + interval + d
    decreases start + timeout + 1 - now
  {
    if now - start <= timeout && !p(k).yes {
      assert p(k).cost <= d;
      PollBound(start, timeout, interval, now + p(k).cost + interval, p, k + 1, d);
    }
  }

  /** Ok means the last probe said yes and none before it did; an error means none said yes and the
      timeout had passed. */
  lemma {:induction false} PollMeaning(start: nat, timeout: nat, interval: nat, now: nat, p: nat -> Probe, k: nat)
    requires start <= now && interval > 0
    ensures var r := PollUntil(start, timeout, interval, now, p, k);
            && (r.ok ==> r.probes > k && p(r.probes - 1).yes && forall j: nat | k <= j < r.probes - 1 :: !p(j).yes)
            && (!r.ok ==> r.end - start > timeout && forall j: nat | k <= j < r.probes :: !p(j).yes)
    decreases start + timeout + 1 - now
  {
    if now - start <= timeout && !p(k).yes {
      PollMeaning(start, timeout, interval, now + p(k).cost + interval, p, k + 1);
    }
  }

  /** When the n-th probe starts. */
  function ProbeTime(start: nat, interval: nat, p: nat -> Probe, n: nat): (t: nat)
    ensures t >= start
  {
    if n == 0 then start else ProbeTime(start, interval, p, n - 1) + p(n - 1).cost + interval
  }

  lemma {:induction false} ProbeTimesIncrease(start: nat, interval: nat, p: nat -> Probe, a: nat, b: nat)
    requires a <= b
    ensures ProbeTime(start, interval, p, a) <= ProbeTime(start, interval, p, b)
  {
    if a < b { ProbeTimesIncrease(start, interval, p, a, b - 1); }
  }

  lemma {:induction false} PollTimes(start: nat, timeout: nat, interval: nat, p: nat -> Probe, k: nat)
    requires interval > 0
    ensures var r := PollUntil(start, timeout, interval, ProbeTime(start, interval, p, k), p, k);
            if r.ok then
              && r.probes > k && ProbeTime(start, interval, p, r.probes - 1) - start <= timeout
              && r.end == ProbeTime(start, interval, p, r.probes - 1) + p(r.probes - 1).cost
            else r.end == ProbeTime(start, interval, p, r.probes)
    decreases start + timeout + 1 - ProbeTime(start, interval, p, k)
  {
    var now := ProbeTime(start, interval, p, k);
    if now - start <= timeout && !p(k).yes {
      assert ProbeTime(start, interval, p, k + 1) == now + p(k).cost + interval;
      PollTimes(start, timeout, interval, p, k + 1);
    }
  }

  /** The first probe to say yes starts before the timeout has passed. */
  ghost predicate Answers(p: nat -> Probe, timeout: nat, interval: nat) {
    exists n: nat :: FirstYes(p, n) && ProbeTime(0, interval, p, n) <= timeout
  }

  lemma {:induction false} ProbeTimeShift(start: nat, interval: nat, p: nat -> Probe, n: nat)
    ensures ProbeTime(start, interval, p, n) == start + ProbeTime(0, interval, p, n)
  {
    if n > 0 { ProbeTimeShift(start, interval, p, n - 1); }
  }

  /** Polling succeeds if and only if the first probe to say yes starts before the timeout has passed,
      and then ends with that probe. */
  lemma PollOkIff(start: nat, timeout: nat, interval: nat, p: nat -> Probe)
    requires interval > 0
    ensures var r := PollUntil(start, timeout, interval, start, p, 0);
            && (r.ok <==> Answers(p, timeout, interval))
            && (r.ok ==>
                  && FirstYes(p, r.probes - 1)
                  && r.end == ProbeTime(start, interval, p, r.probes - 1) + p(r.probes - 1).cost)
  {
    hide PollUntil, ProbeTime;
    assert ProbeTime(start, interval, p, 0) == start by { FirstProbe(start, interval, p); }
    var r := PollUntil(start, timeout, interval, start, p, 0);
    PollTimes(start, timeout, interval, p, 0);
    PollMeaning(start, timeout, interval, start, p, 0);
    if r.ok {
      assert FirstYes(p, r.probes - 1);
      ProbeTimeShift(start, interval, p, r.probes - 1);
    } else {
      forall n: nat | FirstYes(p, n) ensures ProbeTime(0, interval, p, n) > timeout {
        ProbeTimesIncrease(start, interval, p, r.probes, n);
        ProbeTimeShift(start, interval, p, n);
      }
    }
  }

  predicate FirstYes(p: nat -> Probe, n: nat) { p(n).yes && forall j: nat | j < n :: !p(j).yes }

  lemma FirstProbe(start: nat, interval: nat, p: nat -> Probe)
    ensures ProbeTime(start, interval, p, 0) == start
  {
  }

  lemma NextProbe(start: nat, interval: nat, p: nat -> Probe, n: nat)
    ensures ProbeTime(start, interval, p, n + 1) == ProbeTime(start, interval, p, n) + p(n).cost + interval
  {
  }

  /** Free probes that say yes at the n-th one, before the timeout, take n intervals. */
  lemma {:induction false} PollYesAt(start: nat, timeout: nat, interval: nat, p: nat -> Probe, k: nat, n: nat)
    requires interval > 0 && k <= n && n * interval <= timeout
    requires forall j: nat :: p(j) == Probe(0, j == n)
    ensures start + k * interval >= start
    ensures PollUntil(start, timeout, interval, start + k * interval, p, k)
         == PollEnd(true, start + n * interval, n + 1)
    decreases n - k
  {
    assert k * interval <= n * interval by { MulMono(k, n, interval); }
    if k < n {
      PollYesAt(start, timeout, interval, p, k + 1, n);
      assert (k + 1) * interval == k * interval + interval;
      assert start + k * interval + p(k).cost + interval == start + (k + 1) * interval;
    }
  }

  /** Free probes that never say yes run one interval past a timeout of n intervals. */
  lemma {:induction false} PollNever(start: nat, interval: nat, p: nat -> Probe, k: nat, n: nat)
    requires interval > 0 && k <= n + 1
    requires forall j: nat :: p(j) == Probe(0, false)
    ensures start + k * interval >= start
    ensures PollUntil(start, n * interval, interval, start + k * interval, p, k)
         == PollEnd(false, start + n * interval + interval, n + 1)
    decreases n + 1 - k
  {
    assert (n + 1) * interval == n * interval + interval;
    if k <= n {
      assert k * interval <= n * interval by { MulMono(k, n, interval); }
      assert (k + 1) * interval == k * interval + interval;
      PollNever(start, interval, p, k + 1, n);
      assert start + k * interval + p(k).cost + interval == start + (k + 1) * interval;
    }
  }

  lemma MulMono(a: nat, b: nat, c: nat)
    requires a <= b
    ensures a * c <= b * c
  {
    assert b * c == a * c + (b - a) * c;
  }

  // ---- stop ----

  datatype Status = Running | Stopped | Paused | Unknown

  /** What an inspection shows: no task, a task in some state, no container, an error, or a container whose
      task lookup went unanswered, which the code takes for no task. */
  datatype Seen = NoTask | Has(status: Status) | Gone | Failed | Unanswered

  datatype Inspection = Inspection(cost: nat, seen: Seen)

  /** The test `wait_for_task_stop` polls. */
  predicate LooksStopped(s: Seen) { s.NoTask? || s.Gone? || s == Has(Stopped) || s.Unanswered? }

  /** containerd has said that nothing is running any more. */
  predicate Confirmed(s: Seen) { LooksStopped(s) && !s.Unanswered? }

  function StopProbe(i: nat -> Inspection): nat -> Probe {
    (k: nat) => Probe(i(k).cost, LooksStopped(i(k).seen))
  }

  /** Everything the outside world answers during one stop. */
  datatype StopEnv = StopEnv(
    term: nat, wait1: nat -> Inspection, check: Inspection, kill: nat, wait2: nat -> Inspection)

  function Grace(timeout: nat): nat {
    if timeout / 2 < MAX_SIGTERM_GRACE then timeout / 2 else MAX_SIGTERM_GRACE
  }

  /** Outcome of a stop: whether it reports Ok, when, the last thing it saw, and when the look after the grace
      period was answered, which is when SIGKILL is sent to a task still running. */
  datatype StopEnd = StopEnd(ok: bool, end: nat, last: Seen, looked: nat)

  function StopContainer(timeout: nat, now: nat, env: StopEnv): StopEnd {
    var t1 := now + env.term;
    var w1 := PollUntil(t1, Grace(timeout), POLL_INTERVAL, t1, StopProbe(env.wait1), 0);
    var t2 := w1.end + env.check.cost;
    if env.check.seen != Has(Running) then StopEnd(true, t2, env.check.seen, t2)
    else
      var t3 := t2 + env.kill;
      var w2 := PollUntil(t3, timeout - Grace(timeout), POLL_INTERVAL, t3, StopProbe(env.wait2), 0);
      StopEnd(w2.ok, w2.end, if w2.probes > 0 then env.wait2(w2.probes - 1).seen else env.check.seen, t2)
  }

  /** SIGTERM, a bounded wait, a look, and SIGKILL with the rest of the budget if still running. */
  method StopContainerSteps(timeout: nat, now: nat, env: StopEnv) returns (r: StopEnd)
    ensures r == StopContainer(timeout, now, env)
    ensures r.ok <==> (|| env.check.seen != Has(Running)
                       || Answers(StopProbe(env.wait2), timeout - Grace(timeout), POLL_INTERVAL))
    ensures r.ok ==> r.last != Has(Running)
    ensures forall d: nat | StopCosts(env, d) :: now <= r.end <= now + timeout + 2 * POLL_INTERVAL + 7 * d
  {
    hide PollUntil, Answers;
    StopOkIff(timeout, now, env);
    if StopContainer(timeout, now, env).ok { StopOkMeaning(timeout, now, env); }
    forall d: nat | StopCosts(env, d)
      ensures now <= StopContainer(timeout, now, env).end <= now + timeout + 2 * POLL_INTERVAL + 7 * d
    {
      StopBound(timeout, now, env, d);
    }
    var grace := Grace(timeout);
    var t := now + env.term;
    var w := PollUntilLoop(t, grace, POLL_INTERVAL, StopProbe(env.wait1));
    t := w.end + env.check.cost;
    var looked := t;
    if env.check.seen != Has(Running) { return StopEnd(true, t, env.check.seen, looked); }
    t := t + env.kill;
    w := PollUntilLoop(t, timeout - grace, POLL_INTERVAL, StopProbe(env.wait2));
    r := StopEnd(w.ok, w.end, if w.probes > 0 then env.wait2(w.probes - 1).seen else env.check.seen, looked);
  }

  /** Each request costs at most `d`; an inspection in a wait is two, the container's and the task's. */
  ghost predicate StopCosts(env: StopEnv, d: nat) {
    && env.term <= d && env.check.cost <= d && env.kill <= d
    && (forall k: nat :: env.wait1(k).cost <= 2 * d) && (forall k: nat :: env.wait2(k).cost <= 2 * d)
  }

  /** With each request costing at most `d`, a stop ends within the timeout plus two poll intervals
      and seven requests. */
  lemma StopBound(timeout: nat, now: nat, env: StopEnv, d: nat)
    requires StopCosts(env, d)
    ensures now <= StopContainer(timeout, now, env).end <= now + timeout + 2 * POLL_INTERVAL + 7 * d
  {
    var t1 := now + env.term;
    PollBound(t1, Grace(timeout), POLL_INTERVAL, t1, StopProbe(env.wait1), 0, 2 * d);
    var w1 := PollUntil(t1, Grace(timeout), POLL_INTERVAL, t1, StopProbe(env.wait1), 0);
    var t3 := w1.end + env.check.cost + env.kill;
    PollBound(t3, timeout - Grace(timeout), POLL_INTERVAL, t3, StopProbe(env.wait2), 0, 2 * d);
  }

  /** Ok means that the last look did not show a running task. */
  lemma StopOkMeaning(timeout: nat, now: nat, env: StopEnv)
    requires StopContainer(timeout, now, env).ok
    ensures StopContainer(timeout, now, env).last != Has(Running)
  {
    var t1 := now + env.term;
    var w1 := PollUntil(t1, Grace(timeout), POLL_INTERVAL, t1, StopProbe(env.wait1), 0);
    if env.check.seen == Has(Running) {
      var t3 := w1.end + env.check.cost + env.kill;
      PollMeaning(t3, timeout - Grace(timeout), POLL_INTERVAL, t3, StopProbe(env.wait2), 0);
    }
  }

  /** A stop reports Ok if and only if the look after the grace period does not show a running task, or
      the wait after SIGKILL sees it stopped within the rest of the budget. */
  lemma StopOkIff(timeout: nat, now: nat, env: StopEnv)
    ensures StopContainer(timeout, now, env).ok
       <==> (env.check.seen != Has(Running) || Answers(StopProbe(env.wait2), timeout - Grace(timeout), POLL_INTERVAL))
    // an answer looks stopped when there is no task, no container, a stopped task, or no answer about the task
    ensures forall k: nat ::
              StopProbe(env.wait2)(k).yes <==> env.wait2(k).seen in {NoTask, Gone, Has(Stopped), Unanswered}
    // the grace period is half the timeout, and never more than five seconds
    ensures Grace(timeout) == if timeout / 2 < 5_000_000_000 then timeout / 2 else 5_000_000_000
    ensures POLL_INTERVAL == 100_000_000
  {
    hide PollUntil, Answers;
    var t1 := now + env.term;
    var w1 := PollUntil(t1, Grace(timeout), POLL_INTERVAL, t1, StopProbe(env.wait1), 0);
    PollOkIff(w1.end + env.check.cost + env.kill, timeout - Grace(timeout), POLL_INTERVAL, StopProbe(env.wait2));
  }

  /** How long a task has between SIGTERM and SIGKILL: until the first answer that looks stopped, if one comes
      within half the timeout and five seconds, and otherwise that long, at most one poll interval and three
      requests more. */
  lemma SigkillAfterGrace(timeout: nat, now: nat, env: StopEnv)
    ensures var r := StopContainer(timeout, now, env);
            var grace := if timeout / 2 < 5_000_000_000 then timeout / 2 else 5_000_000_000;
            var p, sent := StopProbe(env.wait1), now + env.term;
            && (env.check.seen != Has(Running) ==> r.end == r.looked)
            && (env.check.seen == Has(Running) ==> r.end >= r.looked + env.kill)
            && (forall n: nat | FirstYes(p, n) && ProbeTime(0, POLL_INTERVAL, p, n) <= grace ::
                  r.looked == sent + ProbeTime(0, POLL_INTERVAL, p, n) + p(n).cost + env.check.cost)
            && (!Answers(p, grace, POLL_INTERVAL) ==> r.looked > sent + grace + env.check.cost)
            && (forall d: nat | StopCosts(env, d) :: r.looked <= sent + grace + POLL_INTERVAL + 3 * d)
  {
    hide PollUntil, ProbeTime, FirstYes;
    var p, sent, grace := StopProbe(env.wait1), now + env.term, Grace(timeout);
    PollOkIff(sent, grace, POLL_INTERVAL, p);
    PollMeaning(sent, grace, POLL_INTERVAL, sent, p, 0);
    var w := PollUntil(sent, grace, POLL_INTERVAL, sent, p, 0);
    forall n: nat | FirstYes(p, n) && ProbeTime(0, POLL_INTERVAL, p, n) <= grace
      ensures w.end == sent + ProbeTime(0, POLL_INTERVAL, p, n) + p(n).cost
    {
      OneFirstYes(p, n, w.probes - 1);
      ProbeTimeShift(sent, POLL_INTERVAL, p, n);
    }
    forall d: nat | StopCosts(env, d) ensures w.end <= sent + grace + POLL_INTERVAL + 2 * d {
      PollBound(sent, grace, POLL_INTERVAL, sent, p, 0, 2 * d);
    }
  }

  /** Exactly when Ok means stopped. If the look after the grace period shows a running task, the first
      answer of the wait after SIGKILL that looks stopped in time must be a confirmed one; otherwise the
      look itself must be. */
  lemma StopOkMeansStoppedIff(timeout: nat, now: nat, env: StopEnv)
    ensures var r := StopContainer(timeout, now, env);
            (r.ok ==> Confirmed(r.last))
            <==> if env.check.seen == Has(Running) then FirstStopConfirmed(env, timeout - Grace(timeout))
                 else Confirmed(env.check.seen)
  {
    hide PollUntil, ProbeTime, FirstYes;
    var t1 := now + env.term;
    var w1 := PollUntil(t1, Grace(timeout), POLL_INTERVAL, t1, StopProbe(env.wait1), 0);
    var t3, rest, p := w1.end + env.check.cost + env.kill, timeout - Grace(timeout), StopProbe(env.wait2);
    PollOkIff(t3, rest, POLL_INTERVAL, p);
    PollMeaning(t3, rest, POLL_INTERVAL, t3, p, 0);
    var w2 := PollUntil(t3, rest, POLL_INTERVAL, t3, p, 0);
    forall n: nat | FirstYes(p, n) && w2.ok ensures n == w2.probes - 1 { OneFirstYes(p, n, w2.probes - 1); }
  }

  /** Every answer of the wait after SIGKILL that is the first to look stopped, and comes in time, is confirmed. */
  ghost predicate FirstStopConfirmed(env: StopEnv, rest: nat) {
    var p := StopProbe(env.wait2);
    forall n: nat | FirstYes(p, n) && ProbeTime(0, POLL_INTERVAL, p, n) <= rest :: Confirmed(env.wait2(n).seen)
  }

  lemma OneFirstYes(p: nat -> Probe, a: nat, b: nat)
    requires FirstYes(p, a) && FirstYes(p, b)
    ensures a == b
  {
  }

  /** The failing families, for every timeout: a look that shows a paused task or goes unanswered, and a
      running task whose lookup goes unanswered once after SIGKILL. */
  lemma StopOkIsNotStopped(timeout: nat, now: nat, check: Seen, after: Seen)
    requires check == Has(Paused) || check.Unanswered? || (check == Has(Running) && after.Unanswered?)
    ensures var env := StopEnv(0, (k: nat) => Inspection(0, check), Inspection(0, check), 0,
                               (k: nat) => Inspection(0, after));
            StopContainer(timeout, now, env).ok && !Confirmed(StopContainer(timeout, now, env).last)
  {
  }

  // ---- delete ----

  /** What the phases of a delete see: deleting the task, waiting for its record to go, removing the
      container, waiting for its record to go. */
  datatype DeleteEnv = DeleteEnv(
    stop: StopEnv, deleteTask: nat -> Probe, taskGone: nat -> Inspection, remove: nat, recordGone: nat -> Inspection)

  /** The task's record counts as gone unless the inspection shows a task. */
  function TaskGoneProbe(i: nat -> Inspection): nat -> Probe {
    (k: nat) => Probe(i(k).cost, !i(k).seen.Has?)
  }

  /** The container's record counts as gone only when containerd says so. */
  function RecordGoneProbe(i: nat -> Inspection): nat -> Probe {
    (k: nat) => Probe(i(k).cost, i(k).seen.Gone?)
  }

  datatype DeleteEnd = DeleteEnd(ok: bool, end: nat)

  function Phase(timeout: nat, now: nat, p: nat -> Probe): PollEnd {
    PollUntil(now, timeout, POLL_INTERVAL, now, p, 0)
  }

  function DeleteContainer(timeout: nat, now: nat, env: DeleteEnv): DeleteEnd {
    var s := StopContainer(timeout, now, env.stop);
    var p1 := Phase(timeout, s.end, env.deleteTask);
    if !p1.ok then DeleteEnd(false, p1.end) else
    var p2 := Phase(timeout, p1.end, TaskGoneProbe(env.taskGone));
    if !p2.ok then DeleteEnd(false, p2.end) else
    var p3 := Phase(timeout, p2.end + env.remove, RecordGoneProbe(env.recordGone));
    DeleteEnd(p3.ok, p3.end)
  }

  /** Stop, delete the task, wait for its record to go, remove the container, wait for its record to go. */
  method DeleteContainerSteps(timeout: nat, now: nat, env: DeleteEnv) returns (r: DeleteEnd)
    ensures r == DeleteContainer(timeout, now, env)
    ensures r.ok <==> (&& Answers(env.deleteTask, timeout, POLL_INTERVAL)
                       && Answers(TaskGoneProbe(env.taskGone), timeout, POLL_INTERVAL)
                       && Answers(RecordGoneProbe(env.recordGone), timeout, POLL_INTERVAL))
    ensures forall d: nat | DeleteCosts(env, d) :: r.end <= now + 4 * timeout + 3 * POLL_INTERVAL + 19 * d
  {
    hide PollUntil, Answers, StopContainer;
    DeleteOkIff(timeout, now, env);
    forall d: nat | DeleteCosts(env, d)
      ensures DeleteContainer(timeout, now, env).end <= now + 4 * timeout + 3 * POLL_INTERVAL + 19 * d
    {
      DeleteBound(timeout, now, env, d);
    }
    var s := StopContainerSteps(timeout, now, env.stop);
    var p := PollUntilLoop(s.end, timeout, POLL_INTERVAL, env.deleteTask);
    if !p.ok { return DeleteEnd(false, p.end); }
    p := PollUntilLoop(p.end, timeout, POLL_INTERVAL, TaskGoneProbe(env.taskGone));
    if !p.ok { return DeleteEnd(false, p.end); }
    p := PollUntilLoop(p.end + env.remove, timeout, POLL_INTERVAL, RecordGoneProbe(env.recordGone));
    r := DeleteEnd(p.ok, p.end);
  }

  /** The requests behind each probe: one; an inspection and a delete; an inspection and the three of a
      removal. An inspection is two requests. */
  ghost predicate DeleteCosts(env: DeleteEnv, d: nat) {
    && StopCosts(env.stop, d) && CostsAtMost(env.deleteTask, d) && CostsAtMost(TaskGoneProbe(env.taskGone), 3 * d)
    && env.remove <= 3 * d && CostsAtMost(RecordGoneProbe(env.recordGone), 5 * d)
  }

  /** A poll that succeeds ends within the timeout and one probe: it owes no sleep. */
  lemma PollOkBound(start: nat, timeout: nat, p: nat -> Probe, d: nat)
    requires CostsAtMost(p, d)
    ensures Phase(timeout, start, p).ok ==> Phase(timeout, start, p).end <= start + timeout + d
    ensures Phase(timeout, start, p).end <= start + timeout + POLL_INTERVAL + d
  {
    hide PollUntil, ProbeTime;
    FirstProbe(start, POLL_INTERVAL, p);
    PollTimes(start, timeout, POLL_INTERVAL, p, 0);
    PollBound(start, timeout, POLL_INTERVAL, start, p, 0, d);
    var r := Phase(timeout, start, p);
    if r.ok { assert p(r.probes - 1).cost <= d; }
  }

  /** A delete ends within four timeouts, three poll intervals and nineteen requests; one that succeeds
      saves an interval. */
  lemma DeleteBound(timeout: nat, now: nat, env: DeleteEnv, d: nat)
    requires DeleteCosts(env, d)
    ensures var r := DeleteContainer(timeout, now, env);
            r.end <= now + 4 * timeout + (if r.ok then 2 else 3) * POLL_INTERVAL + 19 * d
  {
    hide PollUntil, StopContainer;
    StopBound(timeout, now, env.stop, d);
    var s := StopContainer(timeout, now, env.stop);
    PollOkBound(s.end, timeout, env.deleteTask, d);
    var p1 := Phase(timeout, s.end, env.deleteTask);
    PollOkBound(p1.end, timeout, TaskGoneProbe(env.taskGone), 3 * d);
    var p2 := Phase(timeout, p1.end, TaskGoneProbe(env.taskGone));
    var t := p2.end + env.remove;
    PollOkBound(t, timeout, RecordGoneProbe(env.recordGone), 5 * d);
  }

  /** A delete reports Ok if and only if the task's deletion, the disappearance of its record and that of
      the container's record each come within their own timeout; how the stop went plays no part. */
  lemma DeleteOkIff(timeout: nat, now: nat, env: DeleteEnv)
    ensures DeleteContainer(timeout, now, env).ok
       <==> (&& Answers(env.deleteTask, timeout, POLL_INTERVAL)
             && Answers(TaskGoneProbe(env.taskGone), timeout, POLL_INTERVAL)
             && Answers(RecordGoneProbe(env.recordGone), timeout, POLL_INTERVAL))
    // a task counts as gone unless one is shown, even when the inspection fails; a container only when it is
    ensures forall k: nat ::
              TaskGoneProbe(env.taskGone)(k).yes <==> env.taskGone(k).seen in {NoTask, Gone, Failed, Unanswered}
    ensures forall k: nat :: RecordGoneProbe(env.recordGone)(k).yes <==> env.recordGone(k).seen == Gone
  {
    hide PollUntil, Answers, StopContainer;
    var s := StopContainer(timeout, now, env.stop);
    PollOkIff(s.end, timeout, POLL_INTERVAL, env.deleteTask);
    var p1 := Phase(timeout, s.end, env.deleteTask);
    PollOkIff(p1.end, timeout, POLL_INTERVAL, TaskGoneProbe(env.taskGone));
    var p2 := Phase(timeout, p1.end, TaskGoneProbe(env.taskGone));
    PollOkIff(p2.end + env.remove, timeout, POLL_INTERVAL, RecordGoneProbe(env.recordGone));
  }

  /** How long a phase that succeeds takes. */
  ghost predicate Takes(p: nat -> Probe, time: nat) {
    exists n: nat :: FirstYes(p, n) && time == ProbeTime(0, POLL_INTERVAL, p, n) + p(n).cost
  }

  lemma PhaseTakes(timeout: nat, now: nat, p: nat -> Probe)
    ensures var r := Phase(timeout, now, p); r.ok ==> r.end >= now && Takes(p, r.end - now)
  {
    hide PollUntil, ProbeTime, FirstYes;
    PollOkIff(now, timeout, POLL_INTERVAL, p);
    PollMeaning(now, timeout, POLL_INTERVAL, now, p, 0);
    var r := Phase(timeout, now, p);
    if r.ok { ProbeTimeShift(now, POLL_INTERVAL, p, r.probes - 1); }
  }

  /** A successful delete takes the stop, its three phases up to their first yes, and the removal, one after
      the other. */
  lemma DeleteTakes(timeout: nat, now: nat, env: DeleteEnv)
    requires DeleteContainer(timeout, now, env).ok
    ensures exists a: nat, b: nat, c: nat ::
              && Takes(env.deleteTask, a) && Takes(TaskGoneProbe(env.taskGone), b)
              && Takes(RecordGoneProbe(env.recordGone), c)
              && DeleteContainer(timeout, now, env).end
                 == StopContainer(timeout, now, env.stop).end + a + b + env.remove + c
  {
    hide PollUntil, StopContainer, Takes;
    var s := StopContainer(timeout, now, env.stop);
    PhaseTakes(timeout, s.end, env.deleteTask);
    var p1 := Phase(timeout, s.end, env.deleteTask);
    PhaseTakes(timeout, p1.end, TaskGoneProbe(env.taskGone));
    var p2 := Phase(timeout, p1.end, TaskGoneProbe(env.taskGone));
    PhaseTakes(timeout, p2.end + env.remove, RecordGoneProbe(env.recordGone));
  }

  /** A task that never looks stopped and phases that succeed at the last moment. */
  function SlowEnv(n: nat): DeleteEnv {
    var running := (k: nat) => Inspection(0, Has(Running));
    DeleteEnv(StopEnv(0, running, Inspection(0, Has(Running)), 0, running),
              (k: nat) => Probe(0, k == n),
              (k: nat) => Inspection(0, if k == n then NoTask else Has(Stopped)), 0,
              (k: nat) => Inspection(0, if k == n then Gone else NoTask))
  }

  /** A task that stays running through both waits costs the whole timeout and two intervals. */
  lemma StopOfStuckTask(m: nat, now: nat, env: StopEnv)
    requires env.term == 0 && env.kill == 0 && env.check == Inspection(0, Has(Running))
    requires forall k: nat :: env.wait1(k) == Inspection(0, Has(Running))
    requires forall k: nat :: env.wait2(k) == Inspection(0, Has(Running))
    ensures var timeout := 2 * m * POLL_INTERVAL;
            StopContainer(timeout, now, env).end == now + timeout + 2 * POLL_INTERVAL
  {
    hide PollUntil;
    var g := if m < 50 then m else 50;
    var timeout, grace := 2 * m * POLL_INTERVAL, g * POLL_INTERVAL;
    assert Grace(timeout) == grace && timeout - grace == (2 * m - g) * POLL_INTERVAL;
    PollNever(now, POLL_INTERVAL, StopProbe(env.wait1), 0, g);
    PollNever(now + grace + POLL_INTERVAL, POLL_INTERVAL, StopProbe(env.wait2), 0, 2 * m - g);
  }

  /** Three timeouts are not a bound: for every timeout of an even number of poll intervals, and with
      instant answers, a successful delete can take four timeouts and two intervals, which is the most
      it can take. */
  lemma DeleteTakesFourTimeouts(m: nat, now: nat)
    ensures var timeout := 2 * m * POLL_INTERVAL;
            DeleteContainer(timeout, now, SlowEnv(2 * m)) == DeleteEnd(true, now + 4 * timeout + 2 * POLL_INTERVAL)
  {
    hide PollUntil, StopContainer;
    var timeout, env := 2 * m * POLL_INTERVAL, SlowEnv(2 * m);
    StopOfStuckTask(m, now, env.stop);
    var s := now + timeout + 2 * POLL_INTERVAL;
    PollYesAt(s, timeout, POLL_INTERVAL, env.deleteTask, 0, 2 * m);
    PollYesAt(s + timeout, timeout, POLL_INTERVAL, TaskGoneProbe(env.taskGone), 0, 2 * m);
    PollYesAt(s + 2 * timeout, timeout, POLL_INTERVAL, RecordGoneProbe(env.recordGone), 0, 2 * m);
  }

  // ---- deleting a task with retries ----

  const RETRY_INTERVAL: nat := 50 * MS

  /** One `delete_task`: done (or already gone), an error worth retrying, or a definitive one. */
  datatype Answer = Deleted | Retryable | Definitive

  datatype Attempt = Attempt(cost: nat, answer: Answer)

  datatype RetryEnd = RetryEnd(ok: bool, end: nat, attempts: nat)

  /** `retry_delete_task` from `now`, the k-th attempt coming next. */
  function RetryDelete(start: nat, timeout: nat, now: nat, a: nat -> Attempt, k: nat): RetryEnd
    requires start <= now
    decreases start + timeout + RETRY_INTERVAL - now
  {
    var t := now + a(k).cost;
    if !a(k).answer.Retryable? then RetryEnd(a(k).answer.Deleted?, t, k + 1)
    else if t - start >= timeout then RetryEnd(false, t, k + 1)
    else RetryDelete(start, timeout, t + RETRY_INTERVAL, a, k + 1)
  }

  function AttemptProbe(a: nat -> Attempt): nat -> Probe {
    (k: nat) => Probe(a(k).cost, a(k).answer.Deleted?)
  }

  /** The n-th attempt, all before it being worth a retry, starts before the deadline plus one sleep. */
  predicate Attempted(a: nat -> Attempt, timeout: nat, n: nat) {
    && ProbeTime(0, RETRY_INTERVAL, AttemptProbe(a), n) < timeout + RETRY_INTERVAL
    && forall j: nat | j < n :: a(j).answer.Retryable?
  }

  lemma {:induction false} RetryTimes(start: nat, timeout: nat, a: nat -> Attempt, k: nat)
    requires Attempted(a, timeout, k)
    ensures var r := RetryDelete(start, timeout, start + ProbeTime(0, RETRY_INTERVAL, AttemptProbe(a), k), a, k);
            && r.attempts > k && Attempted(a, timeout, r.attempts - 1)
            && r.end == start + ProbeTime(0, RETRY_INTERVAL, AttemptProbe(a), r.attempts - 1) + a(r.attempts - 1).cost
            && r.ok == a(r.attempts - 1).answer.Deleted?
            && (a(r.attempts - 1).answer.Retryable? ==> r.end - start >= timeout)
    decreases timeout + RETRY_INTERVAL - ProbeTime(0, RETRY_INTERVAL, AttemptProbe(a), k)
  {
    hide ProbeTime;
    var t := ProbeTime(0, RETRY_INTERVAL, AttemptProbe(a), k) + a(k).cost;
    if a(k).answer.Retryable? && t < timeout {
      NextProbe(0, RETRY_INTERVAL, AttemptProbe(a), k);
      RetryTimes(start, timeout, a, k + 1);
    }
  }

  /** Retrying succeeds if and only if some attempt that gets made deletes the task. */
  lemma RetryOkIff(start: nat, timeout: nat, a: nat -> Attempt)
    ensures RetryDelete(start, timeout, start, a, 0).ok
       <==> exists n: nat :: Attempted(a, timeout, n) && a(n).answer.Deleted?
  {
    hide RetryDelete, ProbeTime;
    FirstProbe(0, RETRY_INTERVAL, AttemptProbe(a));
    RetryTimes(start, timeout, a, 0);
    var last := RetryDelete(start, timeout, start, a, 0).attempts - 1;
    forall n: nat | Attempted(a, timeout, n) && a(n).answer.Deleted? ensures n == last {
      OneDecides(timeout, a, last, n);
    }
  }

  /** No attempt comes after one that decided, or after one that ended past the deadline. */
  lemma OneDecides(timeout: nat, a: nat -> Attempt, last: nat, n: nat)
    requires Attempted(a, timeout, last) && Attempted(a, timeout, n) && a(n).answer.Deleted?
    requires a(last).answer.Retryable? ==> ProbeTime(0, RETRY_INTERVAL, AttemptProbe(a), last) + a(last).cost >= timeout
    ensures n == last
  {
    hide ProbeTime;
    if n > last {
      ProbeTimesIncrease(0, RETRY_INTERVAL, AttemptProbe(a), last + 1, n);
      NextProbe(0, RETRY_INTERVAL, AttemptProbe(a), last);
    }
  }

  /** The retry loop: within the timeout, one sleep and one request it reports whether the task is gone. */
  method RetryDeleteTask(start: nat, timeout: nat, a: nat -> Attempt) returns (r: RetryEnd)
    ensures r == RetryDelete(start, timeout, start, a, 0)
    ensures r.ok <==> exists n: nat :: Attempted(a, timeout, n) && a(n).answer.Deleted?
    ensures forall d: nat | CostsAtMost(AttemptProbe(a), d) :: r.end < start + timeout + RETRY_INTERVAL + d
  {
    hide ProbeTime;
    RetryOkIff(start, timeout, a);
    FirstProbe(0, RETRY_INTERVAL, AttemptProbe(a));
    RetryTimes(start, timeout, a, 0);
    ghost var last := RetryDelete(start, timeout, start, a, 0).attempts - 1;
    assert a(last).cost == AttemptProbe(a)(last).cost;
    var now, k := start, 0;
    while true
      invariant start <= now
      invariant RetryDelete(start, timeout, now, a, k) == RetryDelete(start, timeout, start, a, 0)
      decreases start + timeout + RETRY_INTERVAL - now
    {
      var attempt := a(k);
      now := now + attempt.cost;
      if !attempt.answer.Retryable? { return RetryEnd(attempt.answer.Deleted?, now, k + 1); }
      if now - start >= timeout { return RetryEnd(false, now, k + 1); }
      now, k := now + RETRY_INTERVAL, k + 1;
    }
  }
}
