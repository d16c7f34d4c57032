/**
  The bounded runner `run_for_one_hour`: the same round and alert rule as
  `main`, repeated while the clock is before a deadline one hour after the
  start, with a sleep that never passes the deadline. The clock is an input,
  as in the `Monitor` module: only status checks and sleeps advance it.
 */
module OneHour {
  import opened Config
  import opened AlertRule
  import opened Monitor

  /** `min(POLL_INTERVAL_SECS - elapsed, end_time - now)`: never longer than
      what is left of the interval, never past the deadline, and equal to one
      of the two. */
  function OneHourSleep(elapsed: int, end: int, now: int): (sleep: int)
    ensures sleep <= PollIntervalSecs - elapsed
    ensures now + sleep <= end
    ensures sleep == PollIntervalSecs - elapsed || now + sleep == end
  {
    if PollIntervalSecs - elapsed <= end - now then PollIntervalSecs - elapsed else end - now
  }

  /** One iteration of the runner's loop: the clock reading when it started,
      how long its status checks took, and the sleep it computed (it sleeps
      only when this is positive, and leaves the loop otherwise). */
  datatype Iteration = Iteration(start: int, elapsed: nat, sleep: int)

  /** The iterations the runner goes through from clock time `now` with
      deadline `end`, the next one being iteration number `round` (counted
      from 0); `roundSecs(k)` is how long iteration `k`'s checks take. */
  function Schedule(now: int, end: int, round: nat, roundSecs: nat -> nat): (iterations: seq<Iteration>)
    ensures |iterations| > 0 <==> now < end
    ensures |iterations| > 0 ==> iterations[0].start == now
    decreases if now < end then end - now else 0
  {
    if now >= end then []
    else
      var elapsed := roundSecs(round);
      var sleep := OneHourSleep(elapsed, end, now + elapsed);
      [Iteration(now, elapsed, sleep)] + (if sleep > 0 then Schedule(now + elapsed + sleep, end, round + 1, roundSecs) else [])
  }

  /** Iteration `i` took as long as the environment says iteration
      `round + i` takes. */
  lemma {:induction false} IterationsTakeTheirCheckTime(now: int, end: int, round: nat, roundSecs: nat -> nat)
    ensures forall i :: 0 <= i < |Schedule(now, end, round, roundSecs)| ==>
      Schedule(now, end, round, roundSecs)[i].elapsed == roundSecs(round + i)
    decreases if now < end then end - now else 0
  {
    if now < end {
      var elapsed := roundSecs(round);
      var sleep := OneHourSleep(elapsed, end, now + elapsed);
      if sleep > 0 {
        IterationsTakeTheirCheckTime(now + elapsed + sleep, end, round + 1, roundSecs);
        var rest := Schedule(now + elapsed + sleep, end, round + 1, roundSecs);
        var iterations := [Iteration(now, elapsed, sleep)] + rest;
        forall i | 1 <= i < |iterations|
          ensures iterations[i].elapsed == roundSecs(round + i)
        {
          assert iterations[i] == rest[i - 1];
          assert rest[i - 1].elapsed == roundSecs(round + 1 + (i - 1));
        }
      }
    }
  }

  /** Every iteration starts before the deadline and no earlier than the run;
      its sleep is the runner's `min`, so it never ends past the deadline and
      never makes the iteration longer than the poll interval. */
  lemma {:induction false} IterationsWithinDeadline(now: int, end: int, round: nat, roundSecs: nat -> nat)
    ensures forall it :: it in Schedule(now, end, round, roundSecs) ==>
      && now <= it.start < end
      && it.start + it.elapsed + it.sleep <= end
      && it.elapsed + it.sleep <= PollIntervalSecs
      && (it.elapsed + it.sleep == PollIntervalSecs || it.start + it.elapsed + it.sleep == end)
    decreases if now < end then end - now else 0
  {
    if now < end {
      var elapsed := roundSecs(round);
      var sleep := OneHourSleep(elapsed, end, now + elapsed);
      if sleep > 0 {
        IterationsWithinDeadline(now + elapsed + sleep, end, round + 1, roundSecs);
      }
    }
  }

  /** Every iteration but the last one slept. */
  lemma {:induction false} IterationsBeforeTheLastSlept(now: int, end: int, round: nat, roundSecs: nat -> nat)
    ensures forall i :: 0 <= i < |Schedule(now, end, round, roundSecs)| - 1 ==> Schedule(now, end, round, roundSecs)[i].sleep > 0
    decreases if now < end then end - now else 0
  {
    if now < end {
      var elapsed := roundSecs(round);
      var sleep := OneHourSleep(elapsed, end, now + elapsed);
      if sleep > 0 {
        IterationsBeforeTheLastSlept(now + elapsed + sleep, end, round + 1, roundSecs);
        var rest := Schedule(now + elapsed + sleep, end, round + 1, roundSecs);
        var iterations := Schedule(now, end, round, roundSecs);
        assert iterations == [Iteration(now, elapsed, sleep)] + rest;
        forall i | 1 <= i < |iterations| - 1
          ensures iterations[i].sleep > 0
        {
          assert iterations[i] == rest[i - 1];
        }
      }
    }
  }

  /** Each iteration after the first starts when the previous one's sleep
      ends. */
  lemma {:induction false} IterationsFollowSleeps(now: int, end: int, round: nat, roundSecs: nat -> nat)
    ensures forall i :: 0 <= i < |Schedule(now, end, round, roundSecs)| - 1 ==>
      Schedule(now, end, round, roundSecs)[i + 1].start == Schedule(now, end, round, roundSecs)[i].start + Schedule(now, end, round, roundSecs)[i].elapsed + Schedule(now, end, round, roundSecs)[i].sleep
    decreases if now < end then end - now else 0
  {
    if now < end {
      var elapsed := roundSecs(round);
      var sleep := OneHourSleep(elapsed, end, now + elapsed);
      if sleep > 0 {
        IterationsFollowSleeps(now + elapsed + sleep, end, round + 1, roundSecs);
        var rest := Schedule(now + elapsed + sleep, end, round + 1, roundSecs);
        var iterations := Schedule(now, end, round, roundSecs);
        assert iterations == [Iteration(now, elapsed, sleep)] + rest;
        forall i | 0 <= i < |iterations| - 1
          ensures iterations[i + 1].start == iterations[i].start + iterations[i].elapsed + iterations[i].sleep
        {
          assert iterations[i + 1] == rest[i];
          if i > 0 {
            assert iterations[i] == rest[i - 1];
            assert rest[i].start == rest[i - 1].start + rest[i - 1].elapsed + rest[i - 1].sleep;
          }
        }
      }
    }
  }

  /** The run ends after an iteration that did not sleep or slept until the
      deadline. */
  lemma {:induction false} LastIterationEndsRun(now: int, end: int, round: nat, roundSecs: nat -> nat)
    requires now < end
    ensures var last := Schedule(now, end, round, roundSecs)[|Schedule(now, end, round, roundSecs)| - 1];
      last.sleep <= 0 || last.start + last.elapsed + last.sleep == end
    decreases end - now
  {
    var elapsed := roundSecs(round);
    var sleep := OneHourSleep(elapsed, end, now + elapsed);
    if sleep > 0 && now + elapsed + sleep < end {
      LastIterationEndsRun(now + elapsed + sleep, end, round + 1, roundSecs);
      var rest := Schedule(now + elapsed + sleep, end, round + 1, roundSecs);
      var iterations := Schedule(now, end, round, roundSecs);
      assert iterations == [Iteration(now, elapsed, sleep)] + rest;
      assert iterations[|iterations| - 1] == rest[|rest| - 1];
    }
  }

  /** An iteration followed by another took less than the poll interval, and
      the next one starts exactly one interval after it: a sleep cut short by
      the deadline ends the run. */
  lemma ContinuedIterationsAreOneIntervalApart(now: int, end: int, round: nat, roundSecs: nat -> nat)
    ensures forall i :: 0 <= i < |Schedule(now, end, round, roundSecs)| - 1 ==> Schedule(now, end, round, roundSecs)[i].elapsed < PollIntervalSecs
    ensures forall i :: 0 <= i < |Schedule(now, end, round, roundSecs)| - 1 ==> Schedule(now, end, round, roundSecs)[i + 1].start == Schedule(now, end, round, roundSecs)[i].start + PollIntervalSecs
  {
    IterationsWithinDeadline(now, end, round, roundSecs);
    IterationsBeforeTheLastSlept(now, end, round, roundSecs);
    IterationsFollowSleeps(now, end, round, roundSecs);
    var iterations := Schedule(now, end, round, roundSecs);
    forall i | 0 <= i < |iterations| - 1
      ensures iterations[i].elapsed < PollIntervalSecs
      ensures iterations[i + 1].start == iterations[i].start + PollIntervalSecs
    {
      assert iterations[i] in iterations;
      assert iterations[i + 1].start == iterations[i].start + iterations[i].elapsed + iterations[i].sleep;
    }
  }

  /** An iteration whose checks take the whole poll interval or longer is
      the last one: its sleep is not positive. */
  lemma SlowIterationEndsRun(now: int, end: int, round: nat, roundSecs: nat -> nat)
    requires now < end && roundSecs(round) >= PollIntervalSecs
    ensures Schedule(now, end, round, roundSecs) ==
      [Iteration(now, roundSecs(round), OneHourSleep(roundSecs(round), end, now + roundSecs(round)))]
    ensures OneHourSleep(roundSecs(round), end, now + roundSecs(round)) <= 0
  {
  }

  /** When every iteration's checks take less than the poll interval, the run
      makes one iteration per started interval before the deadline. */
  lemma {:induction false} FastIterationCount(now: int, end: int, round: nat, roundSecs: nat -> nat)
    requires forall k :: round <= k ==> roundSecs(k) < PollIntervalSecs
    ensures |Schedule(now, end, round, roundSecs)| ==
      if now < end then (end - now + PollIntervalSecs - 1) / PollIntervalSecs else 0
    decreases if now < end then end - now else 0
  {
    if now < end {
      var checked := now + roundSecs(round);
      var sleep := OneHourSleep(roundSecs(round), end, checked);
      if sleep > 0 {
        FastIterationCount(checked + sleep, end, round + 1, roundSecs);
      }
    }
  }

  /** The hour holds twelve iterations when every iteration's checks take
      less than the poll interval. */
  lemma TwelveIterationsInAnHour(start: int, roundSecs: nat -> nat)
    requires forall k :: 0 <= k ==> roundSecs(k) < PollIntervalSecs
    ensures |Schedule(start, start + RunSecs, 0, roundSecs)| == 12
  {
    FastIterationCount(start, start + RunSecs, 0, roundSecs);
  }

  lemma ScheduleAdvances(start: int, now: int, end: int, round: nat, roundSecs: nat -> nat)
    requires now < end
    requires round <= |Schedule(start, end, 0, roundSecs)|
    requires Schedule(start, end, 0, roundSecs)[round..] == Schedule(now, end, round, roundSecs)
    ensures var elapsed := roundSecs(round);
      var sleep := OneHourSleep(elapsed, end, now + elapsed);
      && round < |Schedule(start, end, 0, roundSecs)|
      && Schedule(start, end, 0, roundSecs)[round] == Iteration(now, elapsed, sleep)
      && (sleep > 0 ==> Schedule(start, end, 0, roundSecs)[round + 1..] == Schedule(now + elapsed + sleep, end, round + 1, roundSecs))
      && (sleep <= 0 ==> |Schedule(start, end, 0, roundSecs)| == round + 1)
  {
    var all := Schedule(start, end, 0, roundSecs);
    var elapsed := roundSecs(round);
    var sleep := OneHourSleep(elapsed, end, now + elapsed);
    var rest := if sleep > 0 then Schedule(now + elapsed + sleep, end, round + 1, roundSecs) else [];
    assert all[round..] == [Iteration(now, elapsed, sleep)] + rest;
    assert all[round + 1..] == all[round..][1..];
  }

  /** The runner is on schedule: `iterations` are the first `count` of the
      run's iterations, and the rest of the run starts from clock time `now`. */
  ghost predicate OnSchedule(iterations: seq<Iteration>, now: int, count: nat, startTime: int, roundSecs: nat -> nat)
  {
    && count <= |Schedule(startTime, startTime + RunSecs, 0, roundSecs)|
    && iterations == Schedule(startTime, startTime + RunSecs, 0, roundSecs)[..count]
    && Schedule(startTime, startTime + RunSecs, 0, roundSecs)[count..] == Schedule(now, startTime + RunSecs, count, roundSecs)
  }

  /** An iteration started on schedule at `start`, whose checks end at
      `checked` and which computes `sleep`, keeps the runner on schedule if it
      sleeps, and is the last one of the run otherwise. */
  lemma StaysOnSchedule(iterations: seq<Iteration>, start: int, checked: int, sleep: int, count: nat, startTime: int, roundSecs: nat -> nat)
    requires start < startTime + RunSecs
    requires OnSchedule(iterations, start, count, startTime, roundSecs)
    requires checked == start + roundSecs(count)
    requires sleep == OneHourSleep(checked - start, startTime + RunSecs, checked)
    ensures sleep > 0 ==> OnSchedule(iterations + [Iteration(start, checked - start, sleep)], checked + sleep, count + 1, startTime, roundSecs)
    ensures sleep <= 0 ==> iterations + [Iteration(start, checked - start, sleep)] == Schedule(startTime, startTime + RunSecs, 0, roundSecs)
  {
    var elapsed := roundSecs(count);
    assert checked - start == elapsed && start + elapsed == checked;
    ScheduleAdvances(startTime, start, startTime + RunSecs, count, roundSecs);
    var all := Schedule(startTime, startTime + RunSecs, 0, roundSecs);
    assert all[count] == Iteration(start, checked - start, sleep);
    assert all[..count + 1] == all[..count] + [all[count]];
  }

  /** A runner on schedule whose clock has reached the deadline has gone
      through every iteration of the run. */
  lemma ScheduleDoneAtDeadline(iterations: seq<Iteration>, now: int, count: nat, startTime: int, roundSecs: nat -> nat)
    requires now >= startTime + RunSecs
    requires OnSchedule(iterations, now, count, startTime, roundSecs)
    ensures iterations == Schedule(startTime, startTime + RunSecs, 0, roundSecs)
  {
    var all := Schedule(startTime, startTime + RunSecs, 0, roundSecs);
    assert all[count..] == [];
    assert all[..count] == all;
  }

  /** `run_for_one_hour` from clock time `startTime`: the iteration count, the
      alerts of each iteration, and the iterations themselves. */
  method RunForOneHour<Shape>(env: Environment<Shape>, ids: seq<int>, startTime: int)
    returns (count: nat, alerts: seq<seq<int>>, iterations: seq<Iteration>)
    ensures iterations == Schedule(startTime, startTime + RunSecs, 0, env.roundSecs)
    ensures count == |iterations| && |alerts| == count
    ensures forall k :: 0 <= k < count ==> alerts[k] == AlertsAt(ids, Readings(env), k)
  {
    var endTime := startTime + RunSecs;
    var prevStatus := InitialTable(ids);
    count, alerts, iterations := 0, [], [];
    var now := startTime;
    while now < endTime
      invariant OnSchedule(iterations, now, count, startTime, env.roundSecs)
      invariant count == |iterations|
      invariant prevStatus == TableAfter(ids, Readings(env), count)
      invariant alerts == AlertLog(ids, Readings(env), count)
      decreases endTime - now
    {
      var iterationStart := now;
      var round := count;
      count := count + 1;
      prevStatus, alerts := PlayAndLog(env, ids, prevStatus, alerts, round);
      now := now + env.roundSecs(round);
      var elapsed := now - iterationStart;
      var sleepTime := OneHourSleep(elapsed, endTime, now);
      StaysOnSchedule(iterations, iterationStart, now, sleepTime, round, startTime, env.roundSecs);
      iterations := iterations + [Iteration(iterationStart, elapsed, sleepTime)];
      if sleepTime > 0 {
        now := now + sleepTime;
      } else {
        break;
      }
    }
    if now >= endTime {
      ScheduleDoneAtDeadline(iterations, now, count, startTime, env.roundSecs);
    }
    AlertLogEntries(ids, Readings(env), count);
  }
}
