/**
  The monitoring loop of `main`: the table of last statuses, the round that
  visits every clinician, and the sleep that keeps rounds at least one poll
  interval apart. The network, the clock and the alert e-mails are inputs and outputs:
  an `Environment` says what each status request returns and how long each
  round's checks take, and an alert is the id of the clinician concerned.
 */
module Monitor {
  import opened Payload
  import opened Geometry
  import opened Status
  import opened Config
  import opened AlertRule

  /** What the outside world does during a run: `responses(k, cid)` is what the
      status request for `cid` returns in round `k`, and `roundSecs(k)` is how
      many seconds round `k`'s status checks take. */
  datatype Environment<!Shape> = Environment(
    lib: Shapely<Shape>,
    responses: (nat, int) -> Response,
    roundSecs: nat -> nat)

  /** The reading of clinician `cid` in round `k`. */
  function Readings<Shape>(env: Environment<Shape>): (nat, int) -> bool
  {
    (k: nat, cid: int) => ClinicianInZone(env.lib, env.responses(k, cid))
  }

  /** One round: checks every clinician in the order of `ids` (`ClinicianIds`),
      alerting on each in-zone to out-of-zone edge and storing the new status
      in the `prev_status` table. Every clinician needs an entry (a missing
      one raises a KeyError). */
  method Tick<Shape>(env: Environment<Shape>, ids: seq<int>, prevStatus: map<int, bool>, round: nat) returns (status: map<int, bool>, alerts: seq<int>)
    requires Covered(prevStatus, ids)
    ensures PollResult(status, alerts) == Poll(prevStatus, ids, round, Readings(env))
  {
    status, alerts := prevStatus, [];
    var i := 0;
    while i < |ids|
      invariant 0 <= i <= |ids|
      invariant Covered(status, ids[i..])
      invariant Poll(prevStatus, ids, round, Readings(env)) ==
        PollResult(Poll(status, ids[i..], round, Readings(env)).table, alerts + Poll(status, ids[i..], round, Readings(env)).alerts)
    {
      var cid := ids[i];
      var currStatus := CheckClinicianStatus(env.lib, env.responses(round, cid));
      assert ids[i..][1..] == ids[i + 1..];
      ghost var rest := Poll(status[cid := currStatus], ids[i + 1..], round, Readings(env));
      if status[cid] && !currStatus {
        assert alerts + ([cid] + rest.alerts) == (alerts + [cid]) + rest.alerts;
        alerts := alerts + [cid];
      }
      status := status[cid := currStatus];
      i := i + 1;
    }
    assert alerts + [] == alerts;
  }

  /** Round `round` of a run: from the table the earlier rounds left, it
      raises that round's alerts and leaves the table for the next round. */
  method PlayRound<Shape>(env: Environment<Shape>, ids: seq<int>, prevStatus: map<int, bool>, round: nat) returns (status: map<int, bool>, alerts: seq<int>)
    requires prevStatus == TableAfter(ids, Readings(env), round)
    ensures status == TableAfter(ids, Readings(env), round + 1)
    ensures alerts == AlertsAt(ids, Readings(env), round)
  {
    status, alerts := Tick(env, ids, prevStatus, round);
    NextRound(ids, Readings(env), round, PollResult(status, alerts));
  }

  /** The monitored clinicians are ids 1 to 7, each listed once. */
  lemma ClinicianIdsAreOneToSeven()
    ensures Distinct(ClinicianIds)
    ensures forall cid :: cid in ClinicianIds <==> 1 <= cid <= 7
  {
    forall cid | 1 <= cid <= 7
      ensures cid in ClinicianIds
    {
      assert ClinicianIds[cid - 1] == cid;
    }
  }

  /** Clinician `cid` is alerted in round `round` exactly when it is one of
      the monitored ids, its status check in that round says out of zone, and
      the check before it (if any) said in zone. */
  lemma AlertWhenLeavingZone<Shape>(env: Environment<Shape>, round: nat, cid: int)
    ensures cid in AlertsAt(ClinicianIds, Readings(env), round) <==>
      && 1 <= cid <= 7
      && (round == 0 || ClinicianInZone(env.lib, env.responses(round - 1, cid)))
      && !ClinicianInZone(env.lib, env.responses(round, cid))
  {
    ClinicianIdsAreOneToSeven();
    if cid in ClinicianIds {
      AlertOnEdge(ClinicianIds, Readings(env), round, cid);
    } else {
      AlertIffLeftZone(TableAfter(ClinicianIds, Readings(env), round), ClinicianIds, round, Readings(env), cid);
    }
  }

  /** `max(0, POLL_INTERVAL_SECS - elapsed)`: never negative, never longer than
      the interval, and it brings the round to exactly one interval unless the
      round's checks overran it. */
  function MonitorSleep(elapsed: int): (sleep: int)
    ensures sleep >= 0
    ensures elapsed >= 0 ==> sleep <= PollIntervalSecs
    ensures elapsed + sleep == RoundSpacing(elapsed)
  {
    if PollIntervalSecs - elapsed > 0 then PollIntervalSecs - elapsed else 0
  }

  /** The time from one round's start to the next one's. */
  function RoundSpacing(elapsed: int): int
  {
    if elapsed <= PollIntervalSecs then PollIntervalSecs else elapsed
  }

  /** When round `k` of `main`'s loop starts, the first one starting at `start`. */
  function RoundStart(start: int, roundSecs: nat -> nat, k: nat): int
  {
    if k == 0 then start else RoundStart(start, roundSecs, k - 1) + RoundSpacing(roundSecs(k - 1))
  }

  /** The start times of the first `rounds` rounds, written out like
      `AlertLog` rather than through `RoundLog`, for the same reason. */
  function StartLog(start: int, roundSecs: nat -> nat, rounds: nat): (log: seq<int>)
    ensures |log| == rounds
    ensures forall k :: 0 <= k < rounds ==> log[k] == RoundStart(start, roundSecs, k)
  {
    if rounds == 0 then [] else StartLog(start, roundSecs, rounds - 1) + [RoundStart(start, roundSecs, rounds - 1)]
  }

  /** Rounds start at least one interval apart, and exactly one interval apart
      as long as no round's checks overran the interval. */
  lemma {:induction false} RoundStartBounds(start: int, roundSecs: nat -> nat, k: nat)
    ensures RoundStart(start, roundSecs, k) >= start + k * PollIntervalSecs
    ensures (forall j :: 0 <= j < k ==> roundSecs(j) <= PollIntervalSecs) ==>
      RoundStart(start, roundSecs, k) == start + k * PollIntervalSecs
  {
    if k > 0 {
      RoundStartBounds(start, roundSecs, k - 1);
    }
  }

  /** Round `round`, with its alerts appended to the alerts of the rounds
      before it. */
  method PlayAndLog<Shape>(env: Environment<Shape>, ids: seq<int>, prevStatus: map<int, bool>, log: seq<seq<int>>, round: nat) returns (status: map<int, bool>, log': seq<seq<int>>)
    requires prevStatus == TableAfter(ids, Readings(env), round)
    requires log == AlertLog(ids, Readings(env), round)
    ensures status == TableAfter(ids, Readings(env), round + 1)
    ensures log' == AlertLog(ids, Readings(env), round + 1)
  {
    var roundAlerts;
    status, roundAlerts := PlayRound(env, ids, prevStatus, round);
    log' := log + [roundAlerts];
  }

  /** One pass of `main`'s loop body: round `round`, then the sleep until
      the next round starts. */
  method MainIteration<Shape>(env: Environment<Shape>, ids: seq<int>, start: int, round: nat,
                              prevStatus: map<int, bool>, alerts: seq<seq<int>>, starts: seq<int>, now: int)
    returns (status: map<int, bool>, alerts': seq<seq<int>>, starts': seq<int>, next: int)
    requires prevStatus == TableAfter(ids, Readings(env), round)
    requires alerts == AlertLog(ids, Readings(env), round)
    requires starts == StartLog(start, env.roundSecs, round)
    requires now == RoundStart(start, env.roundSecs, round)
    ensures status == TableAfter(ids, Readings(env), round + 1)
    ensures alerts' == AlertLog(ids, Readings(env), round + 1)
    ensures starts' == StartLog(start, env.roundSecs, round + 1)
    ensures next == RoundStart(start, env.roundSecs, round + 1)
  {
    status, alerts' := PlayAndLog(env, ids, prevStatus, alerts, round);
    next := now + env.roundSecs(round);
    var elapsed := next - now;
    var sleepTime := MonitorSleep(elapsed);
    next := next + sleepTime;
    starts' := starts + [now];
  }

  /** The first `rounds` rounds of `main`'s endless loop, from clock time
      `start`: the alerts of each round and the time each round started. */
  method RunMonitor<Shape>(env: Environment<Shape>, ids: seq<int>, start: int, rounds: nat) returns (alerts: seq<seq<int>>, starts: seq<int>)
    ensures |alerts| == rounds && |starts| == rounds
    ensures forall k :: 0 <= k < rounds ==> alerts[k] == AlertsAt(ids, Readings(env), k)
    ensures forall k :: 0 <= k < rounds ==> starts[k] == RoundStart(start, env.roundSecs, k)
  {
    var prevStatus := InitialTable(ids);
    alerts, starts := [], [];
    var now := start;
    var round := 0;
    while round < rounds
      invariant 0 <= round <= rounds
      invariant prevStatus == TableAfter(ids, Readings(env), round)
      invariant alerts == AlertLog(ids, Readings(env), round)
      invariant starts == StartLog(start, env.roundSecs, round)
      invariant now == RoundStart(start, env.roundSecs, round)
    {
      prevStatus, alerts, starts, now := MainIteration(env, ids, start, round, prevStatus, alerts, starts, now);
      round := round + 1;
    }
    AlertLogEntries(ids, Readings(env), rounds);
  }
}
