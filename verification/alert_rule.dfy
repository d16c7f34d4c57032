/**
  The alert rule shared by both monitoring loops: a table from clinician id to
  "in zone at the last reading", every entry starting true; in each round every
  clinician is visited in order, an alert fires on an in-zone to out-of-zone
  edge, and the entry is then overwritten with the current reading.
  `inZone(k, cid)` is the reading of clinician `cid` in round `k`.
 */
module AlertRule {

  predicate Distinct(ids: seq<int>)
  {
    forall i, j :: 0 <= i < j < |ids| ==> ids[i] != ids[j]
  }

  /** Every clinician of `ids` has an entry in `table`. */
  predicate Covered(table: map<int, bool>, ids: seq<int>)
  {
    forall i :: 0 <= i < |ids| ==> ids[i] in table
  }

  /** `{cid: True for cid in ids}`. */
  function InitialTable(ids: seq<int>): (table: map<int, bool>)
    ensures forall cid :: cid in table <==> cid in ids
    ensures forall cid :: cid in table ==> table[cid]
  {
    map cid | cid in ids :: true
  }

  datatype PollResult = PollResult(table: map<int, bool>, alerts: seq<int>)

  /** One round: visits `ids` in order, alerting for `cid` when its entry is
      true and its reading false, then storing the reading before the next
      clinician is visited. Every id must have an entry (a missing one raises
      a KeyError). */
  function Poll(prev: map<int, bool>, ids: seq<int>, round: nat, inZone: (nat, int) -> bool): (r: PollResult)
    requires Covered(prev, ids)
    decreases |ids|
  {
    if ids == [] then PollResult(prev, [])
    else
      var cid := ids[0];
      var curr := inZone(round, cid);
      var rest := Poll(prev[cid := curr], ids[1..], round, inZone);
      PollResult(rest.table, if prev[cid] && !curr then [cid] + rest.alerts else rest.alerts)
  }

  /** A round neither removes an entry from the table nor adds one. */
  lemma {:induction false} PollKeepsEntries(prev: map<int, bool>, ids: seq<int>, round: nat, inZone: (nat, int) -> bool)
    requires Covered(prev, ids)
    ensures Poll(prev, ids, round, inZone).table.Keys == prev.Keys
    ensures Covered(Poll(prev, ids, round, inZone).table, ids)
    decreases |ids|
  {
    if ids != [] {
      PollKeepsEntries(prev[ids[0] := inZone(round, ids[0])], ids[1..], round, inZone);
    }
  }

  /** After a round, a visited clinician's entry holds its reading, and every
      other entry is unchanged. */
  lemma {:induction false} PollTable(prev: map<int, bool>, ids: seq<int>, round: nat, inZone: (nat, int) -> bool, cid: int)
    requires Covered(prev, ids) && cid in prev
    ensures cid in Poll(prev, ids, round, inZone).table
    ensures Poll(prev, ids, round, inZone).table[cid] == if cid in ids then inZone(round, cid) else prev[cid]
    decreases |ids|
  {
    if ids != [] {
      assert ids == [ids[0]] + ids[1..];
      PollTable(prev[ids[0] := inZone(round, ids[0])], ids[1..], round, inZone, cid);
    }
  }

  /** The clinicians of `ids`, in order, that were in zone before the round and
      are out of zone in it. */
  function Departures(prev: map<int, bool>, ids: seq<int>, round: nat, inZone: (nat, int) -> bool): seq<int>
    requires Covered(prev, ids)
  {
    if ids == [] then []
    else
      (if prev[ids[0]] && !inZone(round, ids[0]) then [ids[0]] else []) + Departures(prev, ids[1..], round, inZone)
  }

  /** Departures do not depend on the entries of clinicians not visited. */
  lemma {:induction false} DeparturesIgnoreOthers(prev: map<int, bool>, ids: seq<int>, round: nat, inZone: (nat, int) -> bool, other: int, v: bool)
    requires Covered(prev, ids) && other !in ids
    ensures Covered(prev[other := v], ids)
    ensures Departures(prev[other := v], ids, round, inZone) == Departures(prev, ids, round, inZone)
  {
    if ids != [] {
      assert ids[0] in ids;
      DeparturesIgnoreOthers(prev, ids[1..], round, inZone, other, v);
    }
  }

  /** The clinicians of `ids`, in order, that are out of zone in the round. */
  function OutOfZone(ids: seq<int>, round: nat, inZone: (nat, int) -> bool): seq<int>
  {
    if ids == [] then []
    else (if !inZone(round, ids[0]) then [ids[0]] else []) + OutOfZone(ids[1..], round, inZone)
  }

  /** With every clinician listed once, a round alerts for exactly the
      departures, in visiting order. */
  lemma {:induction false} PollAlertsAreDepartures(prev: map<int, bool>, ids: seq<int>, round: nat, inZone: (nat, int) -> bool)
    requires Covered(prev, ids)
    requires Distinct(ids)
    ensures Poll(prev, ids, round, inZone).alerts == Departures(prev, ids, round, inZone)
    decreases |ids|
  {
    if ids != [] {
      var cid := ids[0];
      var curr := inZone(round, cid);
      assert cid !in ids[1..];
      PollAlertsAreDepartures(prev[cid := curr], ids[1..], round, inZone);
      DeparturesIgnoreOthers(prev, ids[1..], round, inZone, cid, curr);
    }
  }

  lemma {:induction false} DeparturesMembership(prev: map<int, bool>, ids: seq<int>, round: nat, inZone: (nat, int) -> bool, cid: int)
    requires Covered(prev, ids)
    ensures cid in Departures(prev, ids, round, inZone) <==> cid in ids && prev[cid] && !inZone(round, cid)
  {
    if ids != [] {
      DeparturesMembership(prev, ids[1..], round, inZone, cid);
      assert ids == [ids[0]] + ids[1..];
    }
  }

  /** Within a round, clinician `cid` is alerted if and only if it is one of
      the clinicians visited, its entry was true and its reading is false. */
  lemma AlertIffLeftZone(prev: map<int, bool>, ids: seq<int>, round: nat, inZone: (nat, int) -> bool, cid: int)
    requires Covered(prev, ids)
    requires Distinct(ids)
    ensures cid in Poll(prev, ids, round, inZone).alerts <==> cid in ids && prev[cid] && !inZone(round, cid)
  {
    PollAlertsAreDepartures(prev, ids, round, inZone);
    DeparturesMembership(prev, ids, round, inZone, cid);
  }

  /** From a table with every entry true, the alerts are exactly the clinicians
      out of zone, in visiting order. */
  lemma {:induction false} AllInZoneDepartures(prev: map<int, bool>, ids: seq<int>, round: nat, inZone: (nat, int) -> bool)
    requires forall i :: 0 <= i < |ids| ==> ids[i] in prev && prev[ids[i]]
    ensures Departures(prev, ids, round, inZone) == OutOfZone(ids, round, inZone)
  {
    if ids != [] {
      assert ids[0] in ids;
      AllInZoneDepartures(prev, ids[1..], round, inZone);
    }
  }

  /** The table after `rounds` rounds: the initial table, run through one
      round after another. Every clinician keeps its entry. */
  function TableAfter(ids: seq<int>, inZone: (nat, int) -> bool, rounds: nat): (table: map<int, bool>)
    ensures Covered(table, ids)
    decreases rounds
  {
    if rounds == 0 then InitialTable(ids)
    else
      var prev := TableAfter(ids, inZone, rounds - 1);
      PollKeepsEntries(prev, ids, rounds - 1, inZone);
      Poll(prev, ids, rounds - 1, inZone).table
  }

  /** After `rounds` rounds every entry holds the latest reading, and before
      the first round it is still true. */
  lemma TableAfterEntry(ids: seq<int>, inZone: (nat, int) -> bool, rounds: nat, cid: int)
    requires cid in ids
    ensures cid in TableAfter(ids, inZone, rounds)
    ensures TableAfter(ids, inZone, rounds)[cid] == (rounds == 0 || inZone(rounds - 1, cid))
  {
    var i :| 0 <= i < |ids| && ids[i] == cid;
    if rounds > 0 {
      PollTable(TableAfter(ids, inZone, rounds - 1), ids, rounds - 1, inZone, cid);
    }
  }

  /** The alerts of round `round`. */
  function AlertsAt(ids: seq<int>, inZone: (nat, int) -> bool, round: nat): seq<int>
  {
    Poll(TableAfter(ids, inZone, round), ids, round, inZone).alerts
  }

  /** The alerts of the first `rounds` rounds, round by round. This is
      `RoundLog` of `AlertsAt`, written out so that the loops' invariants
      do not go through a function value, which is costly for the solver
      (`AlertLogIsRoundLog` connects the two). */
  function AlertLog(ids: seq<int>, inZone: (nat, int) -> bool, rounds: nat): (log: seq<seq<int>>)
    ensures |log| == rounds
  {
    if rounds == 0 then [] else AlertLog(ids, inZone, rounds - 1) + [AlertsAt(ids, inZone, rounds - 1)]
  }

  /** The values of rounds `0` to `rounds - 1`, round by round. */
  function RoundLog<T>(f: nat -> T, rounds: nat): (log: seq<T>)
    ensures |log| == rounds
  {
    if rounds == 0 then [] else RoundLog(f, rounds - 1) + [f(rounds - 1)]
  }

  lemma {:induction false} RoundLogEntries<T>(f: nat -> T, rounds: nat)
    ensures forall k :: 0 <= k < rounds ==> RoundLog(f, rounds)[k] == f(k)
  {
    if rounds > 0 {
      RoundLogEntries(f, rounds - 1);
    }
  }

  lemma {:induction false} AlertLogIsRoundLog(ids: seq<int>, inZone: (nat, int) -> bool, f: nat -> seq<int>, rounds: nat)
    requires forall k :: f(k) == AlertsAt(ids, inZone, k)
    ensures AlertLog(ids, inZone, rounds) == RoundLog(f, rounds)
  {
    if rounds > 0 {
      AlertLogIsRoundLog(ids, inZone, f, rounds - 1);
    }
  }

  /** Entry `k` of the log holds round `k`'s alerts. */
  lemma AlertLogEntries(ids: seq<int>, inZone: (nat, int) -> bool, rounds: nat)
    ensures forall k :: 0 <= k < rounds ==> AlertLog(ids, inZone, rounds)[k] == AlertsAt(ids, inZone, k)
  {
    var f := (k: nat) => AlertsAt(ids, inZone, k);
    AlertLogIsRoundLog(ids, inZone, f, rounds);
    RoundLogEntries(f, rounds);
  }

  /** Running round `round` on the table it starts from gives that round's
      alerts and the table the next round starts from. */
  lemma NextRound(ids: seq<int>, inZone: (nat, int) -> bool, round: nat, result: PollResult)
    requires Covered(TableAfter(ids, inZone, round), ids)
    requires result == Poll(TableAfter(ids, inZone, round), ids, round, inZone)
    ensures result.alerts == AlertsAt(ids, inZone, round)
    ensures result.table == TableAfter(ids, inZone, round + 1)
  {
  }

  /** Every clinician starts in zone, so the first round alerts for exactly the
      clinicians whose first reading is out of zone, in visiting order. */
  lemma FirstRoundAlertsOutOfZone(ids: seq<int>, inZone: (nat, int) -> bool)
    requires Distinct(ids)
    ensures AlertsAt(ids, inZone, 0) == OutOfZone(ids, 0, inZone)
  {
    PollAlertsAreDepartures(InitialTable(ids), ids, 0, inZone);
    AllInZoneDepartures(InitialTable(ids), ids, 0, inZone);
  }

  /** A clinician is alerted in a round exactly when it goes from in zone
      (the previous reading, or the initial entry) to out of zone. */
  lemma AlertOnEdge(ids: seq<int>, inZone: (nat, int) -> bool, round: nat, cid: int)
    requires Distinct(ids) && cid in ids
    ensures cid in AlertsAt(ids, inZone, round) <==> (round == 0 || inZone(round - 1, cid)) && !inZone(round, cid)
  {
    TableAfterEntry(ids, inZone, round, cid);
    AlertIffLeftZone(TableAfter(ids, inZone, round), ids, round, inZone, cid);
  }

  /** An alerted clinician is out of zone now and was in zone at the reading before. */
  lemma LeftZoneWhenAlerted(ids: seq<int>, inZone: (nat, int) -> bool, round: nat, cid: int)
    requires Distinct(ids) && cid in ids
    requires cid in AlertsAt(ids, inZone, round)
    ensures !inZone(round, cid)
    ensures round > 0 ==> inZone(round - 1, cid)
  {
    AlertOnEdge(ids, inZone, round, cid);
  }

  /** Between two alerts for the same clinician there is an in-zone reading:
      the one just before the second alert, which comes after the first. */
  lemma NoSecondAlertWithoutReturn(ids: seq<int>, inZone: (nat, int) -> bool, cid: int, first: nat, second: nat)
    requires Distinct(ids) && cid in ids && first < second
    requires cid in AlertsAt(ids, inZone, first) && cid in AlertsAt(ids, inZone, second)
    ensures first < second - 1 && inZone(second - 1, cid)
  {
    LeftZoneWhenAlerted(ids, inZone, first, cid);
    LeftZoneWhenAlerted(ids, inZone, second, cid);
  }
}
