# Clinician safety-zone monitor, modelled in Dafny

The monitor polls a fixed set of clinicians (ids 1 to 7). For each one it fetches a status
payload holding a Point (the clinician's location, as `[lon, lat]`) and a Polygon (the
safety zone: ring 0 is the exterior and every later ring is a hole). It then decides with
the geometry library whether the location lies inside the zone or on its boundary.

Both loops use the same alert rule. A table holds, for each clinician, "in zone at the
last reading", and every entry starts true. An e-mail alert goes out when an entry is true
and the new reading is false. The entry is then overwritten with the new reading.
- `main` (in `monitor.py`) repeats rounds forever. Rounds start at least one poll interval
  (300 s) apart, and exactly that far apart when a round's checks take at most 300 s.
- `run_for_one_hour` (in `run_monitor_1hour.py`) repeats rounds while the clock is before a
  deadline one hour after its start. Its sleep is cut at the deadline, and it leaves the
  loop as soon as the computed sleep is not positive.

Modules, one per file:

- `Options`, `PyJson`: an `Option` type, and decoded JSON with Python's access operations
  (`d[k]`, `d.get`, `len`, `x[i]`, iteration, `x[1:]`). Each operation returns `None`
  where Python raises. A dict keeps each key once (`PyJson.Keys`): a lookup gets the last
  value given for a key, and iteration and `len` see the key once, where it first appeared.
- `Config`: the clinician ids, the poll interval, and the one-hour run length.
- `Payload`: `fetch_clinician_data` as a function of the response.
- `Geometry`: `is_point_in_polygon`. The library (`Point`, `Polygon`, `contains`,
  `touches`) is a record of partial functions. `RingVertices` is the per-ring comprehension
  (monitor.py:75 and :80).
- `Status`: `check_clinician_status`.
- `AlertRule`: the status table and the per-round alert rule. `Poll` is one round
  (monitor.py:150-156, repeated at run_monitor_1hour.py:36-42); `TableAfter` and `AlertsAt`
  are the table and the alerts round by round.
- `Monitor`: `main`'s loop. An `Environment` gives what each status request returns and how
  long each round's checks take. `RoundStart` is the clock reading at the start of each
  round of `main`.
- `OneHour`: `run_for_one_hour`. Its iterations are specified by `Schedule`.

## Model

| member | source | states |
|---|---|---|
| `Monitor.ClinicianIdsAreOneToSeven` | config.py:7 | the id list has no repeats and contains exactly the ids 1 to 7 |
| `Payload.FetchClinicianData` | monitor.py:32-64 | a payload is accepted iff the request succeeded and the body is a dict whose `features` has at least two entries, the first a `Point` with a two-component coordinate, the second a `Polygon` with coordinates; the location is then `(coords[1], coords[0])` and the zone is the polygon's coordinates unchanged; every raising lookup gives `None` |
| `Payload.RejectedPayloads` | monitor.py:40-54 | a failed request, fewer than two features, a first feature that is not a Point, or a second that is not a Polygon each give `None` |
| `PyJson.Keys` | monitor.py:75 | iterating a decoded dict yields each key once: the keys are exactly those a lookup finds, with no repeats |
| `PyJson.KeysKeepFirstOrder` | monitor.py:75 | the keys of any prefix of a dict's entries are a prefix of its keys, so together with `PyJson.Keys` iteration follows first-occurrence order |
| `PyJson.RepeatedKeyIteratedOnce` | monitor.py:75 | for example, a ring written as the dict `{"12": null, "34": null, "12": true}` is iterated as `"12"`, `"34"` and has length 2 |
| `Geometry.VerticesOf` | monitor.py:75 | the comprehension `[(c[0], c[1]) for c in ring]` succeeds iff every element has two components, and keeps length and order |
| `Geometry.HoleVertices` | monitor.py:77-81 | the hole rings convert iff each one does, one hole per ring in order |
| `Geometry.ZoneRings` | monitor.py:73-83 | the split exists iff the zone is a non-empty list of well-formed rings; ring 0 is the exterior, and the holes argument is present iff there is more than one ring, holding rings 1.. in order |
| `Geometry.Covers` | monitor.py:85 | in zone iff `contains` returns true, or `contains` returns false and `touches` returns true; a raising `contains`, or a raising `touches` after `contains` said false, gives false |
| `Geometry.PointInPolygon` | monitor.py:66-88 | in zone only if the point is built from `(lon, lat)`, the rings split, and the polygon is built; then it is exactly `Covers` of that polygon and point; every failure gives false |
| `Geometry.EmptyZoneIsOutOfZone` | monitor.py:73 | an empty ring list is out of zone (the `IndexError` is caught) |
| `Geometry.BoundaryIsInZone` | monitor.py:85 | a point the library reports as touching the polygon is in zone |
| `Geometry.OnlyListsHaveRings` | monitor.py:73-75 | a zone whose ring 0 reads as a ring is a list: a string zone always fails |
| `Geometry.IsPointInPolygon` | monitor.py:66-88 | the wrapper's holes loop computes `PointInPolygon` |
| `Status.ClinicianInZone` | monitor.py:127-141 | a rejected payload is out of zone, and in zone implies the payload was well shaped |
| `Status.AcceptedPayloadIsTested` | monitor.py:138-141 | on an accepted payload the answer is `PointInPolygon` of the payload's own `coords[1]`, `coords[0]` and ring list |
| `Status.CheckClinicianStatus` | monitor.py:127-141 | the method computes `ClinicianInZone` and runs the holes loop only on an accepted payload |
| `AlertRule.InitialTable` | monitor.py:145 | the initial table has exactly the monitored ids as keys, each mapped to true |
| `AlertRule.PollKeepsEntries` | monitor.py:150-156 | a round neither removes an entry from the table nor adds one |
| `AlertRule.PollTable` | monitor.py:150-156 | after a round a visited clinician's entry holds its reading, and every other entry is unchanged |
| `AlertRule.PollAlertsAreDepartures` | monitor.py:150-156 | with distinct ids, a round's alerts are exactly the clinicians in zone before and out of zone now, in visiting order |
| `AlertRule.AlertIffLeftZone` | monitor.py:153-155 | within a round, `cid` is alerted iff it is visited, its entry was true, and its reading is false |
| `AlertRule.AllInZoneDepartures` | monitor.py:145 | from an all-true table, the departures are exactly the out-of-zone clinicians in order |
| `AlertRule.TableAfter` | monitor.py:145-156 | the table after any number of rounds still has an entry for every clinician |
| `AlertRule.TableAfterEntry` | monitor.py:145-156 | after `n` rounds an entry is true for `n == 0`, and otherwise holds the reading of round `n - 1` |
| `AlertRule.AlertLogEntries` | monitor.py:147-156 | entry `k` of the alert log is round `k`'s alerts |
| `AlertRule.NextRound` | monitor.py:150-156 | playing round `k` from the table after `k` rounds gives round `k`'s alerts and the table after `k + 1` rounds |
| `AlertRule.FirstRoundAlertsOutOfZone` | monitor.py:145-155 | the first round alerts for exactly the clinicians whose first reading is out of zone, in order |
| `AlertRule.AlertOnEdge` | monitor.py:150-156 | `cid` is alerted in round `k` iff its reading in round `k - 1` (or the initial true when `k == 0`) is in zone and its reading in round `k` is out of zone |
| `AlertRule.LeftZoneWhenAlerted` | monitor.py:153-155 | an alerted clinician is out of zone now and was in zone at the previous reading |
| `AlertRule.NoSecondAlertWithoutReturn` | monitor.py:150-156 | two alerts for one clinician are at least two rounds apart, with an in-zone reading just before the second one |
| `Monitor.Tick` | monitor.py:150-156 | the `for` loop over the ids computes `Poll`: the same table and the same alerts in the same order |
| `Monitor.PlayRound` | monitor.py:150-156 | round `k` played from the table after `k` rounds yields the table after `k + 1` rounds and `AlertsAt(k)` |
| `Monitor.AlertWhenLeavingZone` | monitor.py:145-156 | with ids 1 to 7, `cid` is alerted in round `k` iff `1 <= cid <= 7`, its round `k` status check is out of zone, and either `k == 0` or its round `k - 1` check was in zone |
| `Monitor.MonitorSleep` | monitor.py:159-161 | `max(0, 300 - elapsed)` is never negative and never more than the interval; checks plus sleep last exactly 300 s unless the checks overran |
| `Monitor.RoundStartBounds` | monitor.py:147-161 | round `k` starts at least `300 k` s after the start, and exactly then when no round's checks overran the interval |
| `Monitor.PlayAndLog` | monitor.py:150-156 | the round's alerts are appended to the log of earlier rounds |
| `Monitor.MainIteration` | monitor.py:147-161 | one pass of the loop body: the table, the alert log, the start log and the clock go from their closed forms at round `k` to those at round `k + 1` |
| `Monitor.RunMonitor` | monitor.py:143-161 | the first `n` rounds of `main`: round `k`'s alerts are `AlertsAt(k)` and it starts at `RoundStart(k)` |
| `OneHour.OneHourSleep` | run_monitor_1hour.py:46 | the `min` never exceeds what is left of the interval, never passes the deadline, and equals one of the two |
| `OneHour.Schedule` | run_monitor_1hour.py:33-53 | the run has iterations iff it starts before the deadline, and the first one starts then |
| `OneHour.IterationsTakeTheirCheckTime` | run_monitor_1hour.py:34-45 | iteration `i` takes the check time of round `i` |
| `OneHour.IterationsWithinDeadline` | run_monitor_1hour.py:33-53 | every iteration starts before the deadline, and its sleep never ends past the deadline or past one interval after its start |
| `OneHour.IterationsBeforeTheLastSlept` | run_monitor_1hour.py:48-53 | every iteration but the last had a positive sleep |
| `OneHour.IterationsFollowSleeps` | run_monitor_1hour.py:33-51 | each iteration starts when the previous one's sleep ends |
| `OneHour.LastIterationEndsRun` | run_monitor_1hour.py:33-53 | the last iteration either did not sleep (the `break`) or slept until the deadline |
| `OneHour.ContinuedIterationsAreOneIntervalApart` | run_monitor_1hour.py:33-53 | an iteration with a successor took less than 300 s, and the successor starts exactly 300 s after it |
| `OneHour.SlowIterationEndsRun` | run_monitor_1hour.py:45-53 | an iteration whose checks take 300 s or more is the last one, even before the deadline |
| `OneHour.FastIterationCount` | run_monitor_1hour.py:23-53 | when every iteration's checks take less than 300 s, the count is the number of 300 s intervals started before the deadline |
| `OneHour.TwelveIterationsInAnHour` | run_monitor_1hour.py:23-56 | with fast checks, the hour holds exactly 12 iterations |
| `OneHour.StaysOnSchedule` | run_monitor_1hour.py:34-53 | an iteration started on schedule keeps the runner on schedule when it sleeps, and completes the schedule when it breaks |
| `OneHour.ScheduleDoneAtDeadline` | run_monitor_1hour.py:33 | a runner on schedule whose clock reaches the deadline has made every iteration |
| `OneHour.RunForOneHour` | run_monitor_1hour.py:17-63 | the runner's iterations are exactly `Schedule` from its start to one hour later; `count` is their number; iteration `k`'s alerts are `AlertsAt(k)` |

## Left out

- Network I/O: the HTTP request, `raise_for_status` and JSON decoding are an input `Response`. `Failed` stands for every way they raise.
- `send_alert`: the e-mail, and its SMTP connection and login, are left out. An alert is the clinician id, appended to the round's alerts in visiting order. A raising `send_alert` is not modelled. In `main` it would end the loop. In `run_for_one_hour` it is caught, and the process exits with status 1 (`run_monitor_1hour.py:59-63`).
- The geometry library: `Point`, `Polygon`, `contains` and `touches` are parameters, over floating-point coordinates. Their geometry is not modelled, only their results, or that they raise.
- The clock: time is whole seconds. Only the status checks (`roundSecs(k)` seconds for round `k`) and the sleeps advance it. The two clock reads after the checks in `run_for_one_hour` (`run_monitor_1hour.py:45-46`) see the same time.
- `Monitor.RunMonitor`: `main`'s `while True` is modelled as its first `rounds` rounds. The endless loop itself is not modelled.
- Signals, `sys.exit`, printing, logging and `load_dotenv` are not modelled. The configuration values other than the ids and the interval are not modelled either.
- `RUNTIME_SECS` (`config.py:11`) is never read: the runner writes 3600 itself, and so does `Config.RunSecs`.
- The loops take the id list as a parameter (`ClinicianIds` when deployed). Lemmas that need each id listed once require `Distinct`, which `Monitor.ClinicianIdsAreOneToSeven` proves for the deployed list. A round reads each clinician once (`inZone(round, cid)`): with a repeated id, the model would reuse that reading, where the code would call `check_clinician_status` again; the deployed ids have no repeats.
- `prev_status` is a local dict of the loop function, so it is modelled as a map variable that each step reassigns.
- Facts about the code that the model keeps:
  - the code sends only a "left zone" alert; it has no "still out" or "returned" alerts;
  - the alert is sent synchronously inside the loop;
  - a first reading that is out of zone does alert, because the initial all-true table makes it an edge (`AlertRule.FirstRoundAlertsOutOfZone`);
  - a one-hour round whose checks take 300 s or more ends the run before the deadline (`OneHour.SlowIterationEndsRun`).
- A decoded dict is an ordered list of entries that may repeat a key. `PyJson.Lookup` takes the last entry with a key, and iteration and `len` go through `PyJson.Keys`, each key once in its first place, as a Python dict built by the decoder does.
