/** The monitor's fixed configuration. */
module Config {

  /** The clinicians monitored, in the order each round visits them: ids 1 to 7. */
  const ClinicianIds: seq<int> := seq(7, i => i + 1)

  /** Seconds between the starts of two polling rounds. */
  const PollIntervalSecs: int := 300

  /** Length of the bounded run, written into the one-hour runner itself. */
  const RunSecs: int := 3600
}
