/**
 * The entities the engine reads and writes: the rows of the `users`, `medications`
 * and `intakes` tables, the process-wide `METRICS` counters and the configuration
 * read from the environment at start-up.
 */
module Records {
  import opened Wrappers
  import opened Clock

  const ScheduleExact: string := "exact"
  const SchedulePeriod: string := "period"

  /** A `users` row; `remindBefore` is the raw `remind_before_minutes` column (NULL is `None`). */
  datatype User = User(
    telegramId: int,
    timezone: Option<string>,
    remindBefore: Option<int>,
    language: Option<string>)

  /**
   * A `medications` row. `times` is the ordered list of `HH:MM` strings (one per dose,
   * dose order, not sorted); `periods` the parallel list of period keys in period mode.
   * A NULL array column is the empty sequence, which is how the source reads it (`or []`).
   */
  datatype Medication = Medication(
    userId: int,
    name: string,
    times: seq<string>,
    scheduleMode: string,
    periods: seq<string>,
    dosesPerDay: int,
    isActive: bool,
    pausedUntil: Option<int>)

  /** An `intakes` row: one dated occurrence of one dose; `(medicationId, scheduledAt)` is unique. */
  datatype Intake = Intake(
    medicationId: int,
    scheduledAt: int,
    taken: bool,
    takenAt: Option<int>,
    remindersPaused: bool,
    reminderSent: bool,
    nextReminderAt: Option<int>,
    lastReminderAt: Option<int>)

  /** The `METRICS` dict: counters since process start. */
  datatype Metrics = Metrics(
    remindersSent: nat,
    remindersFailed: nat,
    intakesMarked: nat,
    snoozes: nat,
    missed: nat)

  const ZeroMetrics: Metrics := Metrics(0, 0, 0, 0, 0)

  /** No counter has gone down from `a` to `b`. */
  predicate MetricsGrow(a: Metrics, b: Metrics) {
    && a.remindersSent <= b.remindersSent
    && a.remindersFailed <= b.remindersFailed
    && a.intakesMarked <= b.intakesMarked
    && a.snoozes <= b.snoozes
    && a.missed <= b.missed
  }

  /**
   * Environment configuration: `TZ` (already resolved, with its UTC fallback),
   * the zone database, `REMIND_BEFORE_MINUTES` (default 10), `SNOOZE_MINUTES`
   * (default 15) and `SUMMARY_HOUR` (default 21).
   */
  datatype Config = Config(
    defaultZone: Zone,
    zones: map<string, Zone>,
    remindBeforeMinutes: int,
    snoozeMinutes: int,
    summaryHour: int)

  /** get_zone_for_user. */
  function UserZone(user: User, cfg: Config): Zone {
    ResolveTimezone(user.timezone, cfg.zones, cfg.defaultZone)
  }
}
