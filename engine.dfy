/**
 * The store and the procedures that change it: the `users`, `medications` and
 * `intakes` tables, the `METRICS` counters and the `SUMMARY_STATE` map, with the
 * data-access functions, the two background passes and the state-changing part of
 * the take, skip, snooze-option and take-all button handlers.
 *
 * Each method is proved against the specification functions of the Intakes,
 * Activity, Tick and Summary modules; the properties are proved about those.
 */
module Store {
  import opened Wrappers
  import opened Clock
  import opened Records
  import opened Helpers
  import opened Intakes
  import opened Activity
  import opened Tick
  import opened Summary

  /** What a button handler answered, in the order its checks run. */
  datatype ActionOutcome =
    | IntakeNotFound
    | MedicationNotFound
    | UserNotFound
    | AlreadyTaken
    | NothingPending
    | Done

  /** Every stored schedule time is a well-formed `HH:MM`. */
  predicate MedsWellFormed(meds: map<int, Medication>) {
    forall id :: id in meds ==> AllClock(meds[id].times)
  }

  /** add_medication's dose count: `doses_per_day or len(times_list)`, so an absent or zero count means one dose per time. */
  function DoseCount(dosesPerDay: Option<int>, times: seq<string>): (d: int)
    ensures dosesPerDay.Some? && dosesPerDay.value != 0 ==> d == dosesPerDay.value
    ensures (dosesPerDay.None? || dosesPerDay.value == 0) ==> d == |times|
  {
    match dosesPerDay
    case Some(n) => if n != 0 then n else |times|
    case None => |times|
  }

  /**
   * The lookups every intake button runs before acting: the intake, its medication,
   * the medication's owner. `Done` means all three exist.
   */
  function IntakeLookup(rows: Rows, meds: map<int, Medication>, users: map<int, User>, intakeId: int)
    : (r: ActionOutcome)
    ensures r == Done <==> intakeId in rows && rows[intakeId].medicationId in meds
                           && meds[rows[intakeId].medicationId].userId in users
    ensures r in {IntakeNotFound, MedicationNotFound, UserNotFound, Done}
  {
    if intakeId !in rows then IntakeNotFound
    else if rows[intakeId].medicationId !in meds then MedicationNotFound
    else if meds[rows[intakeId].medicationId].userId !in users then UserNotFound
    else Done
  }

  /** The take branch: the lookups, then a refusal when the row read is already taken. */
  function TakeOutcome(rows: Rows, meds: map<int, Medication>, users: map<int, User>, intakeId: int)
    : (r: ActionOutcome)
    ensures r == Done <==> IntakeLookup(rows, meds, users, intakeId) == Done && !rows[intakeId].taken
    ensures r == AlreadyTaken <==> IntakeLookup(rows, meds, users, intakeId) == Done && rows[intakeId].taken
  {
    var found := IntakeLookup(rows, meds, users, intakeId);
    if found != Done then found else if rows[intakeId].taken then AlreadyTaken else Done
  }

  /** The snooze-option handler checks the intake, the medication, then `taken`, and only then the owner. */
  function SnoozeOutcome(rows: Rows, meds: map<int, Medication>, users: map<int, User>, intakeId: int)
    : (r: ActionOutcome)
    ensures r == Done <==> IntakeLookup(rows, meds, users, intakeId) == Done && !rows[intakeId].taken
    ensures r == AlreadyTaken <==> intakeId in rows && rows[intakeId].medicationId in meds && rows[intakeId].taken
  {
    if intakeId !in rows then IntakeNotFound
    else if rows[intakeId].medicationId !in meds then MedicationNotFound
    else if rows[intakeId].taken then AlreadyTaken
    else if meds[rows[intakeId].medicationId].userId !in users then UserNotFound
    else Done
  }

  /** A second press of "take" on the same intake is refused: the first one left it taken. */
  lemma TakeTwiceRefused(rows: Rows, meds: map<int, Medication>, users: map<int, User>, intakeId: int, now: int)
    requires TakeOutcome(rows, meds, users, intakeId) == Done
    ensures TakeOutcome(MarkTaken(rows, intakeId, now), meds, users, intakeId) == AlreadyTaken
  {
  }

  /** Skipping has no `taken` guard, but on a taken intake it leaves the taken mark and its time alone. */
  lemma SkipKeepsTaken(rows: Rows, intakeId: int)
    requires intakeId in rows
    ensures Pause(rows, intakeId)[intakeId].taken == rows[intakeId].taken
    ensures Pause(rows, intakeId)[intakeId].takenAt == rows[intakeId].takenAt
  {
  }

  /** A snoozed intake comes due again exactly `minutes` after the snooze, and not before. */
  lemma SnoozedComesDue(rows: Rows, intakeId: int, minutes: int, now: int, later: int)
    requires intakeId in rows && !rows[intakeId].taken
    ensures DeliveryDue(Snooze(rows, intakeId, minutes, now)[intakeId], 0, later) <==> later >= now + minutes
  {
  }

  /** A skipped intake is never reminded again by the pass, whatever the time. */
  lemma SkippedNeverDue(rows: Rows, intakeId: int, later: int)
    requires intakeId in rows
    ensures !DeliveryDue(Pause(rows, intakeId)[intakeId], 0, later)
  {
  }

  /** A listing of ids without repetitions. */
  predicate Distinct(order: seq<int>) {
    forall i, j :: 0 <= i < j < |order| ==> order[i] != order[j]
  }

  class Engine {
    const cfg: Config
    var users: map<int, User>
    var meds: map<int, Medication>
    var intakes: Rows
    var nextIntakeId: int
    var nextMedId: int
    var metrics: Metrics
    var summaryState: map<int, int>

    ghost predicate Valid()
      reads this
    {
      && TableInv(intakes, nextIntakeId)
      && MedsWellFormed(meds)
      && (forall id :: id in meds ==> id < nextMedId)
    }

    /** A store holding the given users, with no medication, no intake and zero counters. */
    constructor (config: Config, initialUsers: map<int, User>)
      ensures Valid()
      ensures cfg == config && users == initialUsers && meds == map[] && intakes == map[]
      ensures metrics == ZeroMetrics && summaryState == map[]
    {
      cfg := config;
      users := initialUsers;
      meds := map[];
      intakes := map[];
      nextIntakeId := 1;
      nextMedId := 1;
      metrics := ZeroMetrics;
      summaryState := map[];
    }

    // -------------------------------------------------------------------------
    // Data access

    /** add_medication: a new active medication under the next id. */
    method AddMedication(userId: int, name: string, times: seq<string>, scheduleMode: string,
                         periods: seq<string>, dosesPerDay: Option<int>) returns (id: int)
      requires Valid() && AllClock(times)
      modifies this`meds, this`nextMedId
      ensures Valid()
      ensures id == old(nextMedId) && id !in old(meds) && nextMedId == old(nextMedId) + 1
      ensures meds == old(meds)[id := Medication(userId, name, times, scheduleMode, periods,
                                                DoseCount(dosesPerDay, times), true, None)]
    {
      id := nextMedId;
      meds := meds[id := Medication(userId, name, times, scheduleMode, periods, DoseCount(dosesPerDay, times), true, None)];
      nextMedId := nextMedId + 1;
    }

    /** update_user_remind_before: stores the clamped lead time; no row, no change. */
    method UpdateUserRemindBefore(userId: int, minutes: int)
      requires Valid()
      modifies this`users
      ensures Valid()
      ensures userId in old(users) ==>
                users == old(users)[userId := old(users)[userId].(remindBefore := Some(ClampLead(minutes)))]
      ensures userId !in old(users) ==> users == old(users)
    {
      if userId in users {
        users := users[userId := users[userId].(remindBefore := Some(ClampLead(minutes)))];
      }
    }

    /** ensure_intake_record: returns the id and the row as it now stands. */
    method EnsureIntakeRecord(medId: int, sched: int, dflt: Option<int>) returns (id: int, row: Intake)
      requires Valid()
      modifies this`intakes, this`nextIntakeId
      ensures Valid()
      ensures var e := EnsureRow(old(intakes), old(nextIntakeId), medId, sched, dflt);
        intakes == e.rows && nextIntakeId == e.nextId && id == e.id && row == intakes[id]
    {
      var found := FindRow(intakes, medId, sched);
      match found
      case None =>
        id := nextIntakeId;
        row := NewIntake(medId, sched, dflt);
        intakes := intakes[id := row];
        nextIntakeId := nextIntakeId + 1;
      case Some(existing) =>
        id := existing;
        row := intakes[id];
        if !row.taken && !row.remindersPaused && !row.reminderSent && row.nextReminderAt.None? && dflt.Some? {
          row := row.(nextReminderAt := dflt);
          intakes := intakes[id := row];
        }
    }

    method MarkIntakeTaken(intakeId: int, now: int)
      requires Valid()
      modifies this`intakes
      ensures Valid()
      ensures intakes == MarkTaken(old(intakes), intakeId, now)
    {
      if intakeId in intakes {
        intakes := intakes[intakeId := intakes[intakeId].(taken := true, takenAt := Some(now), nextReminderAt := None)];
      }
    }

    method SnoozeIntake(intakeId: int, minutes: int, now: int)
      requires Valid()
      modifies this`intakes
      ensures Valid()
      ensures intakes == Snooze(old(intakes), intakeId, minutes, now)
    {
      if intakeId in intakes {
        intakes := intakes[intakeId := intakes[intakeId].(nextReminderAt := Some(now + minutes), remindersPaused := false)];
      }
    }

    method PauseIntakeReminders(intakeId: int)
      requires Valid()
      modifies this`intakes
      ensures Valid()
      ensures intakes == Pause(old(intakes), intakeId)
    {
      if intakeId in intakes {
        intakes := intakes[intakeId := intakes[intakeId].(remindersPaused := true, nextReminderAt := None)];
      }
    }

    /** clear_future_intakes: the cutoff is `from_dt` when given, otherwise the current instant. */
    method ClearFutureIntakes(medId: int, fromDt: Option<int>, now: int)
      requires Valid()
      modifies this`intakes
      ensures Valid()
      ensures intakes == ClearFuture(old(intakes), medId, fromDt.GetOr(now))
    {
      var cutoff := if fromDt.Some? then fromDt.value else now;
      intakes := map id | id in intakes && !Doomed(intakes[id], medId, cutoff) :: intakes[id];
    }

    method SetMedicationActive(medId: int, userId: int, active: bool, pausedUntil: Option<int>)
      requires Valid()
      modifies this`meds
      ensures Valid()
      ensures meds == SetActive(old(meds), medId, userId, active, pausedUntil)
    {
      if medId in meds && meds[medId].userId == userId {
        meds := meds[medId := meds[medId].(isActive := active, pausedUntil := if active then None else pausedUntil)];
      }
    }

    /** get_intakes_for_day: the rows of the medication inside the zone's local day. */
    method GetIntakesForDay(medId: int, day: int, zone: Zone) returns (ids: set<int>)
      ensures ids == DayIds(intakes, medId, DayBoundsUtc(day, zone).0, DayBoundsUtc(day, zone).1)
    {
      var bounds := DayBoundsUtc(day, zone);
      ids := DayIds(intakes, medId, bounds.0, bounds.1);
    }

    // -------------------------------------------------------------------------
    // Background passes

    /** resume_due_medications: every due medication is reactivated and its future untaken intakes dropped. */
    method ResumeDueMedications(now: int) returns (resumed: set<int>)
      requires Valid()
      modifies this`meds, this`intakes
      ensures Valid()
      ensures resumed == DueForResume(old(meds), users, now)
      ensures meds == ResumeAll(old(meds), resumed)
      ensures intakes == ClearFutureAll(old(intakes), resumed, now)
    {
      resumed := DueForResume(meds, users, now);
      var todo := resumed;
      ghost var done: set<int> := {};
      NothingResumedYet(meds, intakes, now);
      while |todo| > 0
        invariant todo <= resumed && done == resumed - todo
        invariant meds == ResumeAll(old(meds), done) && intakes == ClearFutureAll(old(intakes), done, now)
        invariant Valid()
        decreases |todo|
      {
        NonEmptyHasMember(todo);
        var id :| id in todo;
        ResumeOne(id, now, old(meds), old(intakes), done);
        todo := todo - {id};
        done := done + {id};
      }
    }

    /** One medication of the resume pass: activate it, then drop its future untaken intakes. */
    method ResumeOne(id: int, now: int, ghost meds0: map<int, Medication>, ghost rows0: Rows, ghost done: set<int>)
      requires Valid() && id in meds0 && id !in done
      requires meds == ResumeAll(meds0, done) && intakes == ClearFutureAll(rows0, done, now)
      modifies this`meds, this`intakes
      ensures Valid()
      ensures meds == ResumeAll(meds0, done + {id}) && intakes == ClearFutureAll(rows0, done + {id}, now)
    {
      ResumeStep(meds0, done, id);
      ClearStep(rows0, done, id, now);
      SetMedicationActive(id, meds[id].userId, true, None);
      ClearFutureIntakes(id, None, now);
    }

    /** One configured time: ensure the row, then remind through the delivery gate and count the outcome. */
    method TickSlotStep(medId: int, sched: int, dflt: int, offset: int, now: int, outcome: nat -> bool,
                        attempts0: nat) returns (attempts: nat)
      requires Valid()
      modifies this`intakes, this`nextIntakeId, this`metrics
      ensures Valid()
      ensures TickState(intakes, nextIntakeId, metrics, attempts)
              == TickSlot(TickState(old(intakes), old(nextIntakeId), old(metrics), attempts0),
                          medId, sched, dflt, offset, now, outcome)
    {
      attempts := attempts0;
      ghost var e := EnsureRow(intakes, nextIntakeId, medId, sched, Some(dflt));
      ghost var st := TickState(intakes, nextIntakeId, metrics, attempts0);
      var id, row := EnsureIntakeRecord(medId, sched, Some(dflt));
      assert id == e.id && row == e.rows[e.id] && intakes == e.rows;
      if offset > 0 || row.taken || row.remindersPaused {
        return;
      }
      if row.nextReminderAt.None? {
        return;
      }
      if now >= row.nextReminderAt.value {
        if outcome(attempts) {
          UpdateKeepsTable(intakes, nextIntakeId, id, Delivered(row, now));
          intakes := intakes[id := row.(reminderSent := true, lastReminderAt := Some(now), nextReminderAt := None)];
          metrics := metrics.(remindersSent := metrics.remindersSent + 1);
        } else {
          metrics := metrics.(remindersFailed := metrics.remindersFailed + 1);
        }
        attempts := attempts + 1;
      }
    }

    /** The loop over one day's configured times, for one day offset. */
    method TickDayLoop(medId: int, times: seq<string>, day: int, offset: int, zone: Zone, lead: int, now: int,
                       outcome: nat -> bool, attempts0: nat) returns (attempts: nat)
      requires Valid() && AllClock(times)
      modifies this`intakes, this`nextIntakeId, this`metrics
      ensures Valid()
      ensures TickState(intakes, nextIntakeId, metrics, attempts)
              == TickDay(TickState(old(intakes), old(nextIntakeId), old(metrics), attempts0),
                         medId, times, day, offset, zone, lead, now, outcome)
    {
      ghost var st0 := TickState(intakes, nextIntakeId, metrics, attempts0);
      attempts := attempts0;
      var j := 0;
      while j < |times|
        invariant 0 <= j <= |times| && Valid()
        invariant TickState(intakes, nextIntakeId, metrics, attempts)
                  == TickDay(st0, medId, times[..j], day, offset, zone, lead, now, outcome)
      {
        var sched := LocalTimeToUtc(day, times[j], zone);
        var dflt := sched - lead;
        if offset == 0 && dflt < now {
          dflt := now;
        }
        TickDayStep(st0, medId, times, j, day, offset, zone, lead, now, outcome, sched, dflt);
        attempts := TickSlotStep(medId, sched, dflt, offset, now, outcome, attempts);
        j := j + 1;
      }
      assert times[..|times|] == times;
    }

    /**
     * check_and_send_reminders: for each active medication (in the order the query
     * listed them) and each day offset, the loop over its times.
     */
    method CheckAndSendReminders(now: int, order: seq<int>, outcome: nat -> bool)
      requires Valid() && Distinct(order)
      requires forall id :: id in order <==> id in meds && meds[id].isActive
      modifies this`intakes, this`nextIntakeId, this`metrics
      ensures Valid()
      ensures var r := TickMeds(TickState(old(intakes), old(nextIntakeId), old(metrics), 0),
                                order, meds, users, cfg, now, outcome);
        intakes == r.rows && nextIntakeId == r.nextId && metrics == r.metrics
    {
      ghost var st0 := TickState(intakes, nextIntakeId, metrics, 0);
      var attempts: nat := 0;
      var i := 0;
      while i < |order|
        invariant 0 <= i <= |order| && Valid()
        invariant TickState(intakes, nextIntakeId, metrics, attempts)
                  == TickMeds(st0, order[..i], meds, users, cfg, now, outcome)
      {
        TickMedsStep(st0, order, i, meds, users, cfg, now, outcome);
        attempts := TickMedication(order[i], now, outcome, attempts);
        i := i + 1;
      }
      assert order[..|order|] == order;
    }

    /** One medication of the pass: today and tomorrow in its owner's zone; passed over when the owner is gone. */
    method TickMedication(medId: int, now: int, outcome: nat -> bool, attempts0: nat) returns (attempts: nat)
      requires Valid() && medId in meds
      modifies this`intakes, this`nextIntakeId, this`metrics
      ensures Valid()
      ensures TickState(intakes, nextIntakeId, metrics, attempts)
              == TickMed(TickState(old(intakes), old(nextIntakeId), old(metrics), attempts0),
                         medId, meds[medId], users, cfg, now, outcome)
    {
      attempts := attempts0;
      var med := meds[medId];
      if med.userId in users {
        var user := users[med.userId];
        var zone := UserZone(user, cfg);
        var lead := GetRemindBefore(user.remindBefore, cfg.remindBeforeMinutes);
        var today := LocalToday(zone, now);
        ghost var sm := TickState(intakes, nextIntakeId, metrics, attempts);
        var offset := 0;
        while offset < 2
          invariant 0 <= offset <= 2 && Valid()
          invariant TickState(intakes, nextIntakeId, metrics, attempts)
                    == TickDays(sm, medId, med.times, today, zone, lead, now, outcome, offset)
        {
          TickDaysSucc(sm, medId, med.times, today, zone, lead, now, outcome, offset + 1);
          attempts := TickDayLoop(medId, med.times, today + offset, offset, zone, lead, now, outcome, attempts);
          offset := offset + 1;
        }
      }
    }

    /**
     * send_summary_for_user: counts the user's active medications' intakes over the
     * local day, adds the missed ones to the counter, and reports whether a message
     * with at least one line went out.
     */
    method SendSummaryForUser(userId: int, now: int, delivered: bool) returns (sent: bool, lines: seq<SummaryLine>)
      requires userId in users
      modifies this`metrics
      ensures sent == UserSummary(intakes, meds, users[userId], userId, cfg, now, delivered).sent
      ensures lines == UserSummary(intakes, meds, users[userId], userId, cfg, now, delivered).lines
      ensures metrics == old(metrics).(missed := old(metrics).missed
                                                 + UserSummary(intakes, meds, users[userId], userId, cfg, now, delivered).missed)
    {
      var zone := UserZone(users[userId], cfg);
      var today := LocalToday(zone, now);
      var medIds := ActiveMedIds(meds, userId);
      ghost var bounds := DayBoundsUtc(today, zone);
      ghost var out := UserSummary(intakes, meds, users[userId], userId, cfg, now, delivered);
      assert out.lines == SummaryLines(intakes, meds, medIds, bounds.0, bounds.1);
      assert out.missed == TotalMissed(out.lines);
      if |medIds| == 0 {
        return false, [];
      }
      lines := CollectLines(medIds, today, zone);
      sent := |lines| > 0 && delivered;
    }

    /** The loop over the owner's medications: a line per medication with intakes that day, missed ones counted. */
    method CollectLines(medIds: seq<int>, today: int, zone: Zone) returns (lines: seq<SummaryLine>)
      requires forall i :: 0 <= i < |medIds| ==> medIds[i] in meds
      modifies this`metrics
      ensures var bounds := DayBoundsUtc(today, zone);
        lines == SummaryLines(intakes, meds, medIds, bounds.0, bounds.1)
      ensures TotalMissed(lines) >= 0
      ensures metrics == old(metrics).(missed := old(metrics).missed + TotalMissed(lines))
    {
      var bounds := DayBoundsUtc(today, zone);
      lines := [];
      var k := 0;
      while k < |medIds|
        invariant 0 <= k <= |medIds|
        invariant lines == SummaryLines(intakes, meds, medIds[..k], bounds.0, bounds.1)
        invariant TotalMissed(lines) >= 0
        invariant metrics == old(metrics).(missed := old(metrics).missed + TotalMissed(lines))
      {
        SummaryLinesStep(intakes, meds, medIds, k, bounds.0, bounds.1);
        var line := MedSummaryLine(medIds[k], today, zone);
        if line.Some? {
          TotalMissedAppend(lines, line.value);
          metrics := metrics.(missed := metrics.missed + LineMissed(line.value));
          lines := lines + [line.value];
        }
        k := k + 1;
      }
      assert medIds[..|medIds|] == medIds;
    }

    /** One medication of the summary: its intakes that day counted into a line, or none when it has none. */
    method MedSummaryLine(medId: int, today: int, zone: Zone) returns (line: Option<SummaryLine>)
      requires medId in meds
      ensures line == MedLine(intakes, meds, medId, DayBoundsUtc(today, zone).0, DayBoundsUtc(today, zone).1)
    {
      var ids := GetIntakesForDay(medId, today, zone);
      var total := |ids|;
      if total == 0 {
        return None;
      }
      var taken := |TakenAmong(intakes, ids)|;
      line := Some(SummaryLine(meds[medId].name, taken, total));
    }

    /**
     * maybe_send_daily_summary: each listed user past `SUMMARY_HOUR` and not yet
     * reported today gets a summary; today is recorded only when it went out.
     */
    method MaybeSendDailySummary(now: int, order: seq<int>, delivered: int -> bool)
      requires Distinct(order) && (forall i :: 0 <= i < |order| ==> order[i] in users)
      requires forall id :: id in users ==> id in order
      modifies this`metrics, this`summaryState
      ensures PassState(summaryState, metrics)
              == SummaryPass(PassState(old(summaryState), old(metrics)), intakes, meds, users, order, cfg, now, delivered)
    {
      ghost var ps0 := PassState(summaryState, metrics);
      var i := 0;
      while i < |order|
        invariant 0 <= i <= |order|
        invariant PassState(summaryState, metrics) == SummaryPass(ps0, intakes, meds, users, order[..i], cfg, now, delivered)
      {
        SummaryPassStep(ps0, intakes, meds, users, order, i, cfg, now, delivered);
        PassOneUser(order[i], now, delivered);
        i := i + 1;
      }
      assert order[..|order|] == order;
    }

    /** The body of the summary loop for one user: the gate, then the summary and the record of today. */
    method PassOneUser(userId: int, now: int, delivered: int -> bool)
      requires userId in users
      modifies this`metrics, this`summaryState
      ensures PassState(summaryState, metrics)
              == PassUser(PassState(old(summaryState), old(metrics)), intakes, meds, users, userId, cfg, now, delivered)
    {
      var local := UserZone(users[userId], cfg).toLocal(now);
      if local.Hour() >= cfg.summaryHour && !(userId in summaryState && summaryState[userId] == local.day) {
        var sent, _ := SendSummaryForUser(userId, now, delivered(userId));
        if sent {
          summaryState := summaryState[userId := local.day];
        }
      }
    }

    // -------------------------------------------------------------------------
    // Button handlers (their effect on the store)

    /** The take branch of callback_intake_actions: read the row, refuse a taken one, otherwise mark it. */
    method TakeIntake(intakeId: int, now: int) returns (res: ActionOutcome)
      requires Valid()
      modifies this`intakes, this`metrics
      ensures Valid()
      ensures res == TakeOutcome(old(intakes), meds, users, intakeId)
      ensures res == Done ==> intakes == MarkTaken(old(intakes), intakeId, now)
                              && metrics == old(metrics).(intakesMarked := old(metrics).intakesMarked + 1)
      ensures res != Done ==> intakes == old(intakes) && metrics == old(metrics)
    {
      res := IntakeLookup(intakes, meds, users, intakeId);
      if res != Done {
        return;
      }
      if intakes[intakeId].taken {
        return AlreadyTaken;
      }
      MarkIntakeTaken(intakeId, now);
      metrics := metrics.(intakesMarked := metrics.intakesMarked + 1);
    }

    /** The skip branch of callback_intake_actions: the lookups, then pause, taken or not. */
    method SkipIntake(intakeId: int) returns (res: ActionOutcome)
      requires Valid()
      modifies this`intakes
      ensures Valid()
      ensures res == IntakeLookup(old(intakes), meds, users, intakeId)
      ensures res == Done ==> intakes == Pause(old(intakes), intakeId)
      ensures res != Done ==> intakes == old(intakes)
    {
      res := IntakeLookup(intakes, meds, users, intakeId);
      if res == Done {
        PauseIntakeReminders(intakeId);
      }
    }

    /** callback_snooze_option: snooze an untaken intake by the chosen minutes and count it. */
    method SnoozeOption(intakeId: int, minutes: int, now: int) returns (res: ActionOutcome)
      requires Valid()
      modifies this`intakes, this`metrics
      ensures Valid()
      ensures res == SnoozeOutcome(old(intakes), meds, users, intakeId)
      ensures res == Done ==> intakes == Snooze(old(intakes), intakeId, minutes, now)
                              && metrics == old(metrics).(snoozes := old(metrics).snoozes + 1)
      ensures res != Done ==> intakes == old(intakes) && metrics == old(metrics)
    {
      res := SnoozeOutcome(intakes, meds, users, intakeId);
      if res == Done {
        SnoozeIntake(intakeId, minutes, now);
        metrics := metrics.(snoozes := metrics.snoozes + 1);
      }
    }

    /** The take-all loop: marks each row of `pending` taken and counts it. */
    method MarkPending(pending: set<int>, now: int)
      requires Valid()
      modifies this`intakes, this`metrics
      ensures Valid()
      ensures intakes == MarkAll(old(intakes), pending, now)
      ensures metrics == old(metrics).(intakesMarked := old(metrics).intakesMarked + |pending|)
    {
      var todo := pending;
      ghost var marked: set<int> := {};
      while |todo| > 0
        invariant todo <= pending && marked == pending - todo
        invariant intakes == MarkAll(old(intakes), marked, now)
        invariant metrics == old(metrics).(intakesMarked := old(metrics).intakesMarked + |marked|)
        invariant Valid()
        decreases |todo|
      {
        NonEmptyHasMember(todo);
        var id :| id in todo;
        MarkAllStep(old(intakes), marked, id, now);
        MarkIntakeTaken(id, now);
        metrics := metrics.(intakesMarked := metrics.intakesMarked + 1);
        todo := todo - {id};
        marked := marked + {id};
      }
      assert marked == pending;
    }

    /**
     * callback_take_all: marks exactly the untaken intakes of the medication's local
     * day and counts each; with none pending it changes nothing.
     */
    method TakeAll(medId: int, now: int) returns (res: ActionOutcome, marked: set<int>)
      requires Valid()
      modifies this`intakes, this`metrics
      ensures Valid()
      ensures medId !in meds ==> res == MedicationNotFound
      ensures medId in meds && meds[medId].userId !in users ==> res == UserNotFound
      ensures res == Done || res == NothingPending ==>
                medId in meds && meds[medId].userId in users
                && var zone := UserZone(users[meds[medId].userId], cfg);
                   var bounds := DayBoundsUtc(LocalToday(zone, now), zone);
                   marked == Pending(old(intakes), DayIds(old(intakes), medId, bounds.0, bounds.1))
      ensures res == Done <==> (medId in meds && meds[medId].userId in users && marked != {})
      ensures res != Done ==> marked == {}
      ensures medId in meds && meds[medId].userId in users ==> res == Done || res == NothingPending
      ensures intakes == MarkAll(old(intakes), marked, now)
      ensures metrics == old(metrics).(intakesMarked := old(metrics).intakesMarked + |marked|)
    {
      marked := {};
      if medId !in meds {
        return MedicationNotFound, marked;
      }
      var userId := meds[medId].userId;
      if userId !in users {
        return UserNotFound, marked;
      }
      var zone := UserZone(users[userId], cfg);
      var today := LocalToday(zone, now);
      var ids := GetIntakesForDay(medId, today, zone);
      var pending := Pending(intakes, ids);
      if pending == {} {
        return NothingPending, pending;
      }
      MarkPending(pending, now);
      marked := pending;
      res := Done;
    }
  }
}
