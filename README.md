# Medication reminder engine — a Dafny model

This project models the intake scheduling and reminder engine of the takingPills
Telegram bot (`main.py`). It models the data that engine works on:

- users with a time zone, a reminder lead and a language;
- medications, each with an `HH:MM` schedule, a schedule mode, period keys, an active flag and a pause end;
- one intake row per (medication, scheduled instant), with its taken / paused / reminded state;
- the process-wide `METRICS` counters and the `SUMMARY_STATE` map.

It models the procedures that change that data:

- the data-access helpers (`add_medication`, `ensure_intake_record`,
  `mark_intake_taken`, `snooze_intake`, `pause_intake_reminders`,
  `clear_future_intakes`, `set_medication_active`, `get_intakes_for_day`,
  `update_user_remind_before`);
- the three background passes (`resume_due_medications`,
  `check_and_send_reminders`, `maybe_send_daily_summary` with `send_summary_for_user`);
- the state-changing part of the take, skip, snooze-option and take-all button handlers;
- the pure helpers they rely on:
  - time-zone resolution, local day bounds and local time to UTC;
  - the reminder lead and the language;
  - `normalize_time_input`, `_format_minutes_label`;
  - the period presets and the schedule text.

Layout:

| file | module | what it holds |
|---|---|---|
| `wrappers.dfy` | `Wrappers` | `Option` |
| `text.dfy` | `Text` | digits, decimal text, strip, lower, replace, join |
| `clock.dfy` | `Clock` | instants, zones, `HH:MM` clock text, day bounds |
| `records.dfy` | `Records` | the `users`, `medications` and `intakes` rows, metrics, configuration |
| `helpers.dfy` | `Helpers` | lead time, language, time normalisation, labels, schedule text |
| `intakes.dfy` | `Intakes` | the intake table as a map and every statement that changes it |
| `activity.dfy` | `Activity` | pause/resume and the resume pass as functions |
| `tick.dfy` | `Tick` | the reminder pass as a function over a `TickState` |
| `summary.dfy` | `Summary` | the daily summary and the summary pass as functions |
| `engine.dfy` | `Store` | class `Engine`: the store and its methods, each proved against the functions above |

Conventions:

- **Instants.** An instant is an integer number of minutes and a date is an integer day number.
- **Zones.** A time zone is a `Zone` value holding two conversions: local (day, minute of day) to an instant, and an instant back to a local date-time.
- **Outside inputs.**
  - The current instant `now` is a parameter.
  - Whether a Telegram send succeeds is an oracle parameter. For reminders it is indexed by the number of attempts made so far in the pass; for summaries it is indexed by the user id.
  - Where a query has no `ORDER BY`, the order in which the database yields rows is a parameter `order`. This applies to the active medications of the reminder pass and to the users of the summary pass. The claims proved do not depend on that order.
- **Tables.** The `intakes` table is a map from id to row. It keeps `(medication_id, scheduled_at)` unique and every id below the serial counter (`Intakes.TableInv`).

## Model

| member | source | states |
|---|---|---|
| Clock.ResolveTimezone | main.py:163-170 | an empty or unknown zone name gives the default zone, a known one its zone |
| Clock.ClockTextOfMinute | main.py:359-362 | formatting the minute of day of a well-formed `HH:MM` text gives the same text back |
| Clock.LocalTimeRoundTrip | main.py:211-221 | a local date and `HH:MM` converted to UTC reads back as the same local date and clock text, when the zone reads back |
| Clock.DayBoundsLocal | main.py:196-203 | the local day runs from midnight of the day to midnight of the next day |
| Clock.DayBoundsUtc | main.py:206-208 | the UTC bounds are the zone's instants of the two local midnights |
| Clock.LocalToday | main.py:192-193 | in a zone whose clock runs forward, the local day of an instant is the day whose UTC bounds contain it |
| Clock.LocalTimeToUtc | main.py:211-221 | in a zone whose clock runs forward, a local time of day lands inside that day's UTC bounds |
| Clock.SlotOnlyInItsDay | main.py:206-221 | in such a zone a dose instant lies within its own day's UTC bounds and within no other day's |
| Clock.DayBoundsContiguous | main.py:196-208 | one day's UTC end is the next day's UTC start, so consecutive days neither overlap nor leave a gap |
| Text.StripTrims | main.py:349 | `strip` removes exactly a leading and a trailing run of whitespace and leaves no whitespace at either end |
| Text.NatToString | main.py:394-396 | the decimal text of a number consists of digits, reads back as that number and has no leading zero |
| Helpers.ClampLead | main.py:177-182 | the lead is held within 1..180 and is unchanged inside that range |
| Helpers.GetRemindBefore | main.py:177-182 | a stored lead is clamped into 1..180; with none stored the configured default applies |
| Helpers.RemindBeforeRoundTrip | main.py:658-663 | the lead stored by `update_user_remind_before` is the lead `get_remind_before` returns |
| Helpers.GetLanguageForUser | main.py:185-189 | the language is always a supported one: the lower-cased stored code when supported, `ru` otherwise |
| Helpers.ParseClock | main.py:358-361 | an accepted `%H:%M` parse has hour below 24 and minute below 60 |
| Helpers.NormalizeTimeInput | main.py:346-362 | an accepted input always yields a well-formed `HH:MM` |
| Helpers.NormalizeExample0930 | main.py:351-353 | `0930` normalises to `09:30` |
| Helpers.NormalizeExample930 | main.py:354-355 | `930` normalises to `09:30` |
| Helpers.NormalizeExample9Dot30 | main.py:350 | `9.30` normalises to `09:30` |
| Helpers.NormalizeExample09 | main.py:356-357 | `09` normalises to `09:00` |
| Helpers.NormalizeExampleSeparator | main.py:349 | a leading `\x1c` separator is stripped like any whitespace, so `\x1c0930` normalises to `09:30` |
| Helpers.CleanTimeInput | main.py:349-350 | strips, lower-cases, drops spaces and turns dots into colons; `NormalizeExample9Dot30` and `NormalizeFixesClock` state its effect |
| Helpers.ExpandDigits | main.py:351-357 | gives digit-only input of length 4, 3 or 2 its colon and leaves anything else alone; the `NormalizeExample` lemmas pin each case |
| Helpers.NormalizeRejects24 | main.py:358-361 | `24:00` is rejected |
| Helpers.NormalizeFixesClock | main.py:346-362 | every well-formed `HH:MM` normalises to itself |
| Helpers.NormalizeIdempotent | main.py:346-362 | normalising an already normalised time changes nothing |
| Helpers.FormatMinutesLabel | main.py:392-396 | whole hours as `N ч` (`1 ч` for one hour), anything else as `N мин`; `MinutesLabelRoundTrip` is its inverse |
| Helpers.MinutesLabelRoundTrip | main.py:392-396 | for every positive minute count the label reads back to that count, hours and minutes alike |
| Helpers.FindPreset | main.py:245-249 | the first preset with the key is found, and None exactly when no preset has it |
| Helpers.GetPeriodByKey | main.py:245-249 | the loop returns the first preset with the key, or None |
| Helpers.FormatPeriodLabel | main.py:252-258 | an empty or unknown key leaves the time alone; a known key gives `title (time)` |
| Helpers.LabelTimeRoundTrip | main.py:252-258 | the dose time can be read back from its period label, whatever the key |
| Helpers.ScheduleLabels | main.py:264-268 | there is one label per configured time, including when fewer periods than times are stored |
| Helpers.FormatMedSchedule | main.py:261-270 | the loop builds the schedule text of the medication |
| Helpers.ScheduleText | main.py:261-270 | the configured times, labelled by period in period mode, joined by commas, or a dash when there are none; `ScheduleTextDash` and `ScheduleLabels` state its shape |
| Helpers.ScheduleTextDash | main.py:261-270 | the schedule text is the dash exactly when no time is configured |
| Intakes.FindRow | main.py:532-536 | the lookup finds a row exactly when one exists for the medication and instant, and returns that row |
| Intakes.EnsureRow | main.py:509-544 | a missing slot is inserted with the next serial id and the default reminder. For an existing row nothing is added, and only its `next_reminder_at` may change: it is back-filled exactly when the row is untaken, unpaused, unsent and has none pending. The table invariant holds afterwards |
| Intakes.UpdateKeepsTable | main.py:509-544 | rewriting a row without changing its key keeps the table invariant and touches only that row |
| Intakes.MarkTaken | main.py:547-557 | only the row is changed: taken, taken now, nothing pending; an unknown id changes nothing |
| Intakes.Snooze | main.py:560-570 | only the row is changed: reminder due `minutes` from now, unpaused |
| Intakes.Pause | main.py:573-582 | only the row is changed: paused, nothing pending |
| Intakes.ClearFuture | main.py:585-595 | exactly the medication's untaken rows at or after the cutoff are deleted; the rest stay unchanged |
| Intakes.ClearFutureLeavesTakenOnly | main.py:585-595 | after clearing, the invariant holds and every remaining row of the medication from the cutoff on is taken |
| Intakes.ClearFutureIdempotent | main.py:585-595 | clearing twice is clearing once |
| Intakes.DayIds | main.py:612-625 | exactly the medication's rows scheduled in `[start, end)` are selected |
| Intakes.Pending | main.py:1632 | exactly the untaken rows among the selected ones |
| Intakes.TakenAmong | main.py:1899 | exactly the taken rows among the selected ones |
| Intakes.MarkAll | main.py:1643-1645 | the marked rows are the taken-marked versions and all other rows are unchanged |
| Intakes.MarkAllStep | main.py:1643-1645 | marking one more row is the next step of marking a set, in any order |
| Intakes.MarkAllPendingTakesDay | main.py:1632-1645 | marking the pending rows leaves every row of the day taken and none pending. Rows already taken are untouched, and the invariant holds |
| Activity.Activated | main.py:598-609 | the new flag is set; a pause end is kept only when deactivating |
| Activity.SetActive | main.py:598-609 | only the medication with that id and that owner changes; otherwise nothing does |
| Activity.DueForResume | main.py:1765-1779 | exactly the inactive medications with a pause end at or before now whose owner exists |
| Activity.ResumeAll | main.py:1781-1782 | the resumed medications are activated; all others are unchanged |
| Activity.ClearFutureAll | main.py:1781-1783 | the intakes after clearing every resumed medication from now on |
| Activity.ResumeStep | main.py:1781-1782 | resuming one more medication is the next step of `ResumeAll` |
| Activity.ClearStep | main.py:1781-1783 | clearing one more medication is the next step of `ClearFutureAll`, whatever the order |
| Activity.ResumeLeavesNoneDue | main.py:1763-1783 | after the pass none is due, the resumed ones are active with no pause end, and the rest are unchanged |
| Activity.ClearFutureAllKeeps | main.py:1781-1783 | clearing keeps the invariant and never touches a taken row or a row before the cutoff |
| Tick.DefaultReminderAt | main.py:1826-1831 | the default reminder is `lead` minutes before the dose; for today it is raised to now when already past; tomorrow's is never raised |
| Tick.Delivered | main.py:1860-1869 | a sent reminder marks the row sent, sent now, nothing pending; taken and paused are untouched |
| Tick.DeliveryDue | main.py:1836-1843 | a reminder is attempted only for today's untaken, unpaused row whose pending reminder time has come; `TomorrowNeverFires` and `DeliveredNotDue` rely on it |
| Tick.DeliveredNotDue | main.py:1836-1869 | a row that has just been reminded is not due again |
| Tick.ProgressTrans | main.py:1803-1882 | the pass's monotone facts compose across steps |
| Tick.TickSlot | main.py:1825-1882 | the slot's row exists afterwards. An attempt is made exactly when the gate is open: today, untaken, unpaused, a reminder pending and due. It counts as sent or failed as the oracle says, and only success changes the row. Taken rows are untouched |
| Tick.TickDay | main.py:1825-1882 | one day of one medication keeps the invariant, never removes a row or changes a taken row, and counts every attempt once |
| Tick.TickMed | main.py:1814-1882 | as `TickDay`, for both days of one medication |
| Tick.TickDays | main.py:1822-1882 | as `TickDay`, for the first `k` day offsets |
| Tick.TickDaysSucc | main.py:1822-1824 | offset `k` runs after offsets below it, on day `today + k` |
| Tick.TickDaysTwo | main.py:1822-1824 | the two offsets are today with offset 0, then tomorrow with offset 1 |
| Tick.TickMedTwoDays | main.py:1814-1824 | a medication's pass is today then tomorrow in its owner's zone with the owner's lead |
| Tick.TickMeds | main.py:1803-1882 | as `TickDay`, for every active medication |
| Tick.TickDayStep | main.py:1825-1835 | the next configured time is one more slot on the same day |
| Tick.TickMedsStep | main.py:1814 | the next medication is one more medication pass |
| Tick.HasRowKept | main.py:509-544 | a slot's row survives any change that keeps keys |
| Tick.DaySlotsKept | main.py:509-544 | a day's rows survive any change that keeps keys |
| Tick.TickDayMaterializes | main.py:1825-1835 | after a day's pass every configured time of that day has its row |
| Tick.DaySlotSelected | main.py:612-625 | in a forward-running zone each row ensured for a day is selected by that day's bounds and by no other day's |
| Tick.TwoDaysMaterialize | main.py:1822-1835 | after both days, both days' rows exist |
| Tick.MedSlotsKept | main.py:1814-1835 | a medication's rows survive any change that keeps keys |
| Tick.TickMedMaterializes | main.py:1814-1835 | after a medication's pass, today's and tomorrow's rows all exist in its owner's zone |
| Tick.TickMedsMaterializes | main.py:1803-1835 | after a pass every active medication has all its rows for today and tomorrow |
| Tick.TickDayNoNewRows | main.py:509-521 | when a day's rows already exist, the pass inserts nothing |
| Tick.TwoDaysNoNewRows | main.py:509-521 | when both days' rows exist, the pass inserts nothing |
| Tick.TickMedNoNewRows | main.py:509-521 | when a medication's rows exist, its pass inserts nothing |
| Tick.TickMedsNoNewRows | main.py:509-521 | when every active medication's rows exist, the pass inserts nothing |
| Tick.SecondTickAddsNoRows | main.py:1803-1835 | a second pass at the same instant inserts no row, whatever the deliveries did |
| Tick.TomorrowNeverFires | main.py:1836 | tomorrow's slots never cause a delivery attempt or change a counter |
| Tick.DuplicateTimesCollapse | main.py:513-521 | two equal configured times on one day yield a single new row |
| Summary.MinExists | main.py:505 | a non-empty id set has a least element |
| Summary.SetMin | main.py:505 | the least id of a non-empty set |
| Summary.PrependLeast | main.py:505 | putting the least id before an increasing listing of the rest keeps it increasing |
| Summary.OrderById | main.py:505 | `ORDER BY id` lists each id exactly once, strictly increasing |
| Summary.ActiveMedIds | main.py:500-506 | exactly the user's active medications, in id order |
| Summary.MedLine | main.py:1894-1904 | no line when the day has no intakes. Otherwise the line counts every intake of the day, the taken ones and the missed ones, and missed = untaken |
| Summary.LineText | main.py:1903-1905 | `- name: taken/total`, followed by the missed count in parentheses when any dose was missed |
| Summary.LineTextShowsMissed | main.py:1903-1905 | the line ends in `)` exactly when the medication has missed doses |
| Summary.TakenPendingSplit | main.py:1899-1900 | taken plus untaken is the day's total |
| Summary.SummaryLines | main.py:1894-1906 | at most one line per medication, each with at least one intake |
| Summary.SummaryLinesStep | main.py:1894-1906 | the next medication appends its line, if it has one |
| Summary.TotalMissedAppend | main.py:1901-1902 | the missed count adds up line by line |
| Summary.TotalMissedNonNegative | main.py:1901-1902 | the missed count never decreases the counter |
| Summary.LinesExistIffIntakes | main.py:1894-1910 | there is data to send exactly when some medication has an intake that day |
| Summary.LinesAreMedLines | main.py:1894-1906 | every line is the line of some listed medication |
| Summary.UserSummary | main.py:1885-1921 | a summary counts as sent only with at least one line and a successful delivery; the missed count is never negative |
| Summary.SummaryDue | main.py:1930-1933 | a user is due once the local hour has reached the summary hour and today is not yet recorded for them; `EarlyIsSkipped` and `AlreadyReportedIsSkipped` state each half |
| Summary.RecordingClosesGate | main.py:1935-1937 | once today is recorded for a user, no later moment of the same local day makes them due again |
| Summary.PassUser | main.py:1926-1937 | before the summary hour, or when today is already recorded, nothing happens. Otherwise today is recorded exactly when the summary went out. Only the missed counter can grow |
| Summary.SummaryPassStep | main.py:1926 | the next user is one more user step of the pass |
| Summary.SummaryPass | main.py:1924-1937 | the users in turn, each as `PassUser`; `PassRecordsToday` states what the whole pass records |
| Summary.PassRecordsToday | main.py:1924-1937 | after the pass, recorded days are kept. Every newly recorded user was visited, got its summary delivered and is recorded for its local today. Only the missed counter grows |
| Summary.AlreadyReportedIsSkipped | main.py:1932-1933 | a user already reported today is skipped |
| Summary.EarlyIsSkipped | main.py:1930-1931 | before the summary hour a user is skipped |
| Store.DoseCount | main.py:488 | an absent or zero dose count falls back to the number of times |
| Store.IntakeLookup | main.py:1681-1698 | the lookups succeed exactly when the intake, its medication and its owner all exist |
| Store.TakeOutcome | main.py:1681-1707 | take proceeds exactly when the lookups succeed and the intake is untaken; it is refused as already taken exactly when taken |
| Store.SnoozeOutcome | main.py:1500-1521 | snooze proceeds exactly when the lookups succeed and the intake is untaken. The taken check comes before the owner lookup |
| Store.TakeTwiceRefused | main.py:1701-1707 | a second take of the same intake is refused |
| Store.SkipKeepsTaken | main.py:1739-1741 | skipping never changes whether or when a dose was taken |
| Store.SnoozedComesDue | main.py:560-570 | a snoozed untaken intake becomes due exactly at now plus the chosen minutes |
| Store.SkippedNeverDue | main.py:573-582 | a skipped intake is never due again |
| Store.Engine.constructor | main.py:122-129 | the store starts with zero counters and no summaries recorded |
| Store.Engine.AddMedication | main.py:480-497 | a new medication under the next id, active, with the dose count defaulted |
| Store.Engine.UpdateUserRemindBefore | main.py:658-663 | the stored lead is the clamped value; an unknown user changes nothing |
| Store.Engine.EnsureIntakeRecord | main.py:509-544 | the table becomes `EnsureRow` of the old table and the returned row is the stored one |
| Store.Engine.MarkIntakeTaken | main.py:547-557 | the table becomes `MarkTaken` of the old one |
| Store.Engine.SnoozeIntake | main.py:560-570 | the table becomes `Snooze` of the old one |
| Store.Engine.PauseIntakeReminders | main.py:573-582 | the table becomes `Pause` of the old one |
| Store.Engine.ClearFutureIntakes | main.py:585-595 | the cutoff is the given instant, or now; the table becomes `ClearFuture` |
| Store.Engine.SetMedicationActive | main.py:598-609 | the medications become `SetActive` of the old ones |
| Store.Engine.GetIntakesForDay | main.py:612-625 | the selected rows are those of the local day's UTC bounds |
| Store.Engine.ResumeDueMedications | main.py:1763-1783 | exactly the due medications are resumed, and their future untaken intakes are cleared from now |
| Store.Engine.ResumeOne | main.py:1781-1783 | one iteration extends both the resumed set and the cleared set by one medication |
| Store.Engine.TickSlotStep | main.py:1826-1882 | one configured time: the store moves as `TickSlot` says |
| Store.Engine.TickDayLoop | main.py:1825-1882 | the loop over times: the store moves as `TickDay` says |
| Store.Engine.TickMedication | main.py:1815-1882 | the loop over both day offsets: the store moves as `TickMed` says |
| Store.Engine.CheckAndSendReminders | main.py:1803-1882 | the whole pass over the active medications moves the store as `TickMeds` says |
| Store.Engine.MedSummaryLine | main.py:1895-1904 | one medication's summary line as `MedLine` defines it |
| Store.Engine.CollectLines | main.py:1894-1906 | the lines are `SummaryLines`; the missed counter grows by their missed total |
| Store.Engine.SendSummaryForUser | main.py:1885-1921 | sent and the lines are as `UserSummary`; the missed counter grows even when delivery fails |
| Store.Engine.PassOneUser | main.py:1926-1937 | one user of the pass as `PassUser` |
| Store.Engine.MaybeSendDailySummary | main.py:1924-1937 | the pass moves the summary state and counters as `SummaryPass` says |
| Store.Engine.TakeIntake | main.py:1670-1710 | answers `TakeOutcome`; only on success the row is marked taken and the counter grows by one |
| Store.Engine.SkipIntake | main.py:1670-1741 | answers the lookup outcome; on success the row is paused, even a taken one |
| Store.Engine.SnoozeOption | main.py:1490-1525 | answers `SnoozeOutcome`; only on success the row is snoozed and the snooze counter grows by one |
| Store.Engine.MarkPending | main.py:1643-1645 | every pending row is marked taken and counted once |
| Store.Engine.TakeAll | main.py:1616-1655 | marks exactly the untaken intakes of the medication's local today and counts each. It answers `Done` exactly when there were some; with none, or a missing medication or user, nothing changes |

## Left out

- The Telegram transport: message text, keyboards, callback-data parsing and `SNOOZE_PROMPTS`. Message sends appear only as success oracles.
- The `snooze` branch of `callback_intake_actions`: it only shows the snooze keyboard, and its taken check is `SnoozeOutcome`'s.
- The summary header line with the date: it does not affect whether the summary is sent.
- The asyncio loops around the passes, `notify_admin`, and logging.
- The database layer and its reconnect-and-retry logic.
- Interleaving: the model runs each operation atomically. Interleaving between suspension points is not modelled, and neither is the compare-and-set discipline that interleaving would call for. The code uses plain check-then-write.
- Real `ZoneInfo` rules and daylight saving. A zone is the `Zone` pair of conversions, and `Clock.LocalTimeRoundTrip` assumes the zone reads back.
- Unicode handling in `normalize_time_input`: ASCII whitespace, including the separators `\x1c`..`\x1f`, is stripped as `str.strip` does; non-ASCII whitespace, Unicode digits for `str.isdigit` and full case folding are not modelled.
- `get_or_create_user`, the other user-preference updates, `update_medication_schedule` and `delete_medication`: they are not part of this model.
- The `ORDER BY scheduled_at` of `get_intakes_for_day`: its callers only count and mark the rows, so they are returned as a set of ids.
- A NULL `times` or `periods` column is treated as an empty list.
- Stored schedule times are assumed to be well-formed `HH:MM`. The class invariant requires it: the code only stores `normalize_time_input` output or preset times, and a malformed one would make the Python pass raise.
- Duplicate clock times in one medication's schedule: the code's `ON CONFLICT DO NOTHING` merges equal instants of one medication into one row, and `Tick.DuplicateTimesCollapse` proves the merge.
- Clock.DayBoundsUtc: containment of instants in day bounds is proved only for zones whose local clock runs forward (`Monotone`); daylight-saving folds and gaps are not covered.
- Helpers.MinutesLabelRoundTrip: stated only for minute counts of at least 1. For zero or negative multiples of 60 the source prints `1 ч`, which does not read back.
- Helpers.GetRemindBefore: a stored value that `int()` cannot convert is not modelled, because the stored column is an integer.
- A failed reminder send also calls `notify_admin`. Only the `reminders_failed` counter is modelled.
