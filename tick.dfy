/**
 * check_and_send_reminders, one pass of the reminder loop, as a specification over
 * values: for every active medication, for today and tomorrow in the owner's zone,
 * for every configured time, ensure the intake row, then apply the delivery gate.
 *
 * Whether a send succeeds is an oracle `outcome` indexed by the number of delivery
 * attempts made so far in the pass, so the model fixes nothing about the transport.
 */
module Tick {
  import opened Wrappers
  import opened Clock
  import opened Records
  import opened Helpers
  import opened Intakes

  /** What a pass changes: the intake table, its id counter, the counters, and the attempts made. */
  datatype TickState = TickState(rows: Rows, nextId: int, metrics: Metrics, attempts: nat)

  predicate TickInv(st: TickState) {
    TableInv(st.rows, st.nextId)
  }

  /**
   * From `a` to `b` every delivery attempt was counted exactly once, as sent or as
   * failed, and no other counter moved.
   */
  predicate Accounted(a: TickState, b: TickState) {
    && MetricsGrow(a.metrics, b.metrics)
    && a.attempts <= b.attempts
    && (b.metrics.remindersSent - a.metrics.remindersSent)
       + (b.metrics.remindersFailed - a.metrics.remindersFailed) == b.attempts - a.attempts
    && b.metrics.intakesMarked == a.metrics.intakesMarked
    && b.metrics.snoozes == a.metrics.snoozes
    && b.metrics.missed == a.metrics.missed
  }

  /** Rows already taken are left exactly as they were. */
  predicate TakenKept(a: Rows, b: Rows) {
    forall id :: id in a && a[id].taken ==> id in b && b[id] == a[id]
  }

  /** Nothing a pass must not do happened between `a` and `b`. */
  predicate Progress(a: TickState, b: TickState) {
    KeysKept(a.rows, b.rows) && TakenKept(a.rows, b.rows) && Accounted(a, b)
  }

  lemma ProgressTrans(a: TickState, b: TickState, c: TickState)
    requires Progress(a, b) && Progress(b, c)
    ensures Progress(a, c)
  {
  }

  /**
   * The reminder instant a new row gets: `lead` minutes before the dose, raised to
   * `now` when that is already past and the dose is today; tomorrow's rows keep it as is.
   */
  function DefaultReminderAt(sched: int, lead: int, offset: int, now: int): (r: int)
    ensures r == sched - lead || r == now
    ensures r >= sched - lead
    ensures offset == 0 ==> r >= now
    ensures offset != 0 ==> r == sched - lead
  {
    if offset == 0 && sched - lead < now then now else sched - lead
  }

  /** The delivery gate: today's (no positive day offset) untaken, unpaused row whose pending reminder is due. */
  predicate DeliveryDue(row: Intake, offset: int, now: int) {
    offset <= 0 && !row.taken && !row.remindersPaused && row.nextReminderAt.Some? && now >= row.nextReminderAt.value
  }

  /** The bookkeeping after a successful send: sent, sent now, nothing pending. */
  function Delivered(row: Intake, now: int): (r: Intake)
    ensures SameKey(row, r) && r.taken == row.taken && r.takenAt == row.takenAt
    ensures r.reminderSent && r.lastReminderAt == Some(now) && r.nextReminderAt.None?
    ensures r.remindersPaused == row.remindersPaused
  {
    row.(reminderSent := true, lastReminderAt := Some(now), nextReminderAt := None)
  }

  /** A row that has just been reminded is no longer due, whatever the time. */
  lemma DeliveredNotDue(row: Intake, now: int, later: int)
    ensures !DeliveryDue(Delivered(row, now), 0, later)
  {
  }

  /** One configured time on one day: ensure the row, then deliver when the gate lets it through. */
  function TickSlot(st: TickState, med: int, sched: int, dflt: int, offset: int, now: int,
                    outcome: nat -> bool): (r: TickState)
    requires TickInv(st)
    ensures TickInv(r) && KeysKept(st.rows, r.rows) && Accounted(st, r) && TakenKept(st.rows, r.rows)
    ensures HasRow(r.rows, med, sched)
    ensures var e := EnsureRow(st.rows, st.nextId, med, sched, Some(dflt));
      && r.nextId == e.nextId
      && OnlyRowChanged(e.rows, r.rows, e.id)
      // an attempt is made exactly when the gate is open ...
      && (r.attempts == st.attempts + 1 <==> DeliveryDue(e.rows[e.id], offset, now))
      && (!DeliveryDue(e.rows[e.id], offset, now) ==> r.attempts == st.attempts && r.rows == e.rows)
      // ... it succeeds as the oracle says, and only success touches the row
      && (r.metrics.remindersSent == st.metrics.remindersSent + 1 <==>
            DeliveryDue(e.rows[e.id], offset, now) && outcome(st.attempts))
      && r.rows[e.id] == (if DeliveryDue(e.rows[e.id], offset, now) && outcome(st.attempts)
                          then Delivered(e.rows[e.id], now) else e.rows[e.id])
  {
    var e := EnsureRow(st.rows, st.nextId, med, sched, Some(dflt));
    var row := e.rows[e.id];
    if !DeliveryDue(row, offset, now) then
      TickState(e.rows, e.nextId, st.metrics, st.attempts)
    else if outcome(st.attempts) then
      UpdateKeepsTable(e.rows, e.nextId, e.id, Delivered(row, now));
      TickState(e.rows[e.id := Delivered(row, now)], e.nextId,
                st.metrics.(remindersSent := st.metrics.remindersSent + 1), st.attempts + 1)
    else
      TickState(e.rows, e.nextId, st.metrics.(remindersFailed := st.metrics.remindersFailed + 1), st.attempts + 1)
  }

  /** The absolute instant of the `i`-th configured time on `day`. */
  function SlotInstant(times: seq<string>, i: int, day: int, zone: Zone): int
    requires AllClock(times) && 0 <= i < |times|
  {
    LocalTimeToUtc(day, times[i], zone)
  }

  /** The loop over a medication's times for one day offset. */
  function TickDay(st: TickState, med: int, times: seq<string>, day: int, offset: int, zone: Zone,
                   lead: int, now: int, outcome: nat -> bool): (r: TickState)
    requires TickInv(st) && AllClock(times)
    ensures TickInv(r) && Progress(st, r)
    decreases |times|
  {
    if |times| == 0 then st
    else
      var prev := TickDay(st, med, times[..|times| - 1], day, offset, zone, lead, now, outcome);
      var sched := SlotInstant(times, |times| - 1, day, zone);
      var r := TickSlot(prev, med, sched, DefaultReminderAt(sched, lead, offset, now), offset, now, outcome);
      ProgressTrans(st, prev, r);
      r
  }

  /** The lead time and zone a medication is reminded with: its owner's. */
  function MedLead(user: User, cfg: Config): int {
    GetRemindBefore(user.remindBefore, cfg.remindBeforeMinutes)
  }

  /** Today and tomorrow for one medication; a medication whose owner is gone is passed over. */
  function TickMed(st: TickState, medId: int, med: Medication, users: map<int, User>, cfg: Config,
                   now: int, outcome: nat -> bool): (r: TickState)
    requires TickInv(st) && AllClock(med.times)
    ensures TickInv(r) && Progress(st, r)
  {
    if med.userId !in users then st
    else
      var zone := UserZone(users[med.userId], cfg);
      var lead := MedLead(users[med.userId], cfg);
      var today := LocalToday(zone, now);
      TickDays(st, medId, med.times, today, zone, lead, now, outcome, 2)
  }

  /** The loop over the day offsets below `k`: offset 0 is today, offset 1 tomorrow. */
  function TickDays(st: TickState, med: int, times: seq<string>, today: int, zone: Zone, lead: int, now: int,
                    outcome: nat -> bool, k: nat): (r: TickState)
    requires TickInv(st) && AllClock(times)
    ensures TickInv(r) && Progress(st, r)
  {
    if k == 0 then st
    else
      var prev := TickDays(st, med, times, today, zone, lead, now, outcome, k - 1);
      var r := TickDay(prev, med, times, today + (k - 1), k - 1, zone, lead, now, outcome);
      ProgressTrans(st, prev, r);
      r
  }

  /** The loop over the offsets below `k` is the one below `k - 1`, then offset `k - 1`. */
  lemma TickDaysSucc(st: TickState, med: int, times: seq<string>, today: int, zone: Zone, lead: int, now: int,
                     outcome: nat -> bool, k: nat)
    requires TickInv(st) && AllClock(times) && k > 0
    ensures TickDays(st, med, times, today, zone, lead, now, outcome, k)
            == TickDay(TickDays(st, med, times, today, zone, lead, now, outcome, k - 1),
                       med, times, today + (k - 1), k - 1, zone, lead, now, outcome)
  {
  }

  /** The loop over offsets 0 and 1, spelled out. */
  lemma TickDaysTwo(st: TickState, med: int, times: seq<string>, today: int, zone: Zone, lead: int, now: int,
                    outcome: nat -> bool)
    requires TickInv(st) && AllClock(times)
    ensures TickDays(st, med, times, today, zone, lead, now, outcome, 2)
            == TickDay(TickDay(st, med, times, today, 0, zone, lead, now, outcome),
                       med, times, today + 1, 1, zone, lead, now, outcome)
  {
    var d0 := TickDay(st, med, times, today, 0, zone, lead, now, outcome);
    TickDaysSucc(st, med, times, today, zone, lead, now, outcome, 1);
    assert TickDays(st, med, times, today, zone, lead, now, outcome, 1) == d0;
    TickDaysSucc(st, med, times, today, zone, lead, now, outcome, 2);
  }

  /** Spelled out: the owner's today, then tomorrow on its result. */
  lemma TickMedTwoDays(st: TickState, medId: int, med: Medication, users: map<int, User>, cfg: Config,
                       now: int, outcome: nat -> bool, zone: Zone, lead: int, today: int)
    requires TickInv(st) && AllClock(med.times) && med.userId in users
    requires zone == UserZone(users[med.userId], cfg) && lead == MedLead(users[med.userId], cfg)
    requires today == LocalToday(zone, now)
    ensures TickMed(st, medId, med, users, cfg, now, outcome)
            == TickDay(TickDay(st, medId, med.times, today, 0, zone, lead, now, outcome),
                       medId, med.times, today + 1, 1, zone, lead, now, outcome)
  {
    TickDaysTwo(st, medId, med.times, today, zone, lead, now, outcome);
  }

  /** Every medication in `order` exists and has well-formed times. */
  predicate OrderOk(order: seq<int>, meds: map<int, Medication>) {
    forall i :: 0 <= i < |order| ==> order[i] in meds && AllClock(meds[order[i]].times)
  }

  /** The loop over the active medications, in the order the query returned them. */
  function TickMeds(st: TickState, order: seq<int>, meds: map<int, Medication>, users: map<int, User>,
                    cfg: Config, now: int, outcome: nat -> bool): (r: TickState)
    requires TickInv(st) && OrderOk(order, meds)
    ensures TickInv(r) && Progress(st, r)
    decreases |order|
  {
    if |order| == 0 then st
    else
      var prev := TickMeds(st, order[..|order| - 1], meds, users, cfg, now, outcome);
      var id := order[|order| - 1];
      var r := TickMed(prev, id, meds[id], users, cfg, now, outcome);
      ProgressTrans(st, prev, r);
      r
  }

  /** One more time of the day: the loop over a prefix, extended by one slot. */
  lemma TickDayStep(st: TickState, med: int, times: seq<string>, j: int, day: int, offset: int, zone: Zone,
                    lead: int, now: int, outcome: nat -> bool, sched: int, dflt: int)
    requires TickInv(st) && AllClock(times) && 0 <= j < |times|
    requires sched == LocalTimeToUtc(day, times[j], zone) && dflt == DefaultReminderAt(sched, lead, offset, now)
    ensures TickDay(st, med, times[..j + 1], day, offset, zone, lead, now, outcome)
            == TickSlot(TickDay(st, med, times[..j], day, offset, zone, lead, now, outcome),
                        med, sched, dflt, offset, now, outcome)
  {
    assert times[..j + 1][..j] == times[..j];
    assert times[..j + 1][j] == times[j];
  }

  /** One more medication of the pass. */
  lemma TickMedsStep(st: TickState, order: seq<int>, i: int, meds: map<int, Medication>, users: map<int, User>,
                     cfg: Config, now: int, outcome: nat -> bool)
    requires TickInv(st) && OrderOk(order, meds) && 0 <= i < |order|
    ensures OrderOk(order[..i], meds) && OrderOk(order[..i + 1], meds)
    ensures TickMeds(st, order[..i + 1], meds, users, cfg, now, outcome)
            == TickMed(TickMeds(st, order[..i], meds, users, cfg, now, outcome),
                       order[i], meds[order[i]], users, cfg, now, outcome)
  {
    assert order[..i + 1][..i] == order[..i];
    assert order[..i + 1][i] == order[i];
  }

  // ---------------------------------------------------------------------------
  // Properties of a pass

  /** A row that exists keeps existing when no row is removed or re-keyed. */
  lemma HasRowKept(a: Rows, b: Rows, med: int, sched: int)
    requires KeysKept(a, b) && HasRow(a, med, sched)
    ensures HasRow(b, med, sched)
  {
    var id :| id in a && IsSlot(a[id], med, sched);
    assert id in b && IsSlot(b[id], med, sched);
  }

  /** Every configured time of the day has its row. */
  predicate DaySlotsPresent(rows: Rows, med: int, times: seq<string>, day: int, zone: Zone)
    requires AllClock(times)
  {
    forall i :: 0 <= i < |times| ==> HasRow(rows, med, SlotInstant(times, i, day, zone))
  }

  lemma DaySlotsKept(a: Rows, b: Rows, med: int, times: seq<string>, day: int, zone: Zone)
    requires AllClock(times) && KeysKept(a, b) && DaySlotsPresent(a, med, times, day, zone)
    ensures DaySlotsPresent(b, med, times, day, zone)
  {
    forall i | 0 <= i < |times|
      ensures HasRow(b, med, SlotInstant(times, i, day, zone))
    {
      HasRowKept(a, b, med, SlotInstant(times, i, day, zone));
    }
  }

  /** After the loop over a day's times, every one of them has its row. */
  lemma {:induction false} TickDayMaterializes(st: TickState, med: int, times: seq<string>, day: int,
                                               offset: int, zone: Zone, lead: int, now: int,
                                               outcome: nat -> bool)
    requires TickInv(st) && AllClock(times)
    ensures DaySlotsPresent(TickDay(st, med, times, day, offset, zone, lead, now, outcome).rows,
                            med, times, day, zone)
    decreases |times|
  {
    if |times| > 0 {
      var n := |times|;
      var init := times[..n - 1];
      var prev := TickDay(st, med, init, day, offset, zone, lead, now, outcome);
      var r := TickDay(st, med, times, day, offset, zone, lead, now, outcome);
      TickDayMaterializes(st, med, init, day, offset, zone, lead, now, outcome);
      DaySlotsKept(prev.rows, r.rows, med, init, day, zone);
      forall i | 0 <= i < n
        ensures HasRow(r.rows, med, SlotInstant(times, i, day, zone))
      {
        if i < n - 1 {
          assert SlotInstant(times, i, day, zone) == SlotInstant(init, i, day, zone);
        }
      }
    }
  }

  /** When every time of the day already has its row, the loop creates none. */
  lemma {:induction false} TickDayNoNewRows(st: TickState, med: int, times: seq<string>, day: int,
                                            offset: int, zone: Zone, lead: int, now: int,
                                            outcome: nat -> bool)
    requires TickInv(st) && AllClock(times) && DaySlotsPresent(st.rows, med, times, day, zone)
    ensures var r := TickDay(st, med, times, day, offset, zone, lead, now, outcome);
      r.nextId == st.nextId && r.rows.Keys == st.rows.Keys
    decreases |times|
  {
    if |times| > 0 {
      var n := |times|;
      var init := times[..n - 1];
      assert DaySlotsPresent(st.rows, med, init, day, zone) by {
        forall i | 0 <= i < n - 1
          ensures HasRow(st.rows, med, SlotInstant(init, i, day, zone))
        {
          assert SlotInstant(init, i, day, zone) == SlotInstant(times, i, day, zone);
        }
      }
      TickDayNoNewRows(st, med, init, day, offset, zone, lead, now, outcome);
      var prev := TickDay(st, med, init, day, offset, zone, lead, now, outcome);
      HasRowKept(st.rows, prev.rows, med, SlotInstant(times, n - 1, day, zone));
    }
  }

  /** Every configured time has its row, today and tomorrow. */
  predicate BothDaysPresent(rows: Rows, med: int, times: seq<string>, today: int, zone: Zone)
    requires AllClock(times)
  {
    DaySlotsPresent(rows, med, times, today, zone) && DaySlotsPresent(rows, med, times, today + 1, zone)
  }

  /** Both days of a medication have all their rows (nothing is owed for an ownerless one). */
  predicate MedSlotsPresent(rows: Rows, medId: int, med: Medication, users: map<int, User>, cfg: Config, now: int)
    requires AllClock(med.times)
  {
    med.userId in users ==>
      BothDaysPresent(rows, medId, med.times, LocalToday(UserZone(users[med.userId], cfg), now),
                      UserZone(users[med.userId], cfg))
  }

  lemma MedSlotsKept(a: Rows, b: Rows, medId: int, med: Medication, users: map<int, User>, cfg: Config, now: int)
    requires AllClock(med.times) && KeysKept(a, b) && MedSlotsPresent(a, medId, med, users, cfg, now)
    ensures MedSlotsPresent(b, medId, med, users, cfg, now)
  {
    if med.userId in users {
      var zone := UserZone(users[med.userId], cfg);
      var today := LocalToday(zone, now);
      DaySlotsKept(a, b, medId, med.times, today, zone);
      DaySlotsKept(a, b, medId, med.times, today + 1, zone);
    }
  }

  /** Every medication of the pass has the rows of both days. */
  predicate AllSlotsPresent(rows: Rows, order: seq<int>, meds: map<int, Medication>, users: map<int, User>,
                            cfg: Config, now: int)
    requires OrderOk(order, meds)
  {
    forall i :: 0 <= i < |order| ==> MedSlotsPresent(rows, order[i], meds[order[i]], users, cfg, now)
  }

  /**
   * In a zone whose clock runs forward, the row of the `i`-th configured time of `day` is
   * selected by the bounds of `day` (take-all, the summary) and by those of no other day.
   */
  lemma DaySlotSelected(rows: Rows, med: int, times: seq<string>, i: int, day: int, zone: Zone, other: int)
    requires AllClock(times) && Monotone(zone) && DaySlotsPresent(rows, med, times, day, zone)
    requires 0 <= i < |times|
    ensures exists id :: id in rows && IsSlot(rows[id], med, SlotInstant(times, i, day, zone))
                         && (id in DayIds(rows, med, DayBoundsUtc(other, zone).0, DayBoundsUtc(other, zone).1)
                             <==> other == day)
  {
    var sched := SlotInstant(times, i, day, zone);
    assert HasRow(rows, med, sched);
    var id :| id in rows && IsSlot(rows[id], med, sched);
    SlotOnlyInItsDay(day, times[i], zone, other);
    var bounds := DayBoundsUtc(other, zone);
    assert id in DayIds(rows, med, bounds.0, bounds.1) <==> bounds.0 <= sched < bounds.1;
  }

  lemma TwoDaysMaterialize(st: TickState, medId: int, times: seq<string>, today: int, zone: Zone, lead: int,
                           now: int, outcome: nat -> bool)
    requires TickInv(st) && AllClock(times)
    ensures var r := TickDay(TickDay(st, medId, times, today, 0, zone, lead, now, outcome),
                             medId, times, today + 1, 1, zone, lead, now, outcome);
      BothDaysPresent(r.rows, medId, times, today, zone)
  {
    var s0 := TickDay(st, medId, times, today, 0, zone, lead, now, outcome);
    var s1 := TickDay(s0, medId, times, today + 1, 1, zone, lead, now, outcome);
    TickDayMaterializes(st, medId, times, today, 0, zone, lead, now, outcome);
    TickDayMaterializes(s0, medId, times, today + 1, 1, zone, lead, now, outcome);
    DaySlotsKept(s0.rows, s1.rows, medId, times, today, zone);
  }

  lemma TickMedMaterializes(st: TickState, medId: int, med: Medication, users: map<int, User>, cfg: Config,
                            now: int, outcome: nat -> bool)
    requires TickInv(st) && AllClock(med.times)
    ensures MedSlotsPresent(TickMed(st, medId, med, users, cfg, now, outcome).rows, medId, med, users, cfg, now)
  {
    if med.userId in users {
      var zone := UserZone(users[med.userId], cfg);
      var lead := MedLead(users[med.userId], cfg);
      var today := LocalToday(zone, now);
      TwoDaysMaterialize(st, medId, med.times, today, zone, lead, now, outcome);
      TickMedTwoDays(st, medId, med, users, cfg, now, outcome, zone, lead, today);
    }
  }

  /** After a pass, every listed medication has one row per configured time, today and tomorrow. */
  lemma {:induction false} TickMedsMaterializes(st: TickState, order: seq<int>, meds: map<int, Medication>,
                                                users: map<int, User>, cfg: Config, now: int, outcome: nat -> bool)
    requires TickInv(st) && OrderOk(order, meds)
    ensures AllSlotsPresent(TickMeds(st, order, meds, users, cfg, now, outcome).rows, order, meds, users, cfg, now)
    decreases |order|
  {
    if |order| > 0 {
      var n := |order|;
      var init := order[..n - 1];
      var prev := TickMeds(st, init, meds, users, cfg, now, outcome);
      var r := TickMeds(st, order, meds, users, cfg, now, outcome);
      TickMedsMaterializes(st, init, meds, users, cfg, now, outcome);
      TickMedMaterializes(prev, order[n - 1], meds[order[n - 1]], users, cfg, now, outcome);
      forall i | 0 <= i < n
        ensures MedSlotsPresent(r.rows, order[i], meds[order[i]], users, cfg, now)
      {
        if i < n - 1 {
          assert order[i] == init[i];
          MedSlotsKept(prev.rows, r.rows, order[i], meds[order[i]], users, cfg, now);
        }
      }
    }
  }

  lemma TwoDaysNoNewRows(st: TickState, medId: int, times: seq<string>, today: int, zone: Zone, lead: int,
                         now: int, outcome: nat -> bool)
    requires TickInv(st) && AllClock(times)
    requires DaySlotsPresent(st.rows, medId, times, today, zone)
    requires DaySlotsPresent(st.rows, medId, times, today + 1, zone)
    ensures var r := TickDay(TickDay(st, medId, times, today, 0, zone, lead, now, outcome),
                             medId, times, today + 1, 1, zone, lead, now, outcome);
      r.nextId == st.nextId && r.rows.Keys == st.rows.Keys
  {
    var s0 := TickDay(st, medId, times, today, 0, zone, lead, now, outcome);
    TickDayNoNewRows(st, medId, times, today, 0, zone, lead, now, outcome);
    DaySlotsKept(st.rows, s0.rows, medId, times, today + 1, zone);
    TickDayNoNewRows(s0, medId, times, today + 1, 1, zone, lead, now, outcome);
  }

  lemma TickMedNoNewRows(st: TickState, medId: int, med: Medication, users: map<int, User>, cfg: Config,
                         now: int, outcome: nat -> bool)
    requires TickInv(st) && AllClock(med.times) && MedSlotsPresent(st.rows, medId, med, users, cfg, now)
    ensures var r := TickMed(st, medId, med, users, cfg, now, outcome);
      r.nextId == st.nextId && r.rows.Keys == st.rows.Keys
  {
    if med.userId in users {
      var zone := UserZone(users[med.userId], cfg);
      var lead := MedLead(users[med.userId], cfg);
      var today := LocalToday(zone, now);
      TwoDaysNoNewRows(st, medId, med.times, today, zone, lead, now, outcome);
      TickMedTwoDays(st, medId, med, users, cfg, now, outcome, zone, lead, today);
    }
  }

  /** A pass over medications whose rows all exist already creates no row. */
  lemma {:induction false} TickMedsNoNewRows(st: TickState, order: seq<int>, meds: map<int, Medication>,
                                             users: map<int, User>, cfg: Config, now: int, outcome: nat -> bool)
    requires TickInv(st) && OrderOk(order, meds) && AllSlotsPresent(st.rows, order, meds, users, cfg, now)
    ensures var r := TickMeds(st, order, meds, users, cfg, now, outcome);
      r.nextId == st.nextId && r.rows.Keys == st.rows.Keys
    decreases |order|
  {
    if |order| > 0 {
      var n := |order|;
      var init := order[..n - 1];
      assert AllSlotsPresent(st.rows, init, meds, users, cfg, now) by {
        forall i | 0 <= i < n - 1
          ensures MedSlotsPresent(st.rows, init[i], meds[init[i]], users, cfg, now)
        {
          assert init[i] == order[i];
        }
      }
      TickMedsNoNewRows(st, init, meds, users, cfg, now, outcome);
      var prev := TickMeds(st, init, meds, users, cfg, now, outcome);
      MedSlotsKept(st.rows, prev.rows, order[n - 1], meds[order[n - 1]], users, cfg, now);
      TickMedNoNewRows(prev, order[n - 1], meds[order[n - 1]], users, cfg, now, outcome);
    }
  }

  /**
   * Running the pass again at the same instant creates no row, whatever the sends
   * did: the rows of the first pass are found by their keys.
   */
  lemma SecondTickAddsNoRows(st: TickState, order: seq<int>, meds: map<int, Medication>, users: map<int, User>,
                             cfg: Config, now: int, outcome: nat -> bool, outcome2: nat -> bool)
    requires TickInv(st) && OrderOk(order, meds)
    ensures var first := TickMeds(st, order, meds, users, cfg, now, outcome);
      var second := TickMeds(first, order, meds, users, cfg, now, outcome2);
      second.nextId == first.nextId && second.rows.Keys == first.rows.Keys
  {
    var first := TickMeds(st, order, meds, users, cfg, now, outcome);
    TickMedsMaterializes(st, order, meds, users, cfg, now, outcome);
    TickMedsNoNewRows(first, order, meds, users, cfg, now, outcome2);
  }

  /** Tomorrow's rows are prepared but never reminded: no attempt and no counter moves. */
  lemma {:induction false} TomorrowNeverFires(st: TickState, med: int, times: seq<string>, day: int,
                                              zone: Zone, lead: int, now: int, outcome: nat -> bool)
    requires TickInv(st) && AllClock(times)
    ensures var r := TickDay(st, med, times, day, 1, zone, lead, now, outcome);
      r.attempts == st.attempts && r.metrics == st.metrics
    decreases |times|
  {
    if |times| > 0 {
      TomorrowNeverFires(st, med, times[..|times| - 1], day, zone, lead, now, outcome);
    }
  }

  /**
   * Two configured times that read the same clock time share one instant, and the
   * second finds the row of the first: one row, not two.
   */
  lemma DuplicateTimesCollapse(st: TickState, med: int, t: string, day: int, offset: int, zone: Zone,
                               lead: int, now: int, outcome: nat -> bool)
    requires TickInv(st) && IsClock(t) && !HasRow(st.rows, med, LocalTimeToUtc(day, t, zone))
    ensures TickDay(st, med, [t, t], day, offset, zone, lead, now, outcome).nextId == st.nextId + 1
  {
    var sched := LocalTimeToUtc(day, t, zone);
    assert [t, t][..1] == [t];
    assert [t][..0] == [];
    assert SlotInstant([t], 0, day, zone) == sched == SlotInstant([t, t], 1, day, zone);
    assert TickDay(st, med, [t][..0], day, offset, zone, lead, now, outcome) == st;
    var one := TickDay(st, med, [t], day, offset, zone, lead, now, outcome);
    assert one == TickSlot(st, med, sched, DefaultReminderAt(sched, lead, offset, now), offset, now, outcome);
    assert one.nextId == st.nextId + 1;
    assert HasRow(one.rows, med, sched);
  }
}
