/**
 * The `intakes` table as an in-memory map from row id to row, and the effect of each
 * statement main.py runs against it: insert-or-fetch with backfill, take, snooze,
 * pause, deletion of future untaken rows, and the per-day selection.
 *
 * The table's unique constraint on `(medication_id, scheduled_at)` is the predicate
 * `UniqueKeys`; new rows get the next serial id, so every id in use is below `nextId`.
 */
module Intakes {
  import opened Wrappers
  import opened Records

  type Rows = map<int, Intake>

  /** Row `row` is the occurrence of medication `med` at instant `sched`. */
  predicate IsSlot(row: Intake, med: int, sched: int) {
    row.medicationId == med && row.scheduledAt == sched
  }

  /** Two rows share the key `(medication_id, scheduled_at)`. */
  predicate SameKey(a: Intake, b: Intake) {
    a.medicationId == b.medicationId && a.scheduledAt == b.scheduledAt
  }

  /** The unique constraint of the table. */
  predicate UniqueKeys(rows: Rows) {
    forall a, b :: a in rows && b in rows && SameKey(rows[a], rows[b]) ==> a == b
  }

  /** The serial id counter is past every id in use. */
  predicate IdsBelow(rows: Rows, nextId: int) {
    forall id :: id in rows ==> id < nextId
  }

  predicate TableInv(rows: Rows, nextId: int) {
    UniqueKeys(rows) && IdsBelow(rows, nextId)
  }

  predicate HasRow(rows: Rows, med: int, sched: int) {
    exists id :: id in rows && IsSlot(rows[id], med, sched)
  }

  /** Every row of `a` is still there in `b`, under the same id and with the same key. */
  predicate KeysKept(a: Rows, b: Rows) {
    forall id :: id in a ==> id in b && SameKey(a[id], b[id])
  }

  /** `b` differs from `a` at most in row `id`, which keeps its key. */
  predicate OnlyRowChanged(a: Rows, b: Rows, id: int) {
    && a.Keys == b.Keys
    && (forall other :: other in a && other != id ==> b[other] == a[other])
    && (id in a ==> SameKey(a[id], b[id]))
  }

  /** The id of the row with key `(med, sched)`, if there is one. */
  function FindRow(rows: Rows, med: int, sched: int): (r: Option<int>)
    requires UniqueKeys(rows)
    ensures r.Some? <==> HasRow(rows, med, sched)
    ensures r.Some? ==> r.value in rows && IsSlot(rows[r.value], med, sched)
  {
    if HasRow(rows, med, sched) then
      var id :| id in rows && IsSlot(rows[id], med, sched);
      Some(id)
    else None
  }

  /** A freshly inserted row: only its key and its first pending reminder are set, every flag is clear. */
  function NewIntake(med: int, sched: int, next: Option<int>): Intake {
    Intake(med, sched, false, None, false, false, next, None)
  }

  /**
   * The guard of the backfill in ensure_intake_record: the existing row is untaken,
   * its reminders are not paused, none was sent, none is pending, and a default exists.
   */
  predicate Backfillable(row: Intake, dflt: Option<int>) {
    !row.taken && !row.remindersPaused && !row.reminderSent && row.nextReminderAt.None? && dflt.Some?
  }

  /** The table after ensure_intake_record, the new id counter and the id of the row returned. */
  datatype Ensured = Ensured(rows: Rows, nextId: int, id: int)

  /**
   * ensure_intake_record: insert the row unless its key exists (`ON CONFLICT DO NOTHING`);
   * otherwise fetch it and, when the backfill guard holds, set its `next_reminder_at`.
   * Ids serve only as keys here: a conflicting insert leaves `nextId` as it was, whereas the
   * database's serial would still be consumed; no property depends on ids being dense.
   */
  function EnsureRow(rows: Rows, nextId: int, med: int, sched: int, dflt: Option<int>): (e: Ensured)
    requires TableInv(rows, nextId)
    ensures TableInv(e.rows, e.nextId) && KeysKept(rows, e.rows)
    ensures e.id in e.rows && IsSlot(e.rows[e.id], med, sched)
    // a fresh row: the only new row, under the next serial id, carrying the default
    ensures !HasRow(rows, med, sched) ==>
              && e.id == nextId && e.nextId == nextId + 1
              && e.rows == rows[nextId := NewIntake(med, sched, dflt)]
    // an existing row: no row is added, and only its `next_reminder_at` may change
    ensures HasRow(rows, med, sched) ==>
              && e.nextId == nextId && e.id in rows
              && OnlyRowChanged(rows, e.rows, e.id)
              && e.rows[e.id] == rows[e.id].(nextReminderAt := e.rows[e.id].nextReminderAt)
              && (e.rows[e.id] != rows[e.id] ==> Backfillable(rows[e.id], dflt))
              && (Backfillable(rows[e.id], dflt) ==> e.rows[e.id].nextReminderAt == dflt)
  {
    match FindRow(rows, med, sched)
    case None =>
      var r := rows[nextId := NewIntake(med, sched, dflt)];
      assert forall id :: id in rows ==> r[id] == rows[id];
      Ensured(r, nextId + 1, nextId)
    case Some(id) =>
      var row := rows[id];
      if Backfillable(row, dflt) then
        Ensured(rows[id := row.(nextReminderAt := dflt)], nextId, id)
      else
        Ensured(rows, nextId, id)
  }

  /** Replacing one row by a row with the same key keeps the unique constraint and the id bound. */
  lemma UpdateKeepsTable(rows: Rows, nextId: int, id: int, row: Intake)
    requires TableInv(rows, nextId) && id in rows && SameKey(rows[id], row)
    ensures TableInv(rows[id := row], nextId)
    ensures OnlyRowChanged(rows, rows[id := row], id)
  {
  }

  /** mark_intake_taken: `taken`, `taken_at = NOW()`, no pending reminder; nothing when no row has that id. */
  function MarkTaken(rows: Rows, id: int, now: int): (r: Rows)
    ensures OnlyRowChanged(rows, r, id)
    ensures id in rows ==> r[id] == rows[id].(taken := true, takenAt := Some(now), nextReminderAt := None)
    ensures id !in rows ==> r == rows
  {
    if id in rows then rows[id := rows[id].(taken := true, takenAt := Some(now), nextReminderAt := None)]
    else rows
  }

  /** snooze_intake: the next reminder `minutes` after `now`, and reminders no longer paused. */
  function Snooze(rows: Rows, id: int, minutes: int, now: int): (r: Rows)
    ensures OnlyRowChanged(rows, r, id)
    ensures id in rows ==> r[id] == rows[id].(nextReminderAt := Some(now + minutes), remindersPaused := false)
    ensures id !in rows ==> r == rows
  {
    if id in rows then rows[id := rows[id].(nextReminderAt := Some(now + minutes), remindersPaused := false)]
    else rows
  }

  /** pause_intake_reminders: reminders paused and none pending. */
  function Pause(rows: Rows, id: int): (r: Rows)
    ensures OnlyRowChanged(rows, r, id)
    ensures id in rows ==> r[id] == rows[id].(remindersPaused := true, nextReminderAt := None)
    ensures id !in rows ==> r == rows
  {
    if id in rows then rows[id := rows[id].(remindersPaused := true, nextReminderAt := None)]
    else rows
  }

  /** The rows clear_future_intakes deletes: untaken rows of `med` scheduled at or after `cutoff`. */
  predicate Doomed(row: Intake, med: int, cutoff: int) {
    row.medicationId == med && row.scheduledAt >= cutoff && !row.taken
  }

  /** clear_future_intakes: deletes exactly the doomed rows and leaves every other row as it was. */
  function ClearFuture(rows: Rows, med: int, cutoff: int): (r: Rows)
    ensures forall id :: id in r <==> id in rows && !Doomed(rows[id], med, cutoff)
    ensures forall id :: id in r ==> r[id] == rows[id]
  {
    map id | id in rows && !Doomed(rows[id], med, cutoff) :: rows[id]
  }

  /** After the deletion every remaining row of `med` from `cutoff` on is taken, and the table invariant holds. */
  lemma ClearFutureLeavesTakenOnly(rows: Rows, nextId: int, med: int, cutoff: int)
    requires TableInv(rows, nextId)
    ensures TableInv(ClearFuture(rows, med, cutoff), nextId)
    ensures forall id :: (id in ClearFuture(rows, med, cutoff) && rows[id].medicationId == med
                          && rows[id].scheduledAt >= cutoff) ==> rows[id].taken
  {
  }

  /** Deleting twice deletes nothing more. */
  lemma ClearFutureIdempotent(rows: Rows, med: int, cutoff: int)
    ensures ClearFuture(ClearFuture(rows, med, cutoff), med, cutoff) == ClearFuture(rows, med, cutoff)
  {
  }

  /** get_intakes_for_day: the rows of `med` scheduled in the half-open interval `[start, end)`. */
  function DayIds(rows: Rows, med: int, start: int, end: int): (ids: set<int>)
    ensures forall id :: id in ids <==> id in rows && rows[id].medicationId == med
                                        && start <= rows[id].scheduledAt < end
  {
    set id | id in rows && rows[id].medicationId == med && start <= rows[id].scheduledAt < end
  }

  /** The untaken rows among `ids`: the `pending` list of callback_take_all. */
  function Pending(rows: Rows, ids: set<int>): (p: set<int>)
    ensures p <= ids
    ensures forall id :: id in p <==> id in ids && id in rows && !rows[id].taken
  {
    set id | id in ids && id in rows && !rows[id].taken
  }

  /** The taken rows among `ids`. */
  function TakenAmong(rows: Rows, ids: set<int>): (t: set<int>)
    ensures t <= ids
    ensures forall id :: id in t <==> id in ids && id in rows && rows[id].taken
  {
    set id | id in ids && id in rows && rows[id].taken
  }

  /** Every row in `ids` marked taken at `now`, as the take-all loop leaves the table. */
  function MarkAll(rows: Rows, ids: set<int>, now: int): (r: Rows)
    ensures r.Keys == rows.Keys
    ensures forall id :: id in rows && id !in ids ==> r[id] == rows[id]
    ensures forall id :: id in rows && id in ids ==> r[id] == MarkTaken(rows, id, now)[id]
  {
    map id | id in rows :: if id in ids then MarkTaken(rows, id, now)[id] else rows[id]
  }

  /** Marking one more row of the set, one at a time, builds MarkAll. */
  lemma MarkAllStep(rows: Rows, done: set<int>, id: int, now: int)
    requires id !in done
    ensures MarkTaken(MarkAll(rows, done, now), id, now) == MarkAll(rows, done + {id}, now)
  {
  }

  /** Marking the pending rows of a day leaves every row of that day taken and adds no row. */
  lemma MarkAllPendingTakesDay(rows: Rows, nextId: int, ids: set<int>, now: int)
    requires TableInv(rows, nextId) && ids <= rows.Keys
    ensures var r := MarkAll(rows, Pending(rows, ids), now);
      && TableInv(r, nextId)
      && (forall id :: id in ids ==> r[id].taken)
      && Pending(r, ids) == {}
      && (forall id :: id in ids && rows[id].taken ==> r[id] == rows[id])
  {
    var r := MarkAll(rows, Pending(rows, ids), now);
    assert forall a :: a in rows ==> SameKey(rows[a], r[a]);
  }
}
