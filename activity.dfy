/**
 * Medication activity: pausing and resuming a medication (set_medication_active)
 * and the automatic resume pass (resume_due_medications), which reactivates every
 * paused medication whose pause has run out and drops its future untaken intakes
 * so that the schedule regenerates from now on.
 */
module Activity {
  import opened Wrappers
  import opened Records
  import opened Intakes

  /**
   * set_medication_active on a medication row: the new flag; a pause end is kept
   * only when deactivating, activating clears it.
   */
  function Activated(med: Medication, active: bool, pausedUntil: Option<int>): (r: Medication)
    ensures r.isActive == active
    ensures r.pausedUntil == (if active then None else pausedUntil)
    ensures r == med.(isActive := r.isActive, pausedUntil := r.pausedUntil)
  {
    med.(isActive := active, pausedUntil := if active then None else pausedUntil)
  }

  /** The statement matches a row only when both the id and the owner match. */
  function SetActive(meds: map<int, Medication>, medId: int, userId: int, active: bool,
                     pausedUntil: Option<int>): (r: map<int, Medication>)
    ensures r.Keys == meds.Keys
    ensures forall id :: id in meds && id != medId ==> r[id] == meds[id]
    ensures medId in meds && meds[medId].userId == userId ==> r[medId] == Activated(meds[medId], active, pausedUntil)
    ensures !(medId in meds && meds[medId].userId == userId) ==> r == meds
  {
    if medId in meds && meds[medId].userId == userId then meds[medId := Activated(meds[medId], active, pausedUntil)]
    else meds
  }

  /** A medication the resume pass picks up: inactive, its pause over at `now`, its owner present (the join). */
  predicate ResumeDue(med: Medication, users: map<int, User>, now: int) {
    !med.isActive && med.pausedUntil.Some? && med.pausedUntil.value <= now && med.userId in users
  }

  function DueForResume(meds: map<int, Medication>, users: map<int, User>, now: int): (due: set<int>)
    ensures forall id :: id in due <==> id in meds && ResumeDue(meds[id], users, now)
  {
    set id | id in meds && ResumeDue(meds[id], users, now)
  }

  /** The medications after every medication of `ids` was activated. */
  function ResumeAll(meds: map<int, Medication>, ids: set<int>): (r: map<int, Medication>)
    ensures r.Keys == meds.Keys
    ensures forall id :: id in meds ==> r[id] == if id in ids then Activated(meds[id], true, None) else meds[id]
  {
    map id | id in meds :: if id in ids then Activated(meds[id], true, None) else meds[id]
  }

  /** The intakes after clear_future_intakes ran for every medication of `ids` with the same cutoff. */
  function ClearFutureAll(rows: Rows, ids: set<int>, cutoff: int): (r: Rows)
    ensures forall id :: id in r <==> id in rows && !(rows[id].medicationId in ids && Doomed(rows[id], rows[id].medicationId, cutoff))
    ensures forall id :: id in r ==> r[id] == rows[id]
  {
    map id | id in rows && !(rows[id].medicationId in ids && Doomed(rows[id], rows[id].medicationId, cutoff)) :: rows[id]
  }

  /** Before the pass has resumed anything, nothing has changed. */
  lemma NothingResumedYet(meds: map<int, Medication>, rows: Rows, cutoff: int)
    ensures ResumeAll(meds, {}) == meds && ClearFutureAll(rows, {}, cutoff) == rows
  {
    assert ResumeAll(meds, {}).Keys == meds.Keys;
    assert ClearFutureAll(rows, {}, cutoff).Keys == rows.Keys;
  }

  /** One more medication of the pass: activating it is the next step of ResumeAll. */
  lemma ResumeStep(meds: map<int, Medication>, done: set<int>, id: int)
    requires id in meds && id !in done
    ensures SetActive(ResumeAll(meds, done), id, meds[id].userId, true, None) == ResumeAll(meds, done + {id})
  {
  }

  /** ... and clearing its future intakes is the next step of ClearFutureAll, in whatever order the pass goes. */
  lemma ClearStep(rows: Rows, done: set<int>, med: int, cutoff: int)
    ensures ClearFuture(ClearFutureAll(rows, done, cutoff), med, cutoff) == ClearFutureAll(rows, done + {med}, cutoff)
  {
  }

  /**
   * The resume pass reactivates exactly the due medications: afterwards none is due,
   * the resumed ones are active with no pause end, and every other medication is unchanged.
   */
  lemma ResumeLeavesNoneDue(meds: map<int, Medication>, users: map<int, User>, now: int)
    ensures var due := DueForResume(meds, users, now);
      var r := ResumeAll(meds, due);
      && DueForResume(r, users, now) == {}
      && (forall id :: id in due ==> r[id].isActive && r[id].pausedUntil.None?)
      && (forall id :: id in meds && id !in due ==> r[id] == meds[id])
  {
  }

  /** Clearing keeps the table invariant and never touches a taken row or a row before the cutoff. */
  lemma ClearFutureAllKeeps(rows: Rows, nextId: int, ids: set<int>, cutoff: int)
    requires TableInv(rows, nextId)
    ensures var r := ClearFutureAll(rows, ids, cutoff);
      && TableInv(r, nextId)
      && (forall id :: id in rows && (rows[id].taken || rows[id].scheduledAt < cutoff) ==> id in r && r[id] == rows[id])
  {
  }
}
