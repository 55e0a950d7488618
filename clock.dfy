/**
 * Time resolution (main.py, "Работа со временем"): zones, local days and the
 * `HH:MM` clock strings medication schedules are stored as.
 *
 * Instants are integer minutes on a single absolute (UTC) axis; a local date is an
 * integer day number. A zone is abstract: `toUtc(day, minuteOfDay)` is what
 * `datetime(..., tzinfo=zone).astimezone(timezone.utc)` gives, and `toLocal(instant)`
 * what `dt.astimezone(zone)` gives. Nothing is assumed about DST behaviour.
 */
module Clock {
  import opened Wrappers
  import opened Text

  /** A local wall-clock reading: a day number and the minute within that day. */
  datatype LocalDateTime = LocalDateTime(day: int, minute: int) {
    /** `datetime.hour` of the reading. */
    function Hour(): int {
      minute / 60
    }
  }

  datatype Zone = Zone(toUtc: (int, int) -> int, toLocal: int -> LocalDateTime)

  /**
   * resolve_timezone: an empty or absent name, or a name the zone database does not
   * know, falls back to the default zone; `known` is the zone database.
   */
  function ResolveTimezone(name: Option<string>, known: map<string, Zone>, fallback: Zone): (z: Zone)
    ensures (name.None? || name.value == "" || name.value !in known) ==> z == fallback
    ensures name.Some? && name.value != "" && name.value in known ==> z == known[name.value]
  {
    match name
    case None => fallback
    case Some(n) => if n == "" then fallback else if n in known then known[n] else fallback
  }

  /**
   * The zone's wall clock runs forward: a later local reading (day, minute of day) is a
   * later instant. A zone with a daylight-saving fold or gap does not satisfy it.
   */
  ghost predicate Monotone(zone: Zone) {
    forall d1, m1, d2, m2 :: 0 <= m1 < 1440 && 0 <= m2 < 1440 && (d1 < d2 || (d1 == d2 && m1 < m2))
                            ==> zone.toUtc(d1, m1) < zone.toUtc(d2, m2)
  }

  /**
   * `toLocal` agrees with `toUtc` at `now`: the reading shown at `now` began at or before
   * `now`, and the next minute's reading has not begun yet.
   */
  ghost predicate ShowsAt(zone: Zone, now: int) {
    && 0 <= zone.toLocal(now).minute < 1440
    && zone.toUtc(zone.toLocal(now).day, zone.toLocal(now).minute) <= now
    && now < (if zone.toLocal(now).minute < 1439
              then zone.toUtc(zone.toLocal(now).day, zone.toLocal(now).minute + 1)
              else zone.toUtc(zone.toLocal(now).day + 1, 0))
  }

  /** get_local_today: the local calendar date of `now` in `zone`; `now` lies inside that day's bounds. */
  function LocalToday(zone: Zone, now: int): (d: int)
    ensures Monotone(zone) && ShowsAt(zone, now) ==> DayBoundsUtc(d, zone).0 <= now < DayBoundsUtc(d, zone).1
  {
    zone.toLocal(now).day
  }

  /** A stored schedule time: exactly `HH:MM`, hour below 24, minute below 60. */
  predicate IsClock(t: string) {
    && |t| == 5
    && t[2] == ':'
    && AllDigits(t[..2]) && AllDigits(t[3..])
    && DecimalValue(t[..2]) < 24 && DecimalValue(t[3..]) < 60
  }

  predicate AllClock(times: seq<string>) {
    forall i :: 0 <= i < |times| ==> IsClock(times[i])
  }

  /** The two-digit rendering `strftime("%H:%M")` gives for a minute of the day. */
  function ClockText(minuteOfDay: int): (t: string)
    requires 0 <= minuteOfDay < 1440
    ensures IsClock(t) && MinuteOfDay(t) == minuteOfDay
  {
    var t := Pad2(minuteOfDay / 60) + ":" + Pad2(minuteOfDay % 60);
    assert t[..2] == Pad2(minuteOfDay / 60) && t[3..] == Pad2(minuteOfDay % 60);
    t
  }

  /** `hour * 60 + minute` of an `HH:MM` string, as `map(int, time_str.split(":"))` reads it. */
  function MinuteOfDay(t: string): (m: int)
    requires IsClock(t)
    ensures 0 <= m < 1440
  {
    DecimalValue(t[..2]) * 60 + DecimalValue(t[3..])
  }

  /** Every stored clock string is the rendering of its own minute of day. */
  lemma ClockTextOfMinute(t: string)
    requires IsClock(t)
    ensures ClockText(MinuteOfDay(t)) == t
    ensures ClockText(DecimalValue(t[..2]) * 60 + DecimalValue(t[3..])) == t
  {
    var h, m := DecimalValue(t[..2]), DecimalValue(t[3..]);
    assert MinuteOfDay(t) / 60 == h && MinuteOfDay(t) % 60 == m;
    Pad2OfValue(t[..2]);
    Pad2OfValue(t[3..]);
    assert t == t[..2] + ":" + t[3..];
  }

  /**
   * local_time_to_utc: the instant at which the wall clock of `zone` shows `t` on `day`;
   * it lies inside that day's bounds.
   */
  function LocalTimeToUtc(day: int, t: string, zone: Zone): (r: int)
    requires IsClock(t)
    ensures Monotone(zone) ==> DayBoundsUtc(day, zone).0 <= r < DayBoundsUtc(day, zone).1
  {
    zone.toUtc(day, MinuteOfDay(t))
  }

  /** `to_local(dt, zone).strftime("%H:%M")`, the time shown next to an intake. */
  function LocalClockText(zone: Zone, instant: int): string {
    var local := zone.toLocal(instant);
    if 0 <= local.minute < 1440 then ClockText(local.minute) else ""
  }

  /** The zone reads `(day, minute)` back from the instant it maps it to (false inside a DST gap). */
  ghost predicate ReadsBack(zone: Zone, day: int, minute: int) {
    zone.toLocal(zone.toUtc(day, minute)) == LocalDateTime(day, minute)
  }

  /**
   * Converting a stored schedule time to an absolute instant and back to the zone's
   * local `HH:MM` gives the original string, wherever the zone reads the local time back.
   */
  lemma {:induction false} LocalTimeRoundTrip(day: int, t: string, zone: Zone)
    requires IsClock(t) && ReadsBack(zone, day, MinuteOfDay(t))
    ensures zone.toLocal(LocalTimeToUtc(day, t, zone)).day == day
    ensures LocalClockText(zone, LocalTimeToUtc(day, t, zone)) == t
  {
    ClockTextOfMinute(t);
  }

  /** get_day_bounds_local: local midnight of `day` and, a calendar day later, local midnight of `day + 1`. */
  function DayBoundsLocal(day: int): (b: (LocalDateTime, LocalDateTime))
    ensures b.0.minute == 0 && b.1.minute == 0
    ensures b.0.day == day && b.1.day == day + 1
  {
    (LocalDateTime(day, 0), LocalDateTime(day + 1, 0))
  }

  /** get_day_bounds_utc: the absolute half-open interval `[start, end)` of the local day. */
  function DayBoundsUtc(day: int, zone: Zone): (b: (int, int))
    ensures b.0 == zone.toUtc(DayBoundsLocal(day).0.day, DayBoundsLocal(day).0.minute)
    ensures b.1 == zone.toUtc(DayBoundsLocal(day).1.day, DayBoundsLocal(day).1.minute)
  {
    var local := DayBoundsLocal(day);
    (zone.toUtc(local.0.day, local.0.minute), zone.toUtc(local.1.day, local.1.minute))
  }

  /** Consecutive local days tile the absolute axis: each day ends where the next begins. */
  lemma DayBoundsContiguous(day: int, zone: Zone)
    ensures DayBoundsUtc(day, zone).1 == DayBoundsUtc(day + 1, zone).0
  {
  }

  /** A schedule time's instant lies inside the bounds of its own local day and of no other. */
  lemma SlotOnlyInItsDay(day: int, t: string, zone: Zone, other: int)
    requires IsClock(t) && Monotone(zone)
    ensures DayBoundsUtc(other, zone).0 <= LocalTimeToUtc(day, t, zone) < DayBoundsUtc(other, zone).1
            <==> other == day
  {
    var m := MinuteOfDay(t);
    if other < day {
      assert zone.toUtc(other + 1, 0) <= zone.toUtc(day, m) by {
        if other + 1 < day || m > 0 {
          assert zone.toUtc(other + 1, 0) < zone.toUtc(day, m);
        }
      }
    } else if other > day {
      assert zone.toUtc(day, m) < zone.toUtc(other, 0);
    }
  }
}
