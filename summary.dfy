/**
 * The daily summary: per-medication taken/total counts over the owner's local day
 * (send_summary_for_user), and the once-per-local-day gate of the summary pass
 * over the `SUMMARY_STATE` map (maybe_send_daily_summary).
 */
module Summary {
  import opened Wrappers
  import opened Text
  import opened Clock
  import opened Records
  import opened Intakes

  // ---------------------------------------------------------------------------
  // get_user_medications

  predicate StrictlyIncreasing(s: seq<int>) {
    forall i, j :: 0 <= i < j < |s| ==> s[i] < s[j]
  }

  lemma NonEmptyHasMember(s: set<int>)
    requires |s| > 0
    ensures exists x :: x in s
  {
    if forall x :: x !in s {
      assert false;
    }
  }

  /** A non-empty finite set of ids has a least element. */
  lemma {:induction false} MinExists(s: set<int>)
    requires |s| > 0
    ensures exists m :: m in s && forall x :: x in s ==> m <= x
    decreases |s|
  {
    NonEmptyHasMember(s);
    var y :| y in s;
    var rest := s - {y};
    if |rest| == 0 {
      assert forall x :: x in s ==> x == y || x in rest;
    } else {
      MinExists(rest);
      var m :| m in rest && forall x :: x in rest ==> m <= x;
      var least := if y < m then y else m;
      forall x | x in s
        ensures least <= x
      {
        if x != y {
          assert x in rest;
        }
      }
    }
  }

  /** The least id of a non-empty set. */
  function SetMin(s: set<int>): (m: int)
    requires s != {}
    ensures m in s && forall x :: x in s ==> m <= x
    ensures forall x :: x in s - {m} ==> m < x
  {
    MinExists(s);
    var m :| m in s && forall x :: x in s ==> m <= x;
    m
  }

  /** The ids of `s` in ascending order, as `ORDER BY id` lists them. */
  function OrderById(s: set<int>): (r: seq<int>)
    ensures |r| == |s| && StrictlyIncreasing(r)
    ensures forall x :: x in r <==> x in s
    decreases |s|
  {
    if s == {} then []
    else
      var m := SetMin(s);
      var rest := OrderById(s - {m});
      PrependLeast(m, rest, s - {m});
      [m] + rest
  }

  /** Putting an id below all others in front of an ascending listing keeps it ascending. */
  lemma PrependLeast(m: int, rest: seq<int>, others: set<int>)
    requires StrictlyIncreasing(rest) && (forall x :: x in rest <==> x in others)
    requires forall x :: x in others ==> m < x
    ensures StrictlyIncreasing([m] + rest)
    ensures forall x :: x in [m] + rest <==> x == m || x in others
  {
    var r := [m] + rest;
    forall i, j | 0 <= i < j < |r|
      ensures r[i] < r[j]
    {
      assert r[j] == rest[j - 1] && rest[j - 1] in rest;
      if i > 0 {
        assert r[i] == rest[i - 1];
      }
    }
  }

  /** get_user_medications without inactive ones: the owner's active medications by ascending id. */
  function ActiveMedIds(meds: map<int, Medication>, userId: int): (r: seq<int>)
    ensures StrictlyIncreasing(r)
    ensures forall id :: id in r <==> id in meds && meds[id].userId == userId && meds[id].isActive
  {
    OrderById(set id | id in meds && meds[id].userId == userId && meds[id].isActive)
  }

  // ---------------------------------------------------------------------------
  // send_summary_for_user

  /** One line of the report: a medication, how many of today's intakes were taken, how many there are. */
  datatype SummaryLine = SummaryLine(name: string, taken: nat, total: nat)

  /** `missed = total - taken`. */
  function LineMissed(l: SummaryLine): int {
    l.total - l.taken
  }

  /** The report line as it is shown: `- name: taken/total`, then the missed count when there is one. */
  function LineText(l: SummaryLine): string {
    "- " + l.name + ": " + IntToString(l.taken) + "/" + IntToString(l.total)
    + (if LineMissed(l) != 0 then " (пропущено " + IntToString(LineMissed(l)) + ")" else "")
  }

  /** The missed count is shown exactly when something was missed: only then does the line end in `)`. */
  lemma LineTextShowsMissed(l: SummaryLine)
    ensures |LineText(l)| > 0
    ensures LineText(l)[|LineText(l)| - 1] == ')' <==> LineMissed(l) != 0
  {
    var text := LineText(l);
    if LineMissed(l) == 0 {
      var total := IntToString(l.total);
      assert text == "- " + l.name + ": " + IntToString(l.taken) + "/" + total;
      assert text[|text| - 1] == total[|total| - 1];
      assert IsDigit(total[|total| - 1]);
    } else {
      assert text == "- " + l.name + ": " + IntToString(l.taken) + "/" + IntToString(l.total)
                     + " (пропущено " + IntToString(LineMissed(l)) + ")";
    }
  }

  /** The line of medication `id` for the day `[start, end)`, or none when it has no intake that day. */
  function MedLine(rows: Rows, meds: map<int, Medication>, id: int, start: int, end: int): (r: Option<SummaryLine>)
    requires id in meds
    ensures r.None? <==> DayIds(rows, id, start, end) == {}
    ensures r.Some? ==> && r.value.name == meds[id].name
                        && r.value.total == |DayIds(rows, id, start, end)|
                        && r.value.taken == |TakenAmong(rows, DayIds(rows, id, start, end))|
                        && 0 <= LineMissed(r.value) == |Pending(rows, DayIds(rows, id, start, end))|
  {
    var ids := DayIds(rows, id, start, end);
    if |ids| == 0 then None
    else
      TakenPendingSplit(rows, ids);
      Some(SummaryLine(meds[id].name, |TakenAmong(rows, ids)|, |ids|))
  }

  /** A day's rows split into taken and pending ones, so the taken count never exceeds the total. */
  lemma TakenPendingSplit(rows: Rows, ids: set<int>)
    requires ids <= rows.Keys
    ensures |TakenAmong(rows, ids)| + |Pending(rows, ids)| == |ids|
  {
    assert TakenAmong(rows, ids) + Pending(rows, ids) == ids;
    assert TakenAmong(rows, ids) * Pending(rows, ids) == {};
  }

  /** The loop over the owner's medications: one line per medication with intakes that day. */
  function SummaryLines(rows: Rows, meds: map<int, Medication>, order: seq<int>, start: int, end: int)
    : (r: seq<SummaryLine>)
    requires forall i :: 0 <= i < |order| ==> order[i] in meds
    ensures |r| <= |order|
    ensures forall k :: 0 <= k < |r| ==> 1 <= r[k].total && 0 <= LineMissed(r[k])
    decreases |order|
  {
    if |order| == 0 then []
    else
      var prev := SummaryLines(rows, meds, order[..|order| - 1], start, end);
      match MedLine(rows, meds, order[|order| - 1], start, end)
      case None => prev
      case Some(l) => prev + [l]
  }

  /** One more medication of the listing adds its line, if it has one. */
  lemma SummaryLinesStep(rows: Rows, meds: map<int, Medication>, order: seq<int>, k: int, start: int, end: int)
    requires 0 <= k < |order| && forall i :: 0 <= i < |order| ==> order[i] in meds
    ensures var prev := SummaryLines(rows, meds, order[..k], start, end);
      SummaryLines(rows, meds, order[..k + 1], start, end)
      == match MedLine(rows, meds, order[k], start, end)
         case None => prev
         case Some(l) => prev + [l]
  {
    assert order[..k + 1][..k] == order[..k];
  }

  /** The sum of the missed counts, what the `missed` counter grows by. */
  function TotalMissed(lines: seq<SummaryLine>): int {
    if |lines| == 0 then 0 else TotalMissed(lines[..|lines| - 1]) + LineMissed(lines[|lines| - 1])
  }

  /** Appending a line adds its missed count. */
  lemma TotalMissedAppend(lines: seq<SummaryLine>, l: SummaryLine)
    ensures TotalMissed(lines + [l]) == TotalMissed(lines) + LineMissed(l)
  {
    assert (lines + [l])[..|lines|] == lines;
  }

  lemma {:induction false} TotalMissedNonNegative(lines: seq<SummaryLine>)
    requires forall k :: 0 <= k < |lines| ==> 0 <= LineMissed(lines[k])
    ensures TotalMissed(lines) >= 0
    decreases |lines|
  {
    if |lines| > 0 {
      TotalMissedNonNegative(lines[..|lines| - 1]);
    }
  }

  /** The report has a line exactly when some medication of the listing had an intake that day. */
  lemma {:induction false} LinesExistIffIntakes(rows: Rows, meds: map<int, Medication>, order: seq<int>,
                                                start: int, end: int)
    requires forall i :: 0 <= i < |order| ==> order[i] in meds
    ensures |SummaryLines(rows, meds, order, start, end)| > 0
            <==> exists i :: 0 <= i < |order| && DayIds(rows, order[i], start, end) != {}
    decreases |order|
  {
    if |order| > 0 {
      var n := |order|;
      var init := order[..n - 1];
      LinesExistIffIntakes(rows, meds, init, start, end);
      if exists i :: 0 <= i < n && DayIds(rows, order[i], start, end) != {} {
        var i :| 0 <= i < n && DayIds(rows, order[i], start, end) != {};
        if i < n - 1 {
          assert init[i] == order[i];
        }
      } else {
        assert forall i :: 0 <= i < n - 1 ==> init[i] == order[i];
      }
    }
  }

  /** Each line is the line of a distinct listed medication, in listing order: lines are never invented. */
  lemma {:induction false} LinesAreMedLines(rows: Rows, meds: map<int, Medication>, order: seq<int>,
                                            start: int, end: int, k: int)
    requires forall i :: 0 <= i < |order| ==> order[i] in meds
    requires 0 <= k < |SummaryLines(rows, meds, order, start, end)|
    ensures exists i :: 0 <= i < |order| && MedLine(rows, meds, order[i], start, end)
                          == Some(SummaryLines(rows, meds, order, start, end)[k])
    decreases |order|
  {
    var n := |order|;
    var init := order[..n - 1];
    var prev := SummaryLines(rows, meds, init, start, end);
    var all := SummaryLines(rows, meds, order, start, end);
    assert all == prev || all == prev + [MedLine(rows, meds, order[n - 1], start, end).value];
    if k < |prev| {
      LinesAreMedLines(rows, meds, init, start, end, k);
      var i :| 0 <= i < |init| && MedLine(rows, meds, init[i], start, end) == Some(prev[k]);
      assert order[i] == init[i] && all[k] == prev[k];
      assert MedLine(rows, meds, order[i], start, end) == Some(all[k]);
    } else {
      assert MedLine(rows, meds, order[n - 1], start, end) == Some(all[k]);
    }
  }

  /** What send_summary_for_user decides: whether it reported, the lines, and how much it adds to `missed`. */
  datatype SummaryOutcome = SummaryOutcome(sent: bool, lines: seq<SummaryLine>, missed: int)

  /**
   * The summary for a user at `now`: lines over the owner's local day; the missed counts
   * are added whether or not the message then goes out; a report without lines is never sent.
   */
  function UserSummary(rows: Rows, meds: map<int, Medication>, user: User, userId: int, cfg: Config,
                       now: int, delivered: bool): (r: SummaryOutcome)
    ensures r.sent ==> |r.lines| > 0 && delivered
    ensures r.missed >= 0
  {
    var zone := UserZone(user, cfg);
    var bounds := DayBoundsUtc(LocalToday(zone, now), zone);
    var lines := SummaryLines(rows, meds, ActiveMedIds(meds, userId), bounds.0, bounds.1);
    TotalMissedNonNegative(lines);
    SummaryOutcome(|lines| > 0 && delivered, lines, TotalMissed(lines))
  }

  // ---------------------------------------------------------------------------
  // maybe_send_daily_summary

  /** The summary pass's state: `SUMMARY_STATE` (user id to the local date last reported) and the counters. */
  datatype PassState = PassState(reported: map<int, int>, metrics: Metrics)

  /** The gate of the pass: the local hour has reached `SUMMARY_HOUR` and today was not reported yet. */
  predicate SummaryDue(reported: map<int, int>, userId: int, local: LocalDateTime, summaryHour: int) {
    local.Hour() >= summaryHour && !(userId in reported && reported[userId] == local.day)
  }

  /** Recording today for a user closes that user's gate for the rest of the local day. */
  lemma RecordingClosesGate(reported: map<int, int>, userId: int, local: LocalDateTime, summaryHour: int,
                            later: LocalDateTime)
    requires later.day == local.day
    ensures !SummaryDue(reported[userId := local.day], userId, later, summaryHour)
  {
  }

  /** One user of the pass: a user past the gate gets a summary; today is recorded only when it was sent. */
  function PassUser(ps: PassState, rows: Rows, meds: map<int, Medication>, users: map<int, User>, userId: int,
                    cfg: Config, now: int, delivered: int -> bool): (r: PassState)
    requires userId in users
    ensures MetricsGrow(ps.metrics, r.metrics) && r.metrics == ps.metrics.(missed := r.metrics.missed)
    // today is recorded exactly when the gate was open and the summary went out
    ensures var local := UserZone(users[userId], cfg).toLocal(now);
      var out := UserSummary(rows, meds, users[userId], userId, cfg, now, delivered(userId));
      && ((SummaryDue(ps.reported, userId, local, cfg.summaryHour) && out.sent) ==>
            r.reported == ps.reported[userId := local.day])
      && (!(SummaryDue(ps.reported, userId, local, cfg.summaryHour) && out.sent) ==> r.reported == ps.reported)
      && (!SummaryDue(ps.reported, userId, local, cfg.summaryHour) ==> r == ps)
  {
    var local := UserZone(users[userId], cfg).toLocal(now);
    if !SummaryDue(ps.reported, userId, local, cfg.summaryHour) then ps
    else
      var out := UserSummary(rows, meds, users[userId], userId, cfg, now, delivered(userId));
      var metrics := ps.metrics.(missed := ps.metrics.missed + out.missed);
      if out.sent then PassState(ps.reported[userId := local.day], metrics)
      else PassState(ps.reported, metrics)
  }

  /** The loop over `get_all_users()`, in the order the query returned them. */
  function SummaryPass(ps: PassState, rows: Rows, meds: map<int, Medication>, users: map<int, User>,
                       order: seq<int>, cfg: Config, now: int, delivered: int -> bool): (r: PassState)
    requires forall i :: 0 <= i < |order| ==> order[i] in users
    decreases |order|
  {
    if |order| == 0 then ps
    else
      var prev := SummaryPass(ps, rows, meds, users, order[..|order| - 1], cfg, now, delivered);
      PassUser(prev, rows, meds, users, order[|order| - 1], cfg, now, delivered)
  }

  /** One more user of the listing is one more PassUser step. */
  lemma SummaryPassStep(ps: PassState, rows: Rows, meds: map<int, Medication>, users: map<int, User>,
                        order: seq<int>, i: int, cfg: Config, now: int, delivered: int -> bool)
    requires 0 <= i < |order| && forall j :: 0 <= j < |order| ==> order[j] in users
    ensures SummaryPass(ps, rows, meds, users, order[..i + 1], cfg, now, delivered)
            == PassUser(SummaryPass(ps, rows, meds, users, order[..i], cfg, now, delivered),
                        rows, meds, users, order[i], cfg, now, delivered)
  {
    assert order[..i + 1][..i] == order[..i];
  }

  /** The local date of `now` for a user. */
  function UserToday(users: map<int, User>, userId: int, cfg: Config, now: int): int
    requires userId in users
  {
    UserZone(users[userId], cfg).toLocal(now).day
  }

  /**
   * A pass only ever records today's date, and only for users it sent to; every other
   * entry of `SUMMARY_STATE` is left as it was, and no counter but `missed` moves.
   */
  lemma {:induction false} PassRecordsToday(ps: PassState, rows: Rows, meds: map<int, Medication>,
                                            users: map<int, User>, order: seq<int>, cfg: Config, now: int,
                                            delivered: int -> bool)
    requires forall i :: 0 <= i < |order| ==> order[i] in users
    ensures var r := SummaryPass(ps, rows, meds, users, order, cfg, now, delivered);
      && ps.reported.Keys <= r.reported.Keys
      && (forall u :: u in r.reported && (u !in ps.reported || r.reported[u] != ps.reported[u]) ==>
            u in order && u in users && r.reported[u] == UserToday(users, u, cfg, now) && delivered(u))
      && MetricsGrow(ps.metrics, r.metrics)
      && r.metrics == ps.metrics.(missed := r.metrics.missed)
    decreases |order|
  {
    if |order| > 0 {
      var init := order[..|order| - 1];
      PassRecordsToday(ps, rows, meds, users, init, cfg, now, delivered);
      var r := SummaryPass(ps, rows, meds, users, order, cfg, now, delivered);
      var prev := SummaryPass(ps, rows, meds, users, init, cfg, now, delivered);
      forall u | u in r.reported && (u !in ps.reported || r.reported[u] != ps.reported[u])
        ensures u in order && u in users && r.reported[u] == UserToday(users, u, cfg, now) && delivered(u)
      {
        if u in prev.reported && prev.reported[u] == r.reported[u] {
          var i :| 0 <= i < |init| && init[i] == u;
          assert order[i] == u;
        }
      }
    }
  }

  /**
   * Once a user's summary for today is recorded, a pass at any instant of that same
   * local day leaves the user alone: at most one summary per user per local day.
   */
  lemma AlreadyReportedIsSkipped(ps: PassState, rows: Rows, meds: map<int, Medication>, users: map<int, User>,
                                 userId: int, cfg: Config, now: int, delivered: int -> bool)
    requires userId in users && userId in ps.reported && ps.reported[userId] == UserToday(users, userId, cfg, now)
    ensures PassUser(ps, rows, meds, users, userId, cfg, now, delivered) == ps
  {
  }

  /** Before `SUMMARY_HOUR` local time nothing is reported. */
  lemma EarlyIsSkipped(ps: PassState, rows: Rows, meds: map<int, Medication>, users: map<int, User>,
                       userId: int, cfg: Config, now: int, delivered: int -> bool)
    requires userId in users && UserZone(users[userId], cfg).toLocal(now).Hour() < cfg.summaryHour
    ensures PassUser(ps, rows, meds, users, userId, cfg, now, delivered) == ps
  {
  }
}
