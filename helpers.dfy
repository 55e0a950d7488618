/**
 * The pure helpers of main.py: lead-time clamping, language choice, `HH:MM`
 * normalisation of typed times, the snooze-interval label and the period labels
 * used to show a medication's schedule.
 */
module Helpers {
  import opened Wrappers
  import opened Text
  import opened Clock
  import opened Records

  function Max(a: int, b: int): int {
    if a >= b then a else b
  }

  function Min(a: int, b: int): int {
    if a <= b then a else b
  }

  /** `max(1, min(180, minutes))`: the lead-time clamp of get_remind_before and update_user_remind_before. */
  function ClampLead(minutes: int): (r: int)
    ensures 1 <= r <= 180
    ensures 1 <= minutes <= 180 ==> r == minutes
    ensures minutes < 1 ==> r == 1
    ensures minutes > 180 ==> r == 180
  {
    Max(1, Min(180, minutes))
  }

  /**
   * get_remind_before: a stored integer is clamped into [1, 180]; a NULL column makes
   * `int(None)` raise, and the configured default is returned as it is, unclamped.
   */
  function GetRemindBefore(stored: Option<int>, configured: int): (r: int)
    ensures stored.Some? ==> 1 <= r <= 180 && r == ClampLead(stored.value)
    ensures stored.None? ==> r == configured
  {
    match stored
    case Some(v) => ClampLead(v)
    case None => configured
  }

  /** A lead time written by update_user_remind_before is read back unchanged by get_remind_before. */
  lemma RemindBeforeRoundTrip(minutes: int, configured: int)
    ensures GetRemindBefore(Some(ClampLead(minutes)), configured) == ClampLead(minutes)
  {
  }

  const LanguageOptions: set<string> := {"ru", "en"}

  /**
   * get_language_for_user: the lower-cased stored language when it is one of the
   * supported codes; otherwise (absent, empty or unsupported) Russian.
   */
  function GetLanguageForUser(language: Option<string>): (r: string)
    ensures r in LanguageOptions
    ensures language.Some? && language.value != "" && Lower(language.value) in LanguageOptions
            ==> r == Lower(language.value)
    ensures !(language.Some? && language.value != "" && Lower(language.value) in LanguageOptions)
            ==> r == "ru"
  {
    var lang := Lower(if language.Some? && language.value != "" then language.value else "ru");
    if lang in LanguageOptions then lang else "ru"
  }

  // ---------------------------------------------------------------------------
  // normalize_time_input

  /** `raw.strip().lower().replace(" ", "").replace(".", ":")`. */
  function CleanTimeInput(raw: string): string {
    ReplaceChar(RemoveChar(Lower(Strip(raw)), ' '), '.', ':')
  }

  /** Digit-only input of length 4, 3 or 2 gets its colon: `0930`, `930`, `09`. */
  function ExpandDigits(clean: string): string {
    if ':' !in clean && |clean| > 0 && AllDigits(clean) then
      if |clean| == 4 then clean[..2] + ":" + clean[2..]
      else if |clean| == 3 then "0" + clean[..1] + ":" + clean[1..]
      else if |clean| == 2 then clean + ":00"
      else clean
    else clean
  }

  /** One `strptime` field: one digit, or two digits whose value is at most `max`. */
  function ParseField(s: string, max: nat): (r: Option<nat>)
    ensures r.Some? ==> r.value <= max
  {
    if 1 <= |s| <= 2 && AllDigits(s) && DecimalValue(s) <= max then Some(DecimalValue(s)) else None
  }

  /**
   * `datetime.strptime(s, "%H:%M")`: `%H` matches `2[0-3]|[0-1]\d|\d`, `%M` matches
   * `[0-5]\d|\d`, and nothing may follow the minutes.
   */
  function ParseClock(s: string): (r: Option<(nat, nat)>)
    ensures r.Some? ==> r.value.0 < 24 && r.value.1 < 60
  {
    var colon := if |s| >= 2 && s[1] == ':' then 1 else if |s| >= 3 && s[2] == ':' then 2 else 0;
    if colon == 0 then None
    else
      match (ParseField(s[..colon], 23), ParseField(s[colon + 1..], 59))
      case (Some(h), Some(m)) => Some((h, m))
      case _ => None
  }

  /** normalize_time_input: a typed time as the canonical `HH:MM`, or `None` when it is not a time. */
  function NormalizeTimeInput(raw: string): (r: Option<string>)
    ensures r.Some? ==> IsClock(r.value)
  {
    if raw == "" then None
    else
      match ParseClock(ExpandDigits(CleanTimeInput(raw)))
      case None => None
      case Some(hm) => Some(ClockText(hm.0 * 60 + hm.1))
  }

  /** Input made only of digits, colons and dots: what stripping, lower-casing and space removal leave alone. */
  predicate PlainTimeChars(s: string) {
    forall i :: 0 <= i < |s| ==> IsDigit(s[i]) || s[i] == ':' || s[i] == '.'
  }

  lemma StripPlain(s: string)
    requires PlainTimeChars(s)
    ensures Strip(s) == s
  {
    assert forall i :: 0 <= i < |s| ==> !IsSpace(s[i]);
  }

  lemma LowerPlain(s: string)
    requires PlainTimeChars(s)
    ensures Lower(s) == s
  {
  }

  lemma RemoveSpacePlain(s: string)
    requires PlainTimeChars(s)
    ensures RemoveChar(s, ' ') == s
  {
    assert ' ' !in s;
  }

  /** Cleaning such input only turns dots into colons. */
  lemma CleanPlain(s: string)
    requires PlainTimeChars(s)
    ensures CleanTimeInput(s) == ReplaceChar(s, '.', ':')
  {
    StripPlain(s);
    LowerPlain(s);
    RemoveSpacePlain(s);
  }

  /** normalize_time_input, stage by stage. */
  lemma NormalizeStages(raw: string, parsed: Option<(nat, nat)>)
    requires raw != "" && ParseClock(ExpandDigits(CleanTimeInput(raw))) == parsed
    ensures parsed.None? ==> NormalizeTimeInput(raw) == None
    ensures parsed.Some? ==> NormalizeTimeInput(raw) == Some(ClockText(parsed.value.0 * 60 + parsed.value.1))
  {
  }

  /** A raw input that parses to `h:m` normalises to the rendering of `h:m`. */
  lemma NormalizeTo(raw: string, h: nat, m: nat, out: string)
    requires raw != "" && ParseClock(ExpandDigits(CleanTimeInput(raw))) == Some((h, m))
    requires h * 60 + m < 1440 && ClockText(h * 60 + m) == out
    ensures NormalizeTimeInput(raw) == Some(out)
  {
    NormalizeStages(raw, Some((h, m)));
  }

  lemma ParseClock0930()
    ensures ParseClock("09:30") == Some((9, 30))
  {
    assert "09:30"[..2] == "09" && "09:30"[3..] == "30";
    TwoDigitValue("09");
    TwoDigitValue("30");
  }

  lemma ParseClock930()
    ensures ParseClock("9:30") == Some((9, 30))
  {
    assert "9:30"[..1] == "9" && "9:30"[2..] == "30";
    assert DecimalValue("9") == 9 by { assert "9"[..0] == []; }
    TwoDigitValue("30");
  }

  lemma ParseClock0900()
    ensures ParseClock("09:00") == Some((9, 0))
  {
    assert "09:00"[..2] == "09" && "09:00"[3..] == "00";
    TwoDigitValue("09");
    TwoDigitValue("00");
  }

  lemma ClockText0930()
    ensures ClockText(9 * 60 + 30) == "09:30"
  {
    ClockTextOfMinute("09:30");
    TwoDigitValue("09");
    TwoDigitValue("30");
  }

  lemma ClockText0900()
    ensures ClockText(9 * 60) == "09:00"
  {
    ClockTextOfMinute("09:00");
    TwoDigitValue("09");
    TwoDigitValue("00");
  }

  /** The cleaned and expanded forms of the example inputs. */
  lemma Expand0930()
    ensures ExpandDigits(CleanTimeInput("0930")) == "09:30"
  {
    CleanPlain("0930");
    assert ReplaceChar("0930", '.', ':') == "0930";
  }

  lemma Expand930()
    ensures ExpandDigits(CleanTimeInput("930")) == "09:30"
  {
    CleanPlain("930");
    assert ReplaceChar("930", '.', ':') == "930";
  }

  lemma Expand9Dot30()
    ensures ExpandDigits(CleanTimeInput("9.30")) == "9:30"
  {
    CleanPlain("9.30");
    assert ReplaceChar("9.30", '.', ':') == "9:30";
  }

  lemma Expand09()
    ensures ExpandDigits(CleanTimeInput("09")) == "09:00"
  {
    CleanPlain("09");
    assert ReplaceChar("09", '.', ':') == "09";
  }

  lemma Expand2400()
    ensures ExpandDigits(CleanTimeInput("24:00")) == "24:00"
  {
    CleanPlain("24:00");
    assert ReplaceChar("24:00", '.', ':') == "24:00";
  }

  lemma NormalizeExample0930()
    ensures NormalizeTimeInput("0930") == Some("09:30")
  {
    Expand0930();
    ParseClock0930();
    ClockText0930();
    NormalizeStages("0930", Some((9, 30)));
  }

  lemma NormalizeExample930()
    ensures NormalizeTimeInput("930") == Some("09:30")
  {
    Expand930();
    ParseClock0930();
    ClockText0930();
    NormalizeStages("930", Some((9, 30)));
  }

  lemma NormalizeExample9Dot30()
    ensures NormalizeTimeInput("9.30") == Some("09:30")
  {
    Expand9Dot30();
    ParseClock930();
    ClockText0930();
    NormalizeStages("9.30", Some((9, 30)));
  }

  lemma NormalizeExample09()
    ensures NormalizeTimeInput("09") == Some("09:00")
  {
    Expand09();
    ParseClock0900();
    ClockText0900();
    NormalizeStages("09", Some((9, 0)));
  }

  /** A leading ASCII separator is whitespace to `strip`, so `\x1c0930` still reads as `09:30`. */
  lemma NormalizeExampleSeparator()
    ensures NormalizeTimeInput("\U{001C}0930") == Some("09:30")
  {
    var raw := "\U{001C}0930";
    assert raw[1..] == "0930";
    assert TrimStart(raw) == TrimStart("0930");
    assert CleanTimeInput(raw) == CleanTimeInput("0930");
    Expand0930();
    ParseClock0930();
    ClockText0930();
    NormalizeStages(raw, Some((9, 30)));
  }

  /** Hour 24 is outside `%H`. */
  lemma NormalizeRejects24()
    ensures NormalizeTimeInput("24:00") == None
  {
    Expand2400();
    assert "24:00"[..2] == "24";
    TwoDigitValue("24");
    assert ParseField("24", 23) == None;
    assert ParseClock("24:00") == None;
    NormalizeStages("24:00", None);
  }

  lemma ClockIsPlain(t: string)
    requires IsClock(t)
    ensures PlainTimeChars(t) && ReplaceChar(t, '.', ':') == t
  {
    assert forall i :: 0 <= i < 2 ==> IsDigit(t[..2][i]);
  }

  lemma ClockExpandsToItself(t: string)
    requires IsClock(t)
    ensures ExpandDigits(t) == t
  {
  }

  lemma ClockParses(t: string)
    requires IsClock(t)
    ensures ParseClock(t) == Some((DecimalValue(t[..2]), DecimalValue(t[3..])))
  {
    assert IsDigit(t[..2][1]);
  }

  lemma ClockParsesClean(t: string)
    requires IsClock(t)
    ensures ParseClock(ExpandDigits(CleanTimeInput(t))) == Some((DecimalValue(t[..2]), DecimalValue(t[3..])))
  {
    ClockIsPlain(t);
    CleanPlain(t);
    ClockExpandsToItself(t);
    ClockParses(t);
  }

  /** A canonical `HH:MM` string is its own normal form. */
  lemma NormalizeFixesClock(t: string)
    requires IsClock(t)
    ensures NormalizeTimeInput(t) == Some(t)
  {
    var h, m := DecimalValue(t[..2]), DecimalValue(t[3..]);
    ClockParsesClean(t);
    ClockTextOfMinute(t);
    NormalizeTo(t, h, m, t);
  }

  /** normalize_time_input is idempotent: normalising its own output changes nothing. */
  lemma NormalizeIdempotent(raw: string)
    ensures NormalizeTimeInput(raw).Some? ==>
              NormalizeTimeInput(NormalizeTimeInput(raw).value) == NormalizeTimeInput(raw)
  {
    if NormalizeTimeInput(raw).Some? {
      NormalizeFixesClock(NormalizeTimeInput(raw).value);
    }
  }

  // ---------------------------------------------------------------------------
  // _format_minutes_label

  /** `"N ч"` for whole hours (`"1 ч"` when the hour count is 1 or less), `"N мин"` otherwise. */
  function FormatMinutesLabel(minutes: int): string {
    if minutes % 60 == 0 then
      var hours := minutes / 60;
      if hours > 1 then IntToString(hours) + " ч" else "1 ч"
    else IntToString(minutes) + " мин"
  }

  /** How many minutes a snooze label announces: the reading a user gives it. */
  function LabelMinutes(shown: string): Option<int> {
    if |shown| > 2 && shown[|shown| - 2..] == " ч" && AllDigits(shown[..|shown| - 2]) then
      Some(DecimalValue(shown[..|shown| - 2]) * 60)
    else if |shown| > 4 && shown[|shown| - 4..] == " мин" && AllDigits(shown[..|shown| - 4]) then
      Some(DecimalValue(shown[..|shown| - 4]))
    else None
  }

  /** For every positive interval the label announces exactly that many minutes. */
  lemma {:induction false} MinutesLabelRoundTrip(minutes: int)
    requires minutes >= 1
    ensures LabelMinutes(FormatMinutesLabel(minutes)) == Some(minutes)
  {
    var shown := FormatMinutesLabel(minutes);
    if minutes % 60 == 0 {
      var hours := minutes / 60;
      var digits := if hours > 1 then NatToString(hours) else "1";
      assert shown == digits + " ч";
      assert shown[|shown| - 2..] == " ч";
      assert shown[..|shown| - 2] == digits;
      assert DecimalValue("1") == 1 by { assert "1"[..0] == []; }
    } else {
      var digits := NatToString(minutes);
      assert shown == digits + " мин";
      assert shown[|shown| - 1] == 'н';
      assert shown[|shown| - 4..] == " мин";
      assert shown[..|shown| - 4] == digits;
    }
  }

  // ---------------------------------------------------------------------------
  // Day-period presets and schedule labels

  /** A DAY_PERIOD_PRESETS entry: key, button title and the clock time it stands for. */
  datatype Period = Period(key: string, title: string, time: string)

  const DayPeriodPresets: seq<Period> := [
    Period("morning", "\U{1F305} Утро", "08:00"),
    Period("lunch", "\U{1F37D} Обед", "13:00"),
    Period("day", "\U{1F324} День", "16:00"),
    Period("evening", "\U{1F307} Вечер", "20:00"),
    Period("night", "\U{1F319} Поздний вечер", "22:30")
  ]

  /** The first preset whose key is `key`, if any. */
  function FindPreset(presets: seq<Period>, key: string): (r: Option<Period>)
    ensures r.None? <==> forall i :: 0 <= i < |presets| ==> presets[i].key != key
    ensures r.Some? ==> r.value in presets && r.value.key == key
    ensures forall i :: (0 <= i < |presets| && presets[i].key == key
                         && forall j :: 0 <= j < i ==> presets[j].key != key) ==> r == Some(presets[i])
  {
    if |presets| == 0 then None
    else if presets[0].key == key then Some(presets[0])
    else
      var r := FindPreset(presets[1..], key);
      assert forall i :: 1 <= i < |presets| ==> presets[i] == presets[1..][i - 1];
      r
  }

  /** get_period_by_key: a linear search of DAY_PERIOD_PRESETS. */
  method GetPeriodByKey(key: string) returns (r: Option<Period>)
    ensures r == FindPreset(DayPeriodPresets, key)
  {
    var presets := DayPeriodPresets;
    var i := 0;
    while i < |presets|
      invariant 0 <= i <= |presets|
      invariant forall j :: 0 <= j < i ==> presets[j].key != key
    {
      if presets[i].key == key {
        return Some(presets[i]);
      }
      i := i + 1;
    }
    return None;
  }

  /** format_period_label: the preset's title with the time in brackets, or the bare time. */
  function FormatPeriodLabel(key: Option<string>, time: string): (r: string)
    ensures key.None? || key.value == "" || FindPreset(DayPeriodPresets, key.value).None? ==> r == time
    ensures key.Some? && key.value != "" && FindPreset(DayPeriodPresets, key.value).Some? ==>
              r == FindPreset(DayPeriodPresets, key.value).value.title + " (" + time + ")"
  {
    match key
    case None => time
    case Some(k) =>
      if k == "" then time
      else match FindPreset(DayPeriodPresets, k)
        case None => time
        case Some(p) => p.title + " (" + time + ")"
  }

  /** The label of each dose: its period's label where a period is recorded at that index. */
  function ScheduleLabels(times: seq<string>, periods: seq<string>): (r: seq<string>)
    ensures |r| == |times|
  {
    seq(|times|, i requires 0 <= i < |times| =>
      FormatPeriodLabel(if i < |periods| then Some(periods[i]) else None, times[i]))
  }

  /** What format_med_schedule shows: labelled doses in period mode, bare times otherwise, `—` when empty. */
  function ScheduleText(med: Medication): string {
    var entries := if med.scheduleMode == SchedulePeriod && |med.periods| > 0
                   then ScheduleLabels(med.times, med.periods) else med.times;
    if |entries| == 0 then "—" else Join(entries, ", ")
  }

  /** format_med_schedule: builds the list of labels dose by dose. */
  method FormatMedSchedule(med: Medication) returns (s: string)
    ensures s == ScheduleText(med)
  {
    if med.scheduleMode == SchedulePeriod && |med.periods| > 0 {
      var formatted: seq<string> := [];
      var idx := 0;
      while idx < |med.times|
        invariant 0 <= idx <= |med.times|
        invariant formatted == ScheduleLabels(med.times, med.periods)[..idx]
      {
        var period := if idx < |med.periods| then Some(med.periods[idx]) else None;
        formatted := formatted + [FormatPeriodLabel(period, med.times[idx])];
        idx := idx + 1;
      }
      assert formatted == ScheduleLabels(med.times, med.periods);
      s := if |formatted| > 0 then Join(formatted, ", ") else "—";
    } else {
      s := if |med.times| > 0 then Join(med.times, ", ") else "—";
    }
  }

  /** A join is at least as long as its last part. */
  lemma {:induction false} JoinCoversLast(parts: seq<string>, sep: string)
    requires |parts| >= 1
    ensures |Join(parts, sep)| >= |parts[|parts| - 1]|
  {
  }

  /** The text after the last `(` of `s`, or all of `s` when it has none. */
  function AfterLastOpen(s: string): string {
    if |s| == 0 then s
    else if s[|s| - 1] == '(' then ""
    else AfterLastOpen(s[..|s| - 1]) + [s[|s| - 1]]
  }

  /** The time a schedule label shows: what stands inside its closing brackets, or the whole label. */
  function LabelTime(shown: string): string {
    if |shown| > 0 && shown[|shown| - 1] == ')' then AfterLastOpen(shown[..|shown| - 1]) else shown
  }

  lemma {:induction false} AfterLastOpenOf(a: string, b: string)
    requires '(' !in b
    ensures AfterLastOpen(a + "(" + b) == b
    decreases |b|
  {
    var s := a + "(" + b;
    if |b| > 0 {
      var init := b[..|b| - 1];
      assert s[..|s| - 1] == a + "(" + init;
      assert s[|s| - 1] == b[|b| - 1];
      assert '(' !in init by { assert forall c :: c in init ==> c in b; }
      AfterLastOpenOf(a, init);
      assert init + [b[|b| - 1]] == b;
    }
  }

  /** The dose time can always be read back from its label, whatever the period key. */
  lemma LabelTimeRoundTrip(key: Option<string>, time: string)
    requires IsClock(time)
    ensures LabelTime(FormatPeriodLabel(key, time)) == time
  {
    var shown := FormatPeriodLabel(key, time);
    ClockIsPlain(time);
    assert '(' !in time && time[4] != ')' by {
      assert forall i :: 0 <= i < |time| ==> time[i] != '(' && time[i] != ')';
    }
    if key.Some? && key.value != "" && FindPreset(DayPeriodPresets, key.value).Some? {
      var title := FindPreset(DayPeriodPresets, key.value).value.title;
      assert shown == title + " (" + time + ")";
      assert shown[..|shown| - 1] == (title + " ") + "(" + time;
      AfterLastOpenOf(title + " ", time);
    }
  }

  /** With well-formed times, the schedule shows `—` exactly when the medication has no times. */
  lemma ScheduleTextDash(med: Medication)
    requires AllClock(med.times)
    ensures ScheduleText(med) == "—" <==> |med.times| == 0
  {
    if |med.times| > 0 {
      var n := |med.times|;
      var entries := if med.scheduleMode == SchedulePeriod && |med.periods| > 0
                     then ScheduleLabels(med.times, med.periods) else med.times;
      assert IsClock(med.times[n - 1]);
      assert |FormatPeriodLabel(if n - 1 < |med.periods| then Some(med.periods[n - 1]) else None, med.times[n - 1])| >= 5;
      assert |entries[n - 1]| >= 5;
      JoinCoversLast(entries, ", ");
    }
  }
}
