/**
  The statistics view (src/components/StatsView.tsx): today's focus total,
  its hours-and-minutes text, the per-date minute totals behind the
  activity heatmap, the five heat levels, and the calendar of the last 365
  days.

  Calendar days are day numbers; `dateOf(d)` is the `YYYY-MM-DD` text the
  view's `formatDate` produces for day d (local calendar arithmetic is not
  modelled, see the README).
 */
module StatsView {
  import opened JsText
  import opened Types
  import TimeText

  // ----- today's focus -----

  /** `todaySessions.reduce((acc, s) => acc + s.duration, 0)`, in seconds. */
  function TodayFocus(sessions: seq<Session>, today: string): int
  {
    SecondsOn(sessions, today)
  }

  /** `formatTime`: `"<h> <hours> <m> <minutes>"`, the hours part only when h > 0. */
  function FocusText(seconds: int, hoursLabel: string, minutesLabel: string): string
  {
    var hm := TimeText.HoursMinutes(seconds);
    (if hm.0 > 0 then IntToString(hm.0) + " " + hoursLabel + " " else "") + IntToString(hm.1) + " " + minutesLabel
  }

  /** For a non-negative total the text is only minutes exactly when the total
      is under an hour; the minutes shown are below 60 and account for the
      total to within one minute. */
  lemma FocusTextHoursOmittedIff(seconds: nat, hoursLabel: string, minutesLabel: string)
    ensures var m := (seconds % 3600) / 60;
      0 <= m < 60
      && (seconds / 3600) * 3600 + m * 60 <= seconds < (seconds / 3600) * 3600 + m * 60 + 60
      && (FocusText(seconds, hoursLabel, minutesLabel) == NatToString(m) + " " + minutesLabel <==> seconds < 3600)
  {
    var hm := TimeText.HoursMinutes(seconds);
    assert hm == (seconds / 3600, (seconds % 3600) / 60);
    if seconds >= 3600 {
      var prefix := IntToString(hm.0) + " " + hoursLabel + " ";
      assert |FocusText(seconds, hoursLabel, minutesLabel)| == |prefix| + |NatToString(hm.1) + " " + minutesLabel|;
    }
  }

  // ----- per-date minutes -----

  /** `Math.round(seconds / 60)`: the nearest whole minute, halves rounded up. */
  function RoundMinutes(seconds: int): (m: int)
    ensures m * 60 - 30 <= seconds < m * 60 + 30
  {
    (2 * seconds + 60) / 120
  }

  /** The heatmap total for a date: each session's duration rounded to whole
      minutes, then summed over the sessions on that date. */
  function MinutesOn(sessions: seq<Session>, date: string): int
  {
    if sessions == [] then 0
    else
      var last := sessions[|sessions| - 1];
      MinutesOn(sessions[..|sessions| - 1], date) + (if last.date == date then RoundMinutes(last.duration) else 0)
  }

  /** `acc[date] || 0` on the accumulated totals. */
  function CountFor(byDate: map<string, int>, date: string): int
  {
    if date in byDate then byDate[date] else 0
  }

  /** A date with no sessions totals 0. */
  lemma {:induction false} MinutesOnAbsent(sessions: seq<Session>, date: string)
    requires forall i :: 0 <= i < |sessions| ==> sessions[i].date != date
    ensures MinutesOn(sessions, date) == 0
  {
    if sessions != [] {
      MinutesOnAbsent(sessions[..|sessions| - 1], date);
    }
  }

  /** `sessions.reduce(...)` into a record keyed by date: a key for every date
      that has a session, holding that date's rounded-minute total. */
  method SessionsByDate(sessions: seq<Session>) returns (byDate: map<string, int>)
    ensures forall d :: d in byDate <==> exists i :: 0 <= i < |sessions| && sessions[i].date == d
    ensures forall d :: CountFor(byDate, d) == MinutesOn(sessions, d)
  {
    byDate := map[];
    var k := 0;
    while k < |sessions|
      invariant 0 <= k <= |sessions|
      invariant forall d :: d in byDate <==> exists i :: 0 <= i < k && sessions[i].date == d
      invariant forall d :: CountFor(byDate, d) == MinutesOn(sessions[..k], d)
    {
      var s := sessions[k];
      var mins := RoundMinutes(s.duration);
      byDate := byDate[s.date := CountFor(byDate, s.date) + mins];
      assert sessions[..k + 1][..k] == sessions[..k];
      k := k + 1;
    }
    assert sessions[..k] == sessions;
  }

  /** When every duration is whole minutes, the heatmap total is the raw total in minutes. */
  lemma {:induction false} MinutesOnWholeMinutes(sessions: seq<Session>, date: string)
    requires forall i :: 0 <= i < |sessions| ==> sessions[i].duration % 60 == 0
    ensures MinutesOn(sessions, date) * 60 == SecondsOn(sessions, date)
  {
    if sessions != [] {
      var last := sessions[|sessions| - 1];
      MinutesOnWholeMinutes(sessions[..|sessions| - 1], date);
      assert RoundMinutes(last.duration) * 60 == last.duration;
    }
  }

  /** Rounding is per session: two 30-second sessions count 2 minutes, while
      their 60-second sum would round to 1. */
  lemma RoundingIsPerSession(date: string)
    ensures MinutesOn([Session(date, 30), Session(date, 30)], date) == 2
    ensures RoundMinutes(SecondsOn([Session(date, 30), Session(date, 30)], date)) == 1
  {
    var one := [Session(date, 30)];
    var two := [Session(date, 30), Session(date, 30)];
    assert one[..0] == [];
    assert MinutesOn(one, date) == 1 && SecondsOn(one, date) == 30;
    assert two[..1] == one;
    assert SecondsOn(two, date) == 60;
  }

  // ----- heat levels -----

  /** The level the view assigns to a day's minute count. */
  function HeatLevel(count: int): (level: int)
    ensures 0 <= level <= 4
  {
    var level := 0;
    var level := if count > 0 then 1 else level;
    var level := if count > 60 then 2 else level;
    var level := if count > 120 then 3 else level;
    if count > 240 then 4 else level
  }

  /** The bands: 0 for no minutes, 1 up to an hour, 2 up to two hours, 3 up to
      four hours, 4 beyond. */
  lemma HeatLevelBands(count: int)
    ensures HeatLevel(count) == 0 <==> count <= 0
    ensures HeatLevel(count) == 1 <==> 1 <= count <= 60
    ensures HeatLevel(count) == 2 <==> 61 <= count <= 120
    ensures HeatLevel(count) == 3 <==> 121 <= count <= 240
    ensures HeatLevel(count) == 4 <==> count > 240
  {
  }

  lemma HeatLevelMonotone(a: int, b: int)
    requires a <= b
    ensures HeatLevel(a) <= HeatLevel(b)
  {
  }

  lemma HeatLevelExamples()
    ensures HeatLevel(90) == 2 && HeatLevel(250) == 4 && HeatLevel(0) == 0 && HeatLevel(60) == 1
  {
  }

  // ----- the calendar -----

  datatype CalendarEntry = CalendarEntry(date: string, count: int, level: int)

  /** The entry the loop pushes for day d. */
  function EntryFor(byDate: map<string, int>, dateOf: int -> string, d: int): (e: CalendarEntry)
    ensures e.date == dateOf(d) && e.count == CountFor(byDate, dateOf(d)) && e.level == HeatLevel(e.count)
  {
    var count := CountFor(byDate, dateOf(d));
    CalendarEntry(dateOf(d), count, HeatLevel(count))
  }

  const DayMs := 86400000

  /** The loop as written. `endDate` is read first, at `endMs` into today;
      `startDate` is read after it, at `startMs` into the same day, and moved
      back 364 days. The loop walks from the start day at `startMs` while
      that instant is not after `endDate`. When the two reads fall in the
      same millisecond that is 365 days ending today; when the second read is
      later, today's instant comes after `endDate` and today is missing. */
  method CalendarAsWritten(byDate: map<string, int>, dateOf: int -> string, today: int, endMs: int, startMs: int)
    returns (entries: seq<CalendarEntry>)
    requires 0 <= endMs <= startMs < DayMs
    ensures |entries| == if startMs == endMs then 365 else 364
    ensures forall i :: 0 <= i < |entries| ==> entries[i] == EntryFor(byDate, dateOf, today - 364 + i)
  {
    entries := [];
    var day := today - 364;
    while day * DayMs + startMs <= today * DayMs + endMs
      invariant today - 364 <= day <= today + 1
      invariant startMs > endMs ==> day <= today
      invariant |entries| == day - (today - 364)
      invariant forall i :: 0 <= i < |entries| ==> entries[i] == EntryFor(byDate, dateOf, today - 364 + i)
      decreases today + 1 - day
    {
      entries := entries + [EntryFor(byDate, dateOf, day)];
      day := day + 1;
    }
  }

  /** The calendar over day numbers: one entry per day from 364 days before
      today through today, in ascending order. */
  method Calendar(byDate: map<string, int>, dateOf: int -> string, today: int) returns (entries: seq<CalendarEntry>)
    ensures |entries| == 365
    ensures forall i :: 0 <= i < 365 ==> entries[i] == EntryFor(byDate, dateOf, today - 364 + i)
  {
    entries := [];
    var day := today - 364;
    while day <= today
      invariant today - 364 <= day <= today + 1
      invariant |entries| == day - (today - 364)
      invariant forall i :: 0 <= i < |entries| ==> entries[i] == EntryFor(byDate, dateOf, today - 364 + i)
    {
      entries := entries + [EntryFor(byDate, dateOf, day)];
      day := day + 1;
    }
  }

  /** Every calendar day shows its date's heatmap total; a day with no
      sessions shows count 0 and level 0. */
  lemma CalendarDayCounts(sessions: seq<Session>, byDate: map<string, int>, dateOf: int -> string, d: int)
    requires forall x :: CountFor(byDate, x) == MinutesOn(sessions, x)
    ensures EntryFor(byDate, dateOf, d).count == MinutesOn(sessions, dateOf(d))
    ensures (forall i :: 0 <= i < |sessions| ==> sessions[i].date != dateOf(d)) ==>
      EntryFor(byDate, dateOf, d).count == 0 && EntryFor(byDate, dateOf, d).level == 0
  {
    if forall i :: 0 <= i < |sessions| ==> sessions[i].date != dateOf(d) {
      MinutesOnAbsent(sessions, dateOf(d));
    }
  }
}
