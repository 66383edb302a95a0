/** Weekly menu windows.
    Models parseMinutes, nextDay, extractWindows and the window test of isRestaurantMenuAvailableAt, for a given local
    weekday and minute. Weekdays are numbered from Sunday. */
module MenuWindows {
  import opened Prelude
  import opened Texts
  import opened Decimals
  import Schedules

  const DAY_MINUTES := 1440
  const WEEK_MINUTES := 10080

  /** The text `HH:mm` between 00:00 and 23:59, spaces around it aside. */
  function ParseMinutes(value: string): (minutes: Option<nat>)
    ensures minutes.Some? ==> minutes.value < DAY_MINUTES
  {
    var s := Trim(value);
    if |s| == 5 && IsDigit(s[0]) && IsDigit(s[1]) && s[2] == ':' && IsDigit(s[3]) && IsDigit(s[4]) then
      var hours, minutes := 10 * DigitValue(s[0]) + DigitValue(s[1]), 10 * DigitValue(s[3]) + DigitValue(s[4]);
      if hours <= 23 && minutes <= 59 then Some(60 * hours + minutes) else None
    else None
  }

  /** A text reads as m minutes exactly when, trimmed, it is the clock text of m. */
  lemma {:induction false} ParseMinutesExact(value: string, m: nat)
    requires m < DAY_MINUTES
    ensures ParseMinutes(value) == Some(m) <==> Trim(value) == Schedules.ClockText(m)
  {
    var s, clock := Trim(value), Schedules.ClockText(m);
    assert |clock| == 5 && clock[2] == ':';
    assert clock[0] == Digit(m / 60 / 10) && clock[1] == Digit(m / 60 % 10);
    assert clock[3] == Digit(m % 60 / 10) && clock[4] == Digit(m % 60 % 10);
    if ParseMinutes(value) == Some(m) {
      assert 10 * DigitValue(s[0]) + DigitValue(s[1]) == m / 60;
      assert 10 * DigitValue(s[3]) + DigitValue(s[4]) == m % 60;
      SameDigit(s[0], m / 60 / 10);
      SameDigit(s[1], m / 60 % 10);
      SameDigit(s[3], m % 60 / 10);
      SameDigit(s[4], m % 60 % 10);
      assert s == [s[0], s[1], s[2], s[3], s[4]];
      assert clock == [clock[0], clock[1], clock[2], clock[3], clock[4]];
    }
  }

  lemma {:induction false} SameDigit(c: char, d: nat)
    requires IsDigit(c) && d < 10
    ensures DigitValue(c) == d ==> c == Digit(d)
  {}

  /** A window as configured; a field that is not a day or not a text is absent. */
  datatype RawWindow = RawWindow(day: Option<nat>, start: Option<string>, end: Option<string>)

  datatype Window = Window(day: nat, start: nat, end: nat)

  predicate ValidWindow(w: Window) { w.day < 7 && w.start < DAY_MINUTES && w.end < DAY_MINUTES }

  function ReadWindow(raw: RawWindow): (w: Option<Window>)
    ensures w.Some? ==> ValidWindow(w.value)
  {
    if raw.day.None? || raw.day.value >= 7 || raw.start.None? || raw.end.None? then None
    else match (ParseMinutes(raw.start.value), ParseMinutes(raw.end.value))
      case (Some(start), Some(end)) => Some(Window(raw.day.value, start, end))
      case _ => None
  }

  function ExtractWindows(raw: seq<RawWindow>): (windows: seq<Window>)
    ensures forall w :: w in windows ==> ValidWindow(w)
  {
    if raw == [] then []
    else
      var front := ExtractWindows(raw[..|raw| - 1]);
      match ReadWindow(raw[|raw| - 1])
      case Some(w) => front + [w]
      case None => front
  }

  /** The configured day and times of a window, as clock texts with spaces around them aside. */
  predicate Configures(raw: RawWindow, w: Window) {
    && ValidWindow(w) && raw.day == Some(w.day)
    && raw.start.Some? && Trim(raw.start.value) == Schedules.ClockText(w.start)
    && raw.end.Some? && Trim(raw.end.value) == Schedules.ClockText(w.end)
  }

  /** Some entry configures the window. */
  predicate IsConfigured(raw: seq<RawWindow>, w: Window) {
    exists k :: 0 <= k < |raw| && Configures(raw[k], w)
  }

  lemma {:induction false} LastConfigured(raw: seq<RawWindow>, w: Window)
    requires raw != []
    ensures IsConfigured(raw, w) <==> IsConfigured(raw[..|raw| - 1], w) || Configures(raw[|raw| - 1], w)
  {
    hide Configures;
    var front := raw[..|raw| - 1];
    if IsConfigured(front, w) {
      var k :| 0 <= k < |front| && Configures(front[k], w);
      assert Configures(raw[k], w);
    }
    if IsConfigured(raw, w) && !Configures(raw[|raw| - 1], w) {
      var k :| 0 <= k < |raw| && Configures(raw[k], w);
      assert Configures(front[k], w);
    }
  }

  /** Exactly the windows that some entry configures are read. */
  lemma {:induction false} WindowsRead(raw: seq<RawWindow>, w: Window)
    ensures w in ExtractWindows(raw) <==> IsConfigured(raw, w)
  {
    if raw != [] {
      WindowsRead(raw[..|raw| - 1], w);
      OneRead(raw[|raw| - 1], w);
      LastRead(raw, w);
      LastConfigured(raw, w);
      hide *;
    }
  }

  lemma {:induction false} LastRead(raw: seq<RawWindow>, w: Window)
    requires raw != []
    ensures w in ExtractWindows(raw) <==> w in ExtractWindows(raw[..|raw| - 1]) || ReadWindow(raw[|raw| - 1]) == Some(w)
  {
    hide ReadWindow;
  }

  lemma {:induction false} OneRead(raw: RawWindow, w: Window)
    ensures ReadWindow(raw) == Some(w) <==> Configures(raw, w)
  {
    hide ParseMinutes, Schedules.ClockText, Trim;
    if ValidWindow(w) && raw.start.Some? && raw.end.Some? {
      ParseMinutesExact(raw.start.value, w.start);
      ParseMinutesExact(raw.end.value, w.end);
    }
  }

  function NextDay(day: nat): nat { (day + 1) % 7 }

  /** The test of one window. */
  predicate IsInside(w: Window, weekday: nat, minutes: nat) {
    if w.start <= w.end then weekday == w.day && minutes >= w.start && minutes < w.end
    else (weekday == w.day && minutes >= w.start) || (weekday == NextDay(w.day) && minutes < w.end)
  }

  predicate IsAvailable(raw: seq<RawWindow>, weekday: nat, minutes: nat) {
    exists w :: w in ExtractWindows(raw) && IsInside(w, weekday, minutes)
  }

  // ----- The week as a circle -----

  /** Minutes from the window's start to a moment, going round the week. */
  function MinutesSince(w: Window, weekday: nat, minutes: nat): int {
    (DAY_MINUTES * weekday + minutes - (DAY_MINUTES * w.day + w.start)) % WEEK_MINUTES
  }

  /** How long the window lasts, past midnight if it ends before it starts. */
  function WindowLength(w: Window): int { (w.end - w.start) % DAY_MINUTES }

  /** The window test is membership in an arc of the week, over midnight and from Saturday into Sunday as well. */
  lemma {:induction false} InsideIsArc(w: Window, weekday: nat, minutes: nat)
    requires ValidWindow(w) && weekday < 7 && minutes < DAY_MINUTES
    ensures IsInside(w, weekday, minutes) <==> MinutesSince(w, weekday, minutes) < WindowLength(w)
  {
    var apart := DAY_MINUTES * weekday + minutes - (DAY_MINUTES * w.day + w.start);
    assert MinutesSince(w, weekday, minutes) == if apart < 0 then apart + WEEK_MINUTES else apart;
    assert WindowLength(w) == if w.end < w.start then w.end - w.start + DAY_MINUTES else w.end - w.start;
    if weekday == w.day {
    } else if weekday == NextDay(w.day) {
    } else {
    }
  }

  /** A menu is available exactly when the moment lies in the arc of some readable window. */
  lemma {:induction false} AvailableIsArc(raw: seq<RawWindow>, weekday: nat, minutes: nat)
    requires weekday < 7 && minutes < DAY_MINUTES
    ensures IsAvailable(raw, weekday, minutes)
            <==> exists w :: w in ExtractWindows(raw) && MinutesSince(w, weekday, minutes) < WindowLength(w)
  {
    hide IsInside, MinutesSince, WindowLength;
    forall w | w in ExtractWindows(raw)
      ensures IsInside(w, weekday, minutes) <==> MinutesSince(w, weekday, minutes) < WindowLength(w)
    {
      InsideIsArc(w, weekday, minutes);
    }
  }

  /** A clock that names the hour after midnight 24: only a window over midnight that starts on that day matches. */
  lemma {:induction false} MidnightAsTwentyFour(w: Window, weekday: nat, past: nat)
    requires ValidWindow(w) && weekday < 7 && past < 60
    ensures IsInside(w, weekday, DAY_MINUTES + past) <==> weekday == w.day && w.end < w.start
  {}

  /** When such a clock does no harm: a window over midnight from that day has begun by then, and no other window covers
      the moment that is meant. */
  predicate MidnightAgrees(w: Window, weekday: nat, past: nat) {
    if w.end < w.start then
      if weekday == w.day then w.start <= past else !(weekday == NextDay(w.day) && past < w.end)
    else !(weekday == w.day && w.start <= past < w.end)
  }

  /** With such a clock the test agrees with the week's arc at the moment that is meant exactly then. */
  lemma {:induction false} MidnightExactly(w: Window, weekday: nat, past: nat)
    requires ValidWindow(w) && weekday < 7 && past < 60
    ensures (IsInside(w, weekday, DAY_MINUTES + past) <==> MinutesSince(w, weekday, past) < WindowLength(w))
            <==> MidnightAgrees(w, weekday, past)
  {
    hide MinutesSince, WindowLength;
    InsideIsArc(w, weekday, past);
    MidnightAsTwentyFour(w, weekday, past);
  }

  /** A window that runs past midnight from the given day. */
  predicate OvernightFrom(w: Window, weekday: nat) { weekday == w.day && w.end < w.start }

  /** A window that covers the moment some minutes past midnight. */
  predicate CoversNight(w: Window, weekday: nat, past: nat) {
    if w.end < w.start then (weekday == w.day && w.start <= past) || (weekday == NextDay(w.day) && past < w.end)
    else weekday == w.day && w.start <= past < w.end
  }

  /** With such a clock a menu's availability agrees with the arcs of its windows exactly when it has a window past
      midnight from that day just if it has one that covers the moment. */
  lemma {:induction false} MidnightMenuExactly(raw: seq<RawWindow>, weekday: nat, past: nat)
    requires weekday < 7 && past < 60
    ensures var windows := ExtractWindows(raw);
      (IsAvailable(raw, weekday, DAY_MINUTES + past)
       <==> exists w :: w in windows && MinutesSince(w, weekday, past) < WindowLength(w))
      <==> ((exists w :: w in windows && OvernightFrom(w, weekday)) <==> (exists w :: w in windows && CoversNight(w, weekday, past)))
  {
    hide MinutesSince, WindowLength;
    var windows := ExtractWindows(raw);
    forall w | w in windows
      ensures IsInside(w, weekday, DAY_MINUTES + past) <==> OvernightFrom(w, weekday)
      ensures MinutesSince(w, weekday, past) < WindowLength(w) <==> CoversNight(w, weekday, past)
    {
      InsideIsArc(w, weekday, past);
      MidnightAsTwentyFour(w, weekday, past);
    }
    hide IsInside, OvernightFrom, CoversNight;
  }

  /** A menu offered from midnight to one o'clock is missed at 24:30, and so is the end of a menu that runs over from
      the day before. */
  lemma {:induction false} MidnightMissed(weekday: nat)
    requires weekday < 7
    ensures var w := Window(weekday, 0, 60);
      MinutesSince(w, weekday, 30) < WindowLength(w) && !IsInside(w, weekday, DAY_MINUTES + 30)
    ensures var w := Window(weekday, 1380, 60);
      MinutesSince(w, NextDay(weekday), 30) < WindowLength(w) && !IsInside(w, NextDay(weekday), DAY_MINUTES + 30)
  {
    hide MinutesSince, WindowLength;
    InsideIsArc(Window(weekday, 0, 60), weekday, 30);
    InsideIsArc(Window(weekday, 1380, 60), NextDay(weekday), 30);
  }
}
