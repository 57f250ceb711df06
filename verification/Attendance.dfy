/** Attendance days and what an approved correction writes to them. */
module Attendance {
  import opened Common
  import opened Text16
  import Calendar

  type UserId = string

  const MINUTE_MS := 60_000

  datatype AttendanceDay = AttendanceDay(
    userId: UserId, checkInAt: Option<int>, checkOutAt: Option<int>,
    lateMinutes: nat, earlyLogoutMinutes: nat, missingCheckout: bool, regularized: bool)

  /** A request to correct one attendance day, which is given by its position in the table. */
  datatype Correction = Correction(day: nat, checkInAt: int, checkOutAt: int)

  /** Minutes of the day at which the office opens and closes. */
  datatype OfficeHours = OfficeHours(start: int, end: int)

  /** Minute of the day of a time text; whatever does not read as a time is half past nine. */
  function ParseTime(num: Reader, value: Text): (r: int)
    ensures 0 <= r < 24 * 60
  {
    var parts := Split(value, COLON);
    if |parts| >= 2 && ReadsWithin(num, parts[0], 23) && ReadsWithin(num, parts[1], 59)
    then 60 * num(parts[0]).value + num(parts[1]).value
    else 9 * 60 + 30
  }

  /** Two readable parts around a colon are hours and minutes, when they are in range; a text without a
      colon is never a time. */
  lemma ParseTimeReads(num: Reader, hours: Text, minutes: Text)
    requires COLON !in hours && COLON !in minutes
    ensures ParseTime(num, hours + [COLON] + minutes)
         == if ReadsWithin(num, hours, 23) && ReadsWithin(num, minutes, 59)
             then 60 * num(hours).value + num(minutes).value
            else 570
    ensures ParseTime(num, hours) == 570
  {
    SplitTwo(hours, COLON, minutes);
  }

  /** The stored settings of the tenant, and how texts are read as numbers. */
  datatype Settings = Settings(num: Reader, start: Option<Text>, end: Option<Text>)

  /** The office hours of the settings: 9:30 and 18:30 where none are stored, and 9:30 for either where
      what is stored is no time. */
  function ResolveOfficeHours(s: Settings): OfficeHours {
    OfficeHours(
      if s.start.Some? then ParseTime(s.num, s.start.value) else 9 * 60 + 30,
      if s.end.Some? then ParseTime(s.num, s.end.value) else 18 * 60 + 30)
  }

  /** A malformed closing time is read as half past nine, so nobody who stays later has left early. */
  lemma MalformedEndHidesEarlyLeaving(s: Settings, checkOutAt: int)
    requires s.end.Some? && COLON !in s.end.value && MinuteOfDay(checkOutAt) >= 570
    ensures EarlyLogoutMinutes(checkOutAt, ResolveOfficeHours(s).end) == 0
  {
    hide ParseTime, EarlyLogoutMinutes, MinuteOfDay;
    ParseTimeReads(s.num, s.end.value, []);
    EarlyByTheClock(checkOutAt, 570);
  }

  /** The instant at a minute of the day of another instant. */
  function AtMinute(t: int, minute: int): int {
    Calendar.Day(t) * Calendar.DAY_MS + minute * MINUTE_MS
  }

  function LateMinutes(checkInAt: int, start: int): nat {
    var diff := checkInAt - AtMinute(checkInAt, start);
    if diff <= 0 then 0 else diff / MINUTE_MS
  }

  function EarlyLogoutMinutes(checkOutAt: int, end: int): nat {
    var diff := AtMinute(checkOutAt, end) - checkOutAt;
    if diff <= 0 then 0 else diff / MINUTE_MS
  }

  function MinuteOfDay(t: int): int {
    Calendar.TimeWithinDay(t) / MINUTE_MS
  }

  /** The minute of the day that contains an instant or, for an instant inside one, the next. */
  function LastMinute(t: int): int {
    MinuteOfDay(t) + (if Calendar.TimeWithinDay(t) % MINUTE_MS == 0 then 0 else 1)
  }

  function Positive(n: int): nat {
    if n > 0 then n else 0
  }

  /** Lateness is the minutes of the clock past opening: seconds after the opening minute do not count. */
  lemma LateByTheClock(checkInAt: int, start: int)
    ensures LateMinutes(checkInAt, start) == Positive(MinuteOfDay(checkInAt) - start)
  {
    assert checkInAt - AtMinute(checkInAt, start) == Calendar.TimeWithinDay(checkInAt) - start * MINUTE_MS;
  }

  /** Leaving early is the full minutes left: a started minute before closing does not count. */
  lemma EarlyByTheClock(checkOutAt: int, end: int)
    ensures EarlyLogoutMinutes(checkOutAt, end) == Positive(end - LastMinute(checkOutAt))
  {
    assert AtMinute(checkOutAt, end) - checkOutAt == end * MINUTE_MS - Calendar.TimeWithinDay(checkOutAt);
  }

  /** The day after an approved correction. */
  function Corrected(d: AttendanceDay, c: Correction, hours: OfficeHours): (r: AttendanceDay)
    ensures r.userId == d.userId
  {
    d.(checkInAt := Some(c.checkInAt), checkOutAt := Some(c.checkOutAt),
       lateMinutes := LateMinutes(c.checkInAt, hours.start),
       earlyLogoutMinutes := EarlyLogoutMinutes(c.checkOutAt, hours.end),
       missingCheckout := false, regularized := true)
  }
}
