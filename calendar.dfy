/** System.DateTime to whole-second resolution: the proleptic Gregorian
    calendar of years 1 to 9999, day numbers counted from 0001-01-01 (a
    Monday), the ISO 8601 week numbering of System.Globalization.ISOWeek,
    and the fixed text formats the program writes and reads. The Kind of a
    DateTime and its sub-second ticks are not modelled. */
module Calendar {
  import opened Base
  import opened Text

  datatype DateTime = DateTime(year: int, month: int, day: int, hour: int, minute: int, second: int)

  const MinValue: DateTime := DateTime(1, 1, 1, 0, 0, 0)
  /** Days from 0001-01-01 to 10000-01-01: one past DateTime.MaxValue. */
  const DaysTo10000: int := 3652059
  const SecondsPerDay: int := 86400
  const SecondsTo10000: int := 315537897600

  predicate IsLeapYear(year: int)
  {
    year % 4 == 0 && (year % 100 != 0 || year % 400 == 0)
  }

  function DaysInMonth(year: int, month: int): int
    requires 1 <= month <= 12
  {
    if month == 2 then (if IsLeapYear(year) then 29 else 28)
    else if month == 4 || month == 6 || month == 9 || month == 11 then 30
    else 31
  }

  predicate IsValidDate(year: int, month: int, day: int)
  {
    1 <= year <= 9999 && 1 <= month <= 12 && 1 <= day <= DaysInMonth(year, month)
  }

  predicate IsValid(dt: DateTime)
  {
    && IsValidDate(dt.year, dt.month, dt.day)
    && 0 <= dt.hour < 24 && 0 <= dt.minute < 60 && 0 <= dt.second < 60
  }

  function DaysBeforeYear(year: int): int
  {
    var y := year - 1;
    365 * y + y / 4 - y / 100 + y / 400
  }

  function DaysBeforeMonth(year: int, month: int): int
    requires 1 <= month <= 12
  {
    var common := [0, 31, 59, 90, 120, 151, 181, 212, 243, 273, 304, 334][month - 1];
    if month > 2 && IsLeapYear(year) then common + 1 else common
  }

  /** Days since 0001-01-01. */
  function DayNumber(year: int, month: int, day: int): int
    requires 1 <= month <= 12
  {
    DaysBeforeYear(year) + DaysBeforeMonth(year, month) + day - 1
  }

  /** DateTime.DayOfYear (1-based). */
  function DayOfYear(year: int, month: int, day: int): int
    requires 1 <= month <= 12
  {
    DaysBeforeMonth(year, month) + day
  }

  /** DateTime.DayOfWeek: 0 is Sunday, 6 is Saturday. */
  function DayOfWeek(year: int, month: int, day: int): int
    requires 1 <= month <= 12
  {
    (DayNumber(year, month, day) + 1) % 7
  }

  /** Seconds since 0001-01-01T00:00:00. */
  function ToSeconds(dt: DateTime): int
    requires 1 <= dt.month <= 12
  {
    DayNumber(dt.year, dt.month, dt.day) * 86400 + dt.hour * 3600 + dt.minute * 60 + dt.second
  }

  /** The month holding the zero-based day of the year `doy0`. */
  function MonthOfDay(year: int, doy0: int, month: int): (m: int)
    requires 1 <= month <= 12 && DaysBeforeMonth(year, month) <= doy0
    ensures month <= m <= 12 && DaysBeforeMonth(year, m) <= doy0
    ensures m < 12 ==> doy0 < DaysBeforeMonth(year, m + 1)
    decreases 12 - month
  {
    if month == 12 || doy0 < DaysBeforeMonth(year, month + 1) then month
    else MonthOfDay(year, doy0, month + 1)
  }

  /** The year holding day number `n` and the zero-based day within it, as
      DateTime computes them: 400-year, 100-year, 4-year and 1-year cycles. */
  function YearAndDay(n: int): (r: (int, int))
    requires 0 <= n < DaysTo10000
    ensures 1 <= r.0 <= 9999 && 0 <= r.1 <= 365
    ensures r.1 == 365 ==> IsLeapYear(r.0)
    ensures DaysBeforeYear(r.0) + r.1 == n
  {
    var y400 := n / 146097;
    var r1 := n % 146097;
    var y100 := if r1 / 36524 == 4 then 3 else r1 / 36524;
    var r2 := r1 - y100 * 36524;
    var y4 := r2 / 1461;
    var r3 := r2 % 1461;
    var y1 := if r3 / 365 == 4 then 3 else r3 / 365;
    var doy0 := r3 - y1 * 365;
    var year := y400 * 400 + y100 * 100 + y4 * 4 + y1 + 1;
    CycleBounds(n, y400, r1, y100, r2, y4, r3, y1, doy0);
    LastDayOfCycleIsLeap(year, y100, y4, y1, doy0);
    DaysBeforeCycles(y400, y100, y4, y1);
    (year, doy0)
  }

  /** The cycle counts YearAndDay computes are in range and add back up
      to the day number. */
  lemma CycleBounds(n: int, y400: int, r1: int, y100: int, r2: int, y4: int, r3: int, y1: int, doy0: int)
    requires 0 <= n < DaysTo10000
    requires y400 == n / 146097 && r1 == n % 146097
    requires y100 == (if r1 / 36524 == 4 then 3 else r1 / 36524) && r2 == r1 - y100 * 36524
    requires y4 == r2 / 1461 && r3 == r2 % 1461
    requires y1 == (if r3 / 365 == 4 then 3 else r3 / 365) && doy0 == r3 - y1 * 365
    ensures 0 <= y400 <= 24 && 0 <= y100 <= 3 && 0 <= y4 <= 24 && 0 <= y1 <= 3 && 0 <= doy0 <= 365
    ensures doy0 == 365 ==> y1 == 3 && (y4 < 24 || y100 == 3)
    ensures n == y400 * 146097 + y100 * 36524 + y4 * 1461 + y1 * 365 + doy0
    ensures y400 * 400 + y100 * 100 + y4 * 4 + y1 + 1 <= 9999
  {
  }

  /** The 366th day of a year only occurs in leap years. */
  lemma LastDayOfCycleIsLeap(year: int, y100: int, y4: int, y1: int, doy0: int)
    requires 0 <= y100 <= 3 && 0 <= y4 <= 24 && 0 <= y1 <= 3 && 0 <= doy0 <= 365
    requires (year - 1 - y1 - 4 * y4 - 100 * y100) % 400 == 0
    requires doy0 == 365 ==> y1 == 3 && (y4 < 24 || y100 == 3)
    ensures doy0 < 365 || IsLeapYear(year)
  {
    if doy0 == 365 {
      var k := (year - 1 - y1 - 4 * y4 - 100 * y100) / 400;
      assert year == 400 * k + 100 * y100 + 4 * y4 + 4;
      assert year == 4 * (100 * k + 25 * y100 + y4 + 1);
      if y4 < 24 {
        assert year == 100 * (4 * k + y100) + 4 * (y4 + 1) && 0 < 4 * (y4 + 1) < 100;
      } else {
        assert year == 400 * (k + 1);
      }
    }
  }

  /** The year count split into 400-, 100-, 4- and 1-year cycles gives the
      days before that year. */
  lemma DaysBeforeCycles(a: int, b: int, c: int, e: int)
    requires 0 <= a && 0 <= b <= 3 && 0 <= c <= 24 && 0 <= e <= 3
    ensures DaysBeforeYear(400 * a + 100 * b + 4 * c + e + 1) == a * 146097 + b * 36524 + c * 1461 + e * 365
  {
    var p := 400 * a + 100 * b + 4 * c + e;
    assert p == 4 * (100 * a + 25 * b + c) + e;
    assert p / 4 == 100 * a + 25 * b + c;
    assert p == 100 * (4 * a + b) + (4 * c + e);
    assert p / 100 == 4 * a + b;
    assert p == 400 * a + (100 * b + 4 * c + e);
    assert p / 400 == a;
  }

  /** The date of day number `n`: the inverse of DayNumber. */
  function DateOfDayNumber(n: int): (dt: DateTime)
    requires 0 <= n < DaysTo10000
    ensures IsValidDate(dt.year, dt.month, dt.day)
    ensures dt.hour == 0 && dt.minute == 0 && dt.second == 0
    ensures DayNumber(dt.year, dt.month, dt.day) == n
  {
    var (year, doy0) := YearAndDay(n);
    var month := MonthOfDay(year, doy0, 1);
    DateTime(year, month, doy0 - DaysBeforeMonth(year, month) + 1, 0, 0, 0)
  }

  lemma ClockParts(s: int)
    requires 0 <= s < 86400
    ensures s / 3600 < 24 && s == (s / 3600) * 3600 + (s / 60 % 60) * 60 + s % 60
  {
    var m := s / 60;
    assert s == m * 60 + s % 60;
    assert m == (m / 60) * 60 + m % 60;
    assert m / 60 == s / 3600;
  }

  function FromSeconds(t: int): (dt: DateTime)
    requires 0 <= t < SecondsTo10000
    ensures IsValid(dt) && ToSeconds(dt) == t
  {
    var d := DateOfDayNumber(t / 86400);
    var s := t % 86400;
    ClockParts(s);
    DateTime(d.year, d.month, d.day, s / 3600, s / 60 % 60, s % 60)
  }

  /** DateTime.AddMinutes: None where .NET throws ArgumentOutOfRangeException
      because the result would leave years 1 to 9999. */
  function AddMinutes(dt: DateTime, minutes: int): (r: Option<DateTime>)
    requires IsValid(dt)
    ensures r.Some? ==> IsValid(r.value) && ToSeconds(r.value) == ToSeconds(dt) + 60 * minutes
    ensures r.None? <==> !(0 <= ToSeconds(dt) + 60 * minutes < SecondsTo10000)
  {
    var t := ToSeconds(dt) + 60 * minutes;
    if 0 <= t < SecondsTo10000 then Some(FromSeconds(t)) else None
  }

  // ISO 8601 week numbering, as System.Globalization.ISOWeek computes it.

  /** ISO weekday: Monday is 1, Sunday is 7. */
  function IsoWeekday(year: int, month: int, day: int): (w: int)
    requires 1 <= month <= 12
    ensures 1 <= w <= 7
  {
    var d := DayOfWeek(year, month, day);
    if d == 0 then 7 else d
  }

  /** The week number before correcting for weeks that belong to the
      previous or the next ISO year (may be 0 or 53). */
  function RawWeekNumber(year: int, month: int, day: int): int
    requires 1 <= month <= 12
  {
    (DayOfYear(year, month, day) - IsoWeekday(year, month, day) + 10) / 7
  }

  function WeekStartShift(y: int): int
  {
    (y + y / 4 - y / 100 + y / 400) % 7
  }

  /** ISOWeek.GetWeeksInYear */
  function WeeksInIsoYear(year: int): (n: int)
    ensures n == 52 || n == 53
  {
    if WeekStartShift(year) == 4 || WeekStartShift(year - 1) == 3 then 53 else 52
  }

  /** ISOWeek.GetWeekOfYear */
  function IsoWeekOfYear(year: int, month: int, day: int): (w: int)
    requires IsValidDate(year, month, day)
    ensures 1 <= w <= 53
  {
    var w := RawWeekNumber(year, month, day);
    if w < 1 then WeeksInIsoYear(year - 1)
    else if w > WeeksInIsoYear(year) then 1
    else w
  }

  /** ISOWeek.GetYear */
  function IsoWeekYear(year: int, month: int, day: int): (y: int)
    requires IsValidDate(year, month, day)
    ensures year - 1 <= y <= year + 1
    ensures y == year - 1 ==> month == 1
    ensures y == year + 1 ==> month == 12
  {
    var w := RawWeekNumber(year, month, day);
    if w < 1 then year - 1
    else if w > WeeksInIsoYear(year) then year + 1
    else year
  }

  // Text formats.

  /** "yyyy" */
  function FormatYear(dt: DateTime): string
  {
    Padded(if dt.year < 0 then 0 else dt.year, 4)
  }

  /** "yyyy-MM" */
  function FormatMonth(dt: DateTime): string
  {
    FormatYear(dt) + "-" + Padded(if dt.month < 0 then 0 else dt.month, 2)
  }

  /** "yyyy-MM-dd" */
  function FormatDate(dt: DateTime): string
  {
    FormatMonth(dt) + "-" + Padded(if dt.day < 0 then 0 else dt.day, 2)
  }

  function Pad2(n: int): string
  {
    Padded(if n < 0 then 0 else n, 2)
  }

  /** "HH:mm:ss" (invariant time separator) */
  function FormatTime(dt: DateTime): string
  {
    Pad2(dt.hour) + ":" + Pad2(dt.minute) + ":" + Pad2(dt.second)
  }

  /** "yyyy-MM-dd HH:mm:ss" */
  function FormatDateTime(dt: DateTime): string
  {
    FormatDate(dt) + " " + FormatTime(dt)
  }

  /** "yyyy-MM-ddTHH:mm:ss": the ISO 8601 form of a DateTime without fraction or offset. */
  function FormatIso(dt: DateTime): string
  {
    FormatDate(dt) + "T" + FormatTime(dt)
  }

  /** The round-trip format "o" of a DateTime with whole seconds: seven
      fraction digits, then the "K" text of its kind, which is empty for an
      unspecified kind, "Z" for UTC and the "+hh:mm" offset for local time. */
  function FormatRoundTrip(dt: DateTime, zone: string): string
  {
    FormatIso(dt) + ".0000000" + zone
  }

  /** "yyyy-MM-dd_HH-mm-ss", the stamp in an archive file name. */
  function FormatFileStamp(dt: DateTime): string
  {
    FormatDate(dt) + "_" + Pad2(dt.hour) + "-" + Pad2(dt.minute) + "-" + Pad2(dt.second)
  }

  // Parsing.

  /** The shape matched by the regular expression \d{4}-\d{2}-\d{2}. */
  predicate IsDateShape(s: string)
  {
    && |s| == 10
    && AllDigits(s[..4]) && s[4] == '-' && AllDigits(s[5..7]) && s[7] == '-' && AllDigits(s[8..10])
  }

  /** DateTime.TryParse of a "yyyy-MM-dd" text: None when the calendar has no such day. */
  function ParseDate(s: string): (r: Option<DateTime>)
    requires IsDateShape(s)
    ensures r.Some? ==> IsValid(r.value)
  {
    var y, m, d := DecimalValue(s[..4]), DecimalValue(s[5..7]), DecimalValue(s[8..10]);
    if IsValidDate(y, m, d) then Some(DateTime(y, m, d, 0, 0, 0)) else None
  }

  /** Formatting a parsed date gives back the text it was parsed from. */
  lemma FormatParsedDate(s: string)
    requires IsDateShape(s) && ParseDate(s).Some?
    ensures FormatDate(ParseDate(s).value) == s
  {
    var dt := ParseDate(s).value;
    var y, m, d := s[..4], s[5..7], s[8..10];
    PaddedOfValue(y);
    PaddedOfValue(m);
    PaddedOfValue(d);
    assert FormatYear(dt) == y;
    assert FormatMonth(dt) == y + "-" + m;
    assert FormatDate(dt) == y + "-" + m + "-" + d;
    assert s == y + "-" + m + "-" + d;
  }

  /** An optional fraction ".f..." followed by an optional zone. */
  predicate IsIsoTail(s: string)
  {
    if s == [] then true
    else if s[0] == '.' then
      exists k :: 2 <= k <= |s| && AllDigits(s[1..k]) && IsZone(s[k..])
    else IsZone(s)
  }

  /** No zone, "Z", or an offset "+hh:mm" / "-hh:mm" or, hours only, "+hh" / "-hh". */
  predicate IsZone(s: string)
  {
    || s == []
    || s == "Z"
    || (|s| == 3 && (s[0] == '+' || s[0] == '-') && AllDigits(s[1..3]))
    || (|s| == 6 && (s[0] == '+' || s[0] == '-') && AllDigits(s[1..3]) && s[3] == ':' && AllDigits(s[4..6]))
  }

  predicate IsTimeShape(s: string)
  {
    |s| == 8 && AllDigits(s[..2]) && s[2] == ':' && AllDigits(s[3..5]) && s[5] == ':' && AllDigits(s[6..8])
  }

  /** "HH:mm:ss" as hour, minute and second. */
  function ParseTime(t: string): (r: (int, int, int))
    requires IsTimeShape(t)
  {
    (DecimalValue(t[..2]), DecimalValue(t[3..5]), DecimalValue(t[6..8]))
  }

  /** "HH:mm" */
  predicate IsClockShape(s: string)
  {
    |s| == 5 && AllDigits(s[..2]) && s[2] == ':' && AllDigits(s[3..5])
  }

  /** The day of a "yyyy-MM-dd" text at the given hour, minute and second:
      None when the calendar has no such day or the clock is out of range. */
  function AtTime(date: string, clock: (int, int, int)): (r: Option<DateTime>)
    requires IsDateShape(date)
    ensures r.Some? ==> IsValid(r.value)
    ensures r.Some? <==> ParseDate(date).Some? && 0 <= clock.0 < 24 && 0 <= clock.1 < 60 && 0 <= clock.2 < 60
  {
    var d := ParseDate(date);
    var (h, mi, se) := clock;
    if d.None? || h < 0 || mi < 0 || se < 0 || h >= 24 || mi >= 60 || se >= 60 then None
    else Some(DateTime(d.value.year, d.value.month, d.value.day, h, mi, se))
  }

  /** JsonElement.GetDateTime on the ISO 8601 forms .NET reads: a date
      "yyyy-MM-dd" alone (midnight); "yyyy-MM-ddTHH:mm" with an optional "Z"
      or offset (second 0); "yyyy-MM-ddTHH:mm:ss" with an optional fraction
      and an optional "Z" or offset. The fraction is dropped (whole seconds)
      and the offset is not applied (time zones are not modelled). None where
      .NET throws FormatException. */
  function ParseIso(s: string): (r: Option<DateTime>)
    ensures r.Some? ==> IsValid(r.value)
  {
    if |s| == 10 then
      if IsDateShape(s) then ParseDate(s) else None
    else if |s| < 16 || !IsDateShape(s[..10]) || s[10] != 'T' || !IsClockShape(s[11..16]) then None
    else if |s| >= 19 && s[16] == ':' then
      if IsTimeShape(s[11..19]) && IsIsoTail(s[19..]) then AtTime(s[..10], ParseTime(s[11..19])) else None
    else if IsZone(s[16..]) then
      var clock := s[11..16];
      AtTime(s[..10], (DecimalValue(clock[..2]), DecimalValue(clock[3..5]), 0))
    else None
  }

  lemma Pad2Value(n: int)
    requires 0 <= n < 100
    ensures AllDigits(Pad2(n)) && DecimalValue(Pad2(n)) == n
  {
    PaddedValue(n, 2);
  }

  lemma ParseFormatDate(dt: DateTime)
    requires IsValid(dt)
    ensures IsDateShape(FormatDate(dt))
    ensures ParseDate(FormatDate(dt)) == Some(DateTime(dt.year, dt.month, dt.day, 0, 0, 0))
  {
    var date := FormatDate(dt);
    var y, m, d := Padded(dt.year, 4), Pad2(dt.month), Pad2(dt.day);
    PaddedValue(dt.year, 4);
    Pad2Value(dt.month);
    Pad2Value(dt.day);
    assert date == y + "-" + m + "-" + d;
    assert date[..4] == y && date[5..7] == m && date[8..10] == d;
  }

  lemma ParseFormatTime(dt: DateTime)
    requires IsValid(dt)
    ensures IsTimeShape(FormatTime(dt))
    ensures ParseTime(FormatTime(dt)) == (dt.hour, dt.minute, dt.second)
  {
    var hh, mm, ss := Pad2(dt.hour), Pad2(dt.minute), Pad2(dt.second);
    Pad2Value(dt.hour);
    Pad2Value(dt.minute);
    Pad2Value(dt.second);
    var time := FormatTime(dt);
    assert time[..2] == hh && time[3..5] == mm && time[6..8] == ss;
  }

  lemma TimeShapeHasClock(t: string)
    requires IsTimeShape(t)
    ensures IsClockShape(t[..5]) && t[5] == ':'
  {
    assert t[..5][..2] == t[..2] && t[..5][3..5] == t[3..5];
  }

  /** What FormatIso writes, ParseIso reads back unchanged. */
  lemma ParseFormatIso(dt: DateTime)
    requires IsValid(dt)
    ensures ParseIso(FormatIso(dt)) == Some(dt)
  {
    var date, time := FormatDate(dt), FormatTime(dt);
    ParseFormatDate(dt);
    ParseFormatTime(dt);
    var s := FormatIso(dt);
    assert s[..10] == date && s[10] == 'T' && s[11..19] == time && s[19..] == [];
    TimeShapeHasClock(time);
    assert s[11..16] == time[..5] && s[16] == time[5];
  }

  /** What the round-trip format writes, ParseIso reads back; the offset is
      read but not applied. */
  lemma ParseFormatRoundTrip(dt: DateTime, zone: string)
    requires IsValid(dt) && IsZone(zone)
    ensures ParseIso(FormatRoundTrip(dt, zone)) == Some(dt)
  {
    var date, time := FormatDate(dt), FormatTime(dt);
    ParseFormatDate(dt);
    ParseFormatTime(dt);
    var s := FormatRoundTrip(dt, zone);
    var tail := ".0000000" + zone;
    assert s[..10] == date && s[10] == 'T' && s[11..19] == time && s[19..] == tail;
    TimeShapeHasClock(time);
    assert s[11..16] == time[..5] && s[16] == time[5];
    assert AllDigits(tail[1..8]) && tail[8..] == zone;
  }

  /** A date alone reads as midnight of that day. */
  lemma ParseDateOnly(dt: DateTime)
    requires IsValid(dt)
    ensures ParseIso(FormatDate(dt)) == Some(DateTime(dt.year, dt.month, dt.day, 0, 0, 0))
  {
    ParseFormatDate(dt);
  }

  lemma ClockTextParts(hh: string, mm: string)
    requires |hh| == 2 && |mm| == 2
    ensures var clock := hh + ":" + mm; |clock| == 5 && clock[..2] == hh && clock[2] == ':' && clock[3..5] == mm
  {
    var clock := hh + ":" + mm;
    assert clock[..2] == hh;
    assert clock[3..5] == mm;
  }

  lemma StampParts(date: string, clock: string, zone: string)
    requires |date| == 10 && |clock| == 5
    ensures var s := date + "T" + clock + zone;
      s[..10] == date && s[10] == 'T' && s[11..16] == clock && s[16..] == zone
  {
    var s := date + "T" + clock + zone;
    assert s[..10] == date;
    assert s[11..16] == clock;
    assert s[16..] == zone;
  }

  /** A date with hours and minutes, and optionally a "Z" or an offset,
      reads as that minute with second 0; the offset is read but not applied. */
  lemma ParseMinutes(dt: DateTime, zone: string)
    requires IsValid(dt) && IsZone(zone)
    ensures ParseIso(FormatDate(dt) + "T" + Pad2(dt.hour) + ":" + Pad2(dt.minute) + zone)
         == Some(DateTime(dt.year, dt.month, dt.day, dt.hour, dt.minute, 0))
  {
    var date, hh, mm := FormatDate(dt), Pad2(dt.hour), Pad2(dt.minute);
    ParseFormatDate(dt);
    Pad2Value(dt.hour);
    Pad2Value(dt.minute);
    var clock := hh + ":" + mm;
    ClockTextParts(hh, mm);
    StampParts(date, clock, zone);
    assert date + "T" + hh + ":" + mm + zone == date + "T" + clock + zone;
  }

  /** A time followed by a zone, with or without seconds, reads back with
      the zone read but not applied. */
  lemma ParseFormatIsoZone(dt: DateTime, zone: string)
    requires IsValid(dt) && IsZone(zone)
    ensures ParseIso(FormatIso(dt) + zone) == Some(dt)
  {
    var date, time := FormatDate(dt), FormatTime(dt);
    ParseFormatDate(dt);
    ParseFormatTime(dt);
    var s := FormatIso(dt) + zone;
    assert s[..10] == date && s[10] == 'T' && s[11..19] == time && s[19..] == zone;
    TimeShapeHasClock(time);
    assert s[11..16] == time[..5] && s[16] == time[5];
  }

  /** An offset of hours only, "+05", is read like "+05:00" would be. */
  lemma ParseHoursOffset(dt: DateTime)
    requires IsValid(dt)
    ensures ParseIso(FormatIso(dt) + "+05") == Some(dt)
    ensures ParseIso(FormatDate(dt) + "T" + Pad2(dt.hour) + ":" + Pad2(dt.minute) + "+05")
         == Some(DateTime(dt.year, dt.month, dt.day, dt.hour, dt.minute, 0))
  {
    var zone := "+05";
    assert zone[1..3] == "05";
    ParseFormatIsoZone(dt, zone);
    ParseMinutes(dt, zone);
  }
}
