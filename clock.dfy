// Wall-clock times as the appointment route handles them: `HH:MM` text,
// minutes of the day, and the end time the route stores. The route builds a
// JavaScript Date from `${date}T${time}`, adds the service duration in
// milliseconds and keeps the first five characters of toTimeString(). The
// text is read as the ECMAScript date-time string format reads it (`YYYY`,
// `YYYY-MM` or `YYYY-MM-DD`, then `THH:mm`, optional `:ss` and `.fraction`,
// and an optional `Z` or `±HH:mm` offset), the result is a time value in
// milliseconds from the epoch inside the Date range, and toTimeString shows
// it in the server's time zone: a fixed offset from UTC, with no
// daylight-saving shifts.

module Clock {
  import opened Optional
  import opened Text
  import opened Js
  import Sql

  const MinutesPerDay := 1440
  const MsPerMinute := 60000
  const MsPerDay := 86400000

  /** The largest time value a Date holds, on either side of the epoch. */
  const MaxTimeValue := 8_640_000_000_000_000

  /** A duration, in minutes, that no start in a four-digit year can carry out of
      the Date range (about 190 000 years). */
  const LongestDuration := 100_000_000_000

  /** The server's time zone, in minutes east of UTC. */
  type UtcOffset = z: int | -MinutesPerDay < z < MinutesPerDay

  /** What `toTimeString().slice(0, 5)` gives for an Invalid Date ("Invalid Date"). */
  const InvalidEndTime := "Inval"

  function TwoDigits(s: string, i: nat): (n: nat)
    requires i + 1 < |s| && IsDigit(s[i]) && IsDigit(s[i + 1])
    ensures n < 100
  {
    DigitValue(s[i]) * 10 + DigitValue(s[i + 1])
  }

  /** A 24-hour time `HH:MM`, optionally followed by `:SS`. */
  predicate IsClock(s: string)
  {
    && (|s| == 5 || |s| == 8)
    && IsDigit(s[0]) && IsDigit(s[1]) && s[2] == ':' && IsDigit(s[3]) && IsDigit(s[4])
    && TwoDigits(s, 0) < 24 && TwoDigits(s, 3) < 60
    && (|s| == 8 ==> s[5] == ':' && IsDigit(s[6]) && IsDigit(s[7]) && TwoDigits(s, 6) < 60)
  }

  /** The minute of the day a time names (seconds do not move the end time's minute). */
  function MinuteOfDay(s: string): (m: nat)
    requires IsClock(s)
    ensures m < MinutesPerDay
  {
    TwoDigits(s, 0) * 60 + TwoDigits(s, 3)
  }

  /** The seconds of a clock time, 0 when it has none. */
  function SecondOf(s: string): (n: nat)
    requires IsClock(s)
    ensures n < 60
  {
    if |s| == 8 then TwoDigits(s, 6) else 0
  }

  function Pad2(n: nat): (s: string)
    requires n < 100
    ensures |s| == 2 && IsDigit(s[0]) && IsDigit(s[1]) && TwoDigits(s, 0) == n
  {
    [DigitChar(n / 10), DigitChar(n % 10)]
  }

  /** The `HH:MM` text of a minute of the day. */
  function FormatClock(m: nat): (s: string)
    requires m < MinutesPerDay
    ensures |s| == 5 && IsClock(s) && MinuteOfDay(s) == m
  {
    var h, mm := Pad2(m / 60), Pad2(m % 60);
    var s := h + ":" + mm;
    assert s[0] == h[0] && s[1] == h[1] && s[3] == mm[0] && s[4] == mm[1];
    assert TwoDigits(s, 0) == TwoDigits(h, 0) && TwoDigits(s, 3) == TwoDigits(mm, 0);
    s
  }

  /** Reading a five-character time and writing it back gives the same text. */
  lemma FormatOfMinuteOfDay(s: string)
    requires IsClock(s) && |s| == 5
    ensures FormatClock(MinuteOfDay(s)) == s
  {
    var h, m := TwoDigits(s, 0), TwoDigits(s, 3);
    var r := FormatClock(MinuteOfDay(s));
    assert MinuteOfDay(s) / 60 == h && MinuteOfDay(s) % 60 == m;
    assert DigitValue(s[0]) == h / 10 && DigitValue(s[1]) == h % 10;
    assert DigitValue(s[3]) == m / 10 && DigitValue(s[4]) == m % 10;
    assert DigitValue(r[0]) == DigitValue(s[0]) && DigitValue(r[1]) == DigitValue(s[1]);
    assert DigitValue(r[3]) == DigitValue(s[3]) && DigitValue(r[4]) == DigitValue(s[4]);
  }

  /** `YYYY-MM-DD` with a month 01-12 and a day 01-31 (a day past the month's end
      runs on into the next month). */
  predicate IsIsoDate(s: string)
  {
    && |s| == 10
    && IsDigit(s[0]) && IsDigit(s[1]) && IsDigit(s[2]) && IsDigit(s[3])
    && s[4] == '-' && IsDigit(s[5]) && IsDigit(s[6]) && s[7] == '-' && IsDigit(s[8]) && IsDigit(s[9])
    && 1 <= TwoDigits(s, 5) <= 12 && 1 <= TwoDigits(s, 8) <= 31
  }

  /** The three date forms of the format: `YYYY`, `YYYY-MM` and `YYYY-MM-DD`. */
  predicate IsDateForm(s: string)
  {
    || (|s| == 4 && IsDigit(s[0]) && IsDigit(s[1]) && IsDigit(s[2]) && IsDigit(s[3]))
    || (&& |s| == 7 && IsDigit(s[0]) && IsDigit(s[1]) && IsDigit(s[2]) && IsDigit(s[3])
        && s[4] == '-' && IsDigit(s[5]) && IsDigit(s[6]) && 1 <= TwoDigits(s, 5) <= 12)
    || IsIsoDate(s)
  }

  // The date-time string format, as the Date constructor reads it.

  datatype CalendarDay = CalendarDay(year: nat, month: nat, day: nat)

  /** A time of day, with the text's own offset from UTC when it gives one. */
  datatype Clocked = Clocked(hour: nat, minute: nat, second: nat, milli: nat, offset: Option<UtcOffset>)

  datatype Moment = Moment(date: CalendarDay, time: Clocked)

  /** The field ranges the format admits; hour 24 only as the end of the day. */
  predicate InRanges(m: Moment)
  {
    && m.date.year < 10000 && 1 <= m.date.month <= 12 && 1 <= m.date.day <= 31
    && m.time.minute < 60 && m.time.second < 60 && m.time.milli < 1000
    && (m.time.hour < 24 || (m.time.hour == 24 && m.time.minute == 0 && m.time.second == 0 && m.time.milli == 0))
  }

  function FourDigits(s: string): (n: nat)
    requires |s| >= 4 && IsDigit(s[0]) && IsDigit(s[1]) && IsDigit(s[2]) && IsDigit(s[3])
    ensures n < 10000
  {
    TwoDigits(s, 0) * 100 + TwoDigits(s, 2)
  }

  /** The date at the front of the text and the number of characters it takes; a
      missing month or day is 1. */
  function DatePrefix(s: string): (r: Option<(CalendarDay, nat)>)
    ensures r.Some? ==> r.value.1 <= |s|
    ensures r.Some? ==> r.value.0.year < 10000 && 1 <= r.value.0.month <= 12 && 1 <= r.value.0.day <= 31
  {
    if !(|s| >= 4 && IsDigit(s[0]) && IsDigit(s[1]) && IsDigit(s[2]) && IsDigit(s[3])) then None
    else if |s| == 4 || s[4] != '-' then Some((CalendarDay(FourDigits(s), 1, 1), 4))
    else if !(|s| >= 7 && IsDigit(s[5]) && IsDigit(s[6]) && 1 <= TwoDigits(s, 5) <= 12) then None
    else if |s| == 7 || s[7] != '-' then Some((CalendarDay(FourDigits(s), TwoDigits(s, 5), 1), 7))
    else if !(|s| >= 10 && IsDigit(s[8]) && IsDigit(s[9]) && 1 <= TwoDigits(s, 8) <= 31) then None
    else Some((CalendarDay(FourDigits(s), TwoDigits(s, 5), TwoDigits(s, 8)), 10))
  }

  /** The milliseconds a fraction of a second names: its first three digits. */
  function Milliseconds(f: string): (ms: nat)
    requires IsDecimal(f)
    ensures ms < 1000
    ensures (ms == 0) <==> (DigitValue(f[0]) == 0 && (|f| < 2 || DigitValue(f[1]) == 0) && (|f| < 3 || DigitValue(f[2]) == 0))
  {
    if |f| == 1 then DigitValue(f[0]) * 100
    else if |f| == 2 then TwoDigits(f, 0) * 10
    else TwoDigits(f, 0) * 10 + DigitValue(f[2])
  }

  /** Every digit is a zero (true of no digits at all). */
  predicate AllZeros(f: string)
  {
    forall i :: 0 <= i < |f| ==> f[i] == '0'
  }

  /** `:ss` with an optional `.fraction`, after `HH:mm`: seconds, milliseconds, the
      characters taken, and whether the whole fraction is zero (the digits past the
      third, which the milliseconds drop, still decide whether hour 24 is allowed).
      Text that does not start with a colon has no seconds. */
  function SecondsPart(s: string): (r: Option<(nat, nat, nat, bool)>)
    ensures r.Some? ==> r.value.0 < 100 && r.value.1 < 1000 && r.value.2 <= |s|
    ensures r.Some? && r.value.3 ==> r.value.1 == 0
  {
    if s == [] || s[0] != ':' then Some((0, 0, 0, true))
    else if !(|s| >= 3 && IsDigit(s[1]) && IsDigit(s[2])) then None
    else if |s| == 3 || s[3] != '.' then Some((TwoDigits(s, 1), 0, 3, true))
    else
      var n := DigitRun(s[4..]);
      if n == 0 then None
      else
        var f := s[4..4 + n];
        Some((TwoDigits(s, 1), Milliseconds(f), 4 + n, AllZeros(f)))
  }

  predicate IsSign(c: char) { c == '+' || c == '-' }

  /** Minutes east of UTC for `+`, west for `-`. */
  function Signed(sign: char, minutes: nat): int { if sign == '-' then -(minutes as int) else minutes }

  /** What follows the time: nothing (local time), `Z` (UTC), or an offset
      `±HH:mm` or `±HHmm`; anything else makes the date invalid. */
  function OffsetPart(z: string): (r: Option<Option<UtcOffset>>)
    ensures z == [] ==> r == Some(None)
  {
    if z == [] then Some(None)
    else if z == "Z" then Some(Some(0))
    else if && |z| == 6 && IsSign(z[0]) && IsDigit(z[1]) && IsDigit(z[2]) && z[3] == ':'
            && IsDigit(z[4]) && IsDigit(z[5]) && TwoDigits(z, 1) <= 23 && TwoDigits(z, 4) <= 59 then
      Some(Some(Signed(z[0], TwoDigits(z, 1) * 60 + TwoDigits(z, 4))))
    else if && |z| == 5 && IsSign(z[0]) && IsDigit(z[1]) && IsDigit(z[2]) && IsDigit(z[3]) && IsDigit(z[4])
            && TwoDigits(z, 1) <= 23 && TwoDigits(z, 3) <= 59 then
      Some(Some(Signed(z[0], TwoDigits(z, 1) * 60 + TwoDigits(z, 3))))
    else None
  }

  /** The time after the `T`: `HH:mm`, then the seconds and the offset. Hours run
      to 24, and 24 only with minutes and seconds zero and every fraction digit zero. */
  function TimePart(t: string): (r: Option<Clocked>)
    ensures r.Some? ==> r.value.minute < 60 && r.value.second < 60 && r.value.milli < 1000
    ensures r.Some? ==>
      (r.value.hour < 24 || (r.value.hour == 24 && r.value.minute == 0 && r.value.second == 0 && r.value.milli == 0))
  {
    if !(|t| >= 5 && IsDigit(t[0]) && IsDigit(t[1]) && t[2] == ':' && IsDigit(t[3]) && IsDigit(t[4])) then None
    else
      var hour, minute := TwoDigits(t, 0), TwoDigits(t, 3);
      match SecondsPart(t[5..])
      case None => None
      case Some(sp) =>
        match OffsetPart(t[5..][sp.2..])
        case None => None
        case Some(offset) =>
          if hour > 24 || minute > 59 || sp.0 > 59 then None
          else if hour == 24 && (minute != 0 || sp.0 != 0 || !sp.3) then None
          else Some(Clocked(hour, minute, sp.0, sp.1, offset))
  }

  /** `new Date(text)` for a text in the date-time string format: the fields it
      names, or None for an Invalid Date. */
  function ParseDateTime(text: string): (r: Option<Moment>)
    ensures r.Some? ==> InRanges(r.value)
  {
    match DatePrefix(text)
    case None => None
    case Some(p) =>
      if p.1 < |text| && text[p.1] == 'T' then
        match TimePart(text[p.1 + 1..])
        case None => None
        case Some(c) => Some(Moment(p.0, c))
      else None
  }

  // Time values.

  /** The day number of January 1 of a year, counted from 1970-01-01. */
  function DayFromYear(y: int): int
  {
    365 * (y - 1970) + (y - 1969) / 4 - (y - 1901) / 100 + (y - 1601) / 400
  }

  predicate InLeapYear(y: int)
  {
    (y % 4 == 0 && y % 100 != 0) || y % 400 == 0
  }

  /** Days in the year before the first of a month. */
  function MonthStart(month: nat, leap: bool): nat
    requires 1 <= month <= 12
  {
    [0, 31, 59, 90, 120, 151, 181, 212, 243, 273, 304, 334][month - 1] + (if leap && month > 2 then 1 else 0)
  }

  /** The day number of a date; a day past the month's end runs on into the next month. */
  function DayNumber(d: CalendarDay): int
    requires 1 <= d.month <= 12
  {
    DayFromYear(d.year) + MonthStart(d.month, InLeapYear(d.year)) + d.day - 1
  }

  /** The offset a moment is read in: its own, or the server's for local time. */
  function OffsetOf(m: Moment, zone: UtcOffset): UtcOffset
  {
    if m.time.offset.Some? then m.time.offset.value else zone
  }

  /** The time value of a moment: milliseconds since the epoch, in UTC. */
  function TimeValue(m: Moment, zone: UtcOffset): int
    requires 1 <= m.date.month <= 12
  {
    DayNumber(m.date) * MsPerDay
    + ((m.time.hour * 60 + m.time.minute - OffsetOf(m, zone)) * 60 + m.time.second) * 1000 + m.time.milli
  }

  predicate InDateRange(t: int)
  {
    -MaxTimeValue <= t <= MaxTimeValue
  }

  /** The minute of the day toTimeString shows for a time value, in the server's zone. */
  function LocalMinuteOfDay(t: int, zone: UtcOffset): (m: nat)
    ensures m < MinutesPerDay
  {
    ((t + zone * MsPerMinute) / MsPerMinute) % MinutesPerDay
  }

  /** The minute of the day shown for a wall minute read at an offset and moved by
      a duration, in the server's zone. */
  function ShownMinute(wall: int, offset: int, zone: UtcOffset, duration: int): (n: nat)
    ensures n < MinutesPerDay
  {
    (wall - offset + zone + duration) % MinutesPerDay
  }

  /** The minute of the day a time of day names on the wall clock. */
  function WallMinute(c: Clocked): int
  {
    c.hour * 60 + c.minute
  }

  /** `service.duration` as the route multiplies it. The value comes back from the
      INTEGER column: as the integer SQLite read from the bound value when it
      could, and otherwise as stored, which `*` converts with Number(). */
  function StoredDuration(v: JsValue): (r: Option<int>)
    ensures v.Num? ==> r == Some(v.n)
    ensures Sql.AsInteger(v).Some? ==> r == Sql.AsInteger(v)
    ensures r.Some? <==> Sql.AsInteger(v).Some? || ToNumber(v).Some?
  {
    match Sql.AsInteger(v)
    case Some(n) => Some(n)
    case None => ToNumber(v)
  }

  /** The end time the route stores: the Date of `${date}T${start}` moved by the
      service's duration in minutes, as the first five characters of its time
      string. */
  function EndTime(date: JsValue, start: JsValue, duration: JsValue, zone: UtcOffset): (e: string)
    ensures e == InvalidEndTime || (|e| == 5 && IsClock(e))
  {
    EndOfMoment(ParseDateTime(ToText(date) + "T" + ToText(start)), StoredDuration(duration), zone)
  }

  /** An unreadable text or duration, or a time value outside the Date range, gives
      the Invalid Date text; otherwise the minute toTimeString shows. */
  function EndOfMoment(parsed: Option<Moment>, duration: Option<int>, zone: UtcOffset): (e: string)
    requires parsed.Some? ==> InRanges(parsed.value)
    ensures e == InvalidEndTime || (|e| == 5 && IsClock(e))
  {
    if parsed.None? || duration.None? then InvalidEndTime
    else
      var t0 := TimeValue(parsed.value, zone);
      var t1 := t0 + duration.value * MsPerMinute;
      if InDateRange(t0) && InDateRange(t1) then FormatClock(LocalMinuteOfDay(t1, zone))
      else InvalidEndTime
  }

  // Reading the date forms and the time forms.

  /** The day a date form names. */
  function CalendarDayOf(date: string): (d: CalendarDay)
    requires IsDateForm(date)
    ensures 1 <= d.month <= 12 && 1 <= d.day <= 31 && d.year < 10000
  {
    var y := FourDigits(date);
    if |date| == 4 then CalendarDay(y, 1, 1)
    else if |date| == 7 then CalendarDay(y, TwoDigits(date, 5), 1)
    else CalendarDay(y, TwoDigits(date, 5), TwoDigits(date, 8))
  }

  /** A date form followed by `T` reads as that day, with the time read from the rest. */
  lemma {:induction false} DateThenTime(date: string, t: string)
    requires IsDateForm(date)
    ensures ParseDateTime(date + "T" + t) ==
      (if TimePart(t).Some? then Some(Moment(CalendarDayOf(date), TimePart(t).value)) else None)
  {
    var text := date + "T" + t;
    var n := |date|;
    assert text[..n] == date && text[n] == 'T' && text[n + 1..] == t;
    assert forall i :: 0 <= i < n ==> text[i] == date[i];
    var p := DatePrefix(text);
    assert p == Some((CalendarDayOf(date), n));
  }

  /** The same, for a time that is read. */
  lemma DateThenReadTime(date: string, t: string, c: Clocked)
    requires IsDateForm(date) && TimePart(t) == Some(c)
    ensures ParseDateTime(date + "T" + t) == Some(Moment(CalendarDayOf(date), c))
  {
    DateThenTime(date, t);
  }

  /** The time of day a clock time names, with the given milliseconds and offset. */
  function ClockOf(s: string, milli: nat, offset: Option<UtcOffset>): (c: Clocked)
    requires IsClock(s)
    ensures c.hour * 60 + c.minute == MinuteOfDay(s) && c.offset == offset
  {
    Clocked(TwoDigits(s, 0), TwoDigits(s, 3), SecondOf(s), milli, offset)
  }

  /** A time `HH:MM` or `HH:MM:SS` reads as its hour, minute and second, in local time. */
  lemma TimeOfClock(s: string)
    requires IsClock(s)
    ensures TimePart(s) == Some(ClockOf(s, 0, None))
  {
    if |s| == 8 {
      assert s[5..][3..] == [];
    } else {
      assert s[5..] == [];
    }
  }

  /** Fractional seconds after `HH:MM:SS` are read and kept below the minute. */
  lemma TimeOfFraction(s: string, f: string)
    requires IsClock(s) && |s| == 8 && IsDecimal(f)
    ensures TimePart(s + "." + f) == Some(ClockOf(s, Milliseconds(f), None))
  {
    var t := s + "." + f;
    var rest := t[5..];
    assert rest == s[5..] + "." + f;
    assert rest[4..] == f;
    assert DigitRun(f) == |f|;
    assert rest[4..4 + |f|] == f;
    assert rest[4 + |f|..] == [];
  }

  /** A `Z` after the time marks it as UTC. */
  lemma TimeOfUtc(s: string)
    requires IsClock(s)
    ensures TimePart(s + "Z") == Some(ClockOf(s, 0, Some(0)))
  {
    var t := s + "Z";
    if |s| == 8 {
      assert t[5..] == s[5..] + "Z";
      assert t[5..][3..] == "Z";
    } else {
      assert t[5..] == "Z";
    }
  }

  /** An offset `±HH:MM` after the time is read as that many minutes east or west of UTC. */
  lemma TimeOfOffset(s: string, sign: char, o: string)
    requires IsClock(s) && IsSign(sign) && IsClock(o) && |o| == 5
    ensures TimePart(s + [sign] + o) == Some(ClockOf(s, 0, Some(Signed(sign, MinuteOfDay(o)))))
  {
    var t := s + [sign] + o;
    var z := [sign] + o;
    OffsetOfZone(sign, o);
    if |s| == 8 {
      assert t[5..] == s[5..] + z;
      assert t[5..][3..] == z;
    } else {
      assert t[5..] == z;
    }
  }

  /** The offset text `±HH:MM` reads as its minutes, signed. */
  lemma OffsetOfZone(sign: char, o: string)
    requires IsSign(sign) && IsClock(o) && |o| == 5
    ensures OffsetPart([sign] + o) == Some(Some(Signed(sign, MinuteOfDay(o))))
  {
    var z := [sign] + o;
    assert z[0] == sign && z[1] == o[0] && z[2] == o[1] && z[3] == ':' && z[4] == o[3] && z[5] == o[4];
    assert TwoDigits(z, 1) == TwoDigits(o, 0) && TwoDigits(z, 4) == TwoDigits(o, 3);
  }

  /** `24:00` and `24:00:00` are the end of the day: midnight of the next one. */
  lemma TimeOfMidnight24()
    ensures TimePart("24:00") == Some(Clocked(24, 0, 0, 0, None))
    ensures TimePart("24:00:00") == Some(Clocked(24, 0, 0, 0, None))
    ensures TimePart("24:00:01") == None && TimePart("24:30") == None
    ensures TimePart("24:00:00.0001") == None
  {
    assert TimePart("24:00") == Some(Clocked(24, 0, 0, 0, None)) by {
      assert "24:00"[5..] == [];
    }
    assert TimePart("24:00:00") == Some(Clocked(24, 0, 0, 0, None)) by {
      assert "24:00:00"[5..][3..] == [];
    }
    assert TimePart("24:00:01") == None by {
      assert "24:00:01"[5..][3..] == [];
    }
    assert TimePart("24:30") == None by {
      assert "24:30"[5..] == [];
    }
    assert TimePart("24:00:00.0001") == None by {
      assert "24:00:00.0001" == "24:00:00." + "0001";
      assert "0001"[3] == '1';
      TimeOfMidnight24Fraction("0001");
    }
  }

  /** `24:00:00` with a fraction is midnight exactly when every digit of the
      fraction is zero, however many digits there are. */
  lemma TimeOfMidnight24Fraction(f: string)
    requires IsDecimal(f)
    ensures TimePart("24:00:00." + f) == if AllZeros(f) then Some(Clocked(24, 0, 0, 0, None)) else None
  {
    var t := "24:00:00." + f;
    var rest := t[5..];
    assert rest == ":00." + f;
    assert rest[4..] == f;
    assert DigitRun(f) == |f|;
    assert rest[4..4 + |f|] == f;
    assert rest[4 + |f|..] == [];
    assert t[0] == '2' && t[1] == '4' && t[3] == '0' && t[4] == '0';
    assert rest[1] == '0' && rest[2] == '0';
  }

  /** A text that starts with a valid `HH:MM`, or with `24:00`. */
  predicate StartsClock(s: string)
  {
    |s| >= 5 && (IsClock(s[..5]) || s[..5] == "24:00")
  }

  /** Every time that is read starts with `HH:MM` (hours 00-23) or with `24:00`. */
  lemma StartsClockOfTime(s: string)
    requires TimePart(s).Some?
    ensures StartsClock(s)
  {
    var p := s[..5];
    assert p[0] == s[0] && p[1] == s[1] && p[2] == s[2] && p[3] == s[3] && p[4] == s[4];
    assert TwoDigits(p, 0) == TwoDigits(s, 0) && TwoDigits(p, 3) == TwoDigits(s, 3);
    if TwoDigits(s, 0) == 24 {
      assert TwoDigits(s, 3) == 0;
      assert DigitValue(s[0]) == 2 && DigitValue(s[1]) == 4;
      assert DigitValue(s[3]) == 0 && DigitValue(s[4]) == 0;
      assert p == "24:00";
    } else {
      assert IsClock(p);
    }
  }

  /** A time that does not start with `HH:MM` (hours 00-23, or 24:00) is not read. */
  lemma TimeOfNonClock(s: string)
    requires !StartsClock(s)
    ensures TimePart(s) == None
  {
    if TimePart(s).Some? {
      StartsClockOfTime(s);
      assert false;
    }
  }

  // The end minute.

  /** Moving by whole days does not change the minute of the day. */
  lemma ShiftByDays(d: int, k: int)
    ensures (d - k * MinutesPerDay) % MinutesPerDay == d % MinutesPerDay
  {
    var q := d / MinutesPerDay;
    var r := d % MinutesPerDay;
    assert d - k * MinutesPerDay == (q - k) * MinutesPerDay + r;
  }

  /** Milliseconds below a whole minute do not change the minute. */
  lemma WholeMinutes(x: int, sub: int)
    requires 0 <= sub < MsPerMinute
    ensures (x * MsPerMinute + sub) / MsPerMinute == x
  {
  }

  /** The minute of the day a moment moved by a duration shows in the server's
      zone: the wall minute, moved from the moment's offset to the server's, plus
      the duration. */
  lemma EndMinute(m: Moment, zone: UtcOffset, duration: int)
    requires InRanges(m)
    ensures LocalMinuteOfDay(TimeValue(m, zone) + duration * MsPerMinute, zone)
      == ShownMinute(WallMinute(m.time), OffsetOf(m, zone), zone, duration)
  {
    var days := DayNumber(m.date);
    var y := m.time.hour * 60 + m.time.minute - OffsetOf(m, zone) + zone + duration;
    var x := days * MinutesPerDay + y;
    var sub := m.time.second * 1000 + m.time.milli;
    assert TimeValue(m, zone) + duration * MsPerMinute + zone * MsPerMinute == x * MsPerMinute + sub;
    WholeMinutes(x, sub);
    ShiftByDays(x, days);
    assert x - days * MinutesPerDay == y;
    assert y % MinutesPerDay == ShownMinute(WallMinute(m.time), OffsetOf(m, zone), zone, duration);
  }

  lemma DayFromYearBounds(y: int)
    requires 0 <= y < 10000
    ensures -720000 <= DayFromYear(y) <= 2933000
  {
  }

  /** From a four-digit year, a duration of up to LongestDuration minutes stays
      inside the Date range. */
  lemma WithinDateRange(m: Moment, zone: UtcOffset, duration: int)
    requires InRanges(m) && -LongestDuration <= duration <= LongestDuration
    ensures InDateRange(TimeValue(m, zone))
    ensures InDateRange(TimeValue(m, zone) + duration * MsPerMinute)
  {
    DayFromYearBounds(m.date.year);
    var days := DayNumber(m.date);
    assert -720000 <= days <= 2934000;
  }

  /** EndTime is EndOfMoment of the text `${date}T${start}` read as a date-time. */
  lemma EndTimeOfText(date: string, t: string, duration: int, zone: UtcOffset)
    ensures EndTime(Str(date), Str(t), Num(duration), zone)
      == EndOfMoment(ParseDateTime(date + "T" + t), Some(duration), zone)
  {
  }

  /** Inside the Date range, EndOfMoment shows the local minute of the moved time value. */
  lemma EndOfMomentInRange(m: Moment, duration: int, zone: UtcOffset)
    requires InRanges(m)
    requires InDateRange(TimeValue(m, zone)) && InDateRange(TimeValue(m, zone) + duration * MsPerMinute)
    ensures EndOfMoment(Some(m), Some(duration), zone)
      == FormatClock(LocalMinuteOfDay(TimeValue(m, zone) + duration * MsPerMinute, zone))
  {
  }

  /** A moment in the ranges of the format, moved by a duration of at most
      LongestDuration minutes, shows its wall minute, moved from its offset to the
      server's, plus the duration, wrapped into a day. */
  lemma EndOfMomentValue(m: Moment, duration: int, zone: UtcOffset)
    requires InRanges(m) && -LongestDuration <= duration <= LongestDuration
    ensures EndOfMoment(Some(m), Some(duration), zone)
      == FormatClock(ShownMinute(WallMinute(m.time), OffsetOf(m, zone), zone, duration))
  {
    WithinDateRange(m, zone, duration);
    EndOfMomentInRange(m, duration, zone);
    EndMinute(m, zone, duration);
  }

  /** The end time of a text read as a moment. */
  lemma EndTimeOfClock(date: string, t: string, m: Moment, duration: int, zone: UtcOffset)
    requires ParseDateTime(date + "T" + t) == Some(m)
    requires -LongestDuration <= duration <= LongestDuration
    ensures EndTime(Str(date), Str(t), Num(duration), zone)
      == FormatClock(ShownMinute(WallMinute(m.time), OffsetOf(m, zone), zone, duration))
  {
    EndTimeOfText(date, t, duration, zone);
    EndOfMomentValue(m, duration, zone);
  }

  /** A date form and a clock time read as the clock's minute, in local time. */
  lemma ReadClock(date: string, s: string)
    requires IsDateForm(date) && IsClock(s)
    ensures ParseDateTime(date + "T" + s).Some?
    ensures var c := ParseDateTime(date + "T" + s).value.time;
      WallMinute(c) == MinuteOfDay(s) && c.offset == None
  {
    TimeOfClock(s);
    DateThenReadTime(date, s, ClockOf(s, 0, None));
  }

  /** The same with a fraction of a second. */
  lemma ReadFraction(date: string, s: string, f: string)
    requires IsDateForm(date) && IsClock(s) && |s| == 8 && IsDecimal(f)
    ensures ParseDateTime(date + "T" + (s + "." + f)).Some?
    ensures var c := ParseDateTime(date + "T" + (s + "." + f)).value.time;
      WallMinute(c) == MinuteOfDay(s) && c.offset == None
  {
    TimeOfFraction(s, f);
    DateThenReadTime(date, s + "." + f, ClockOf(s, Milliseconds(f), None));
  }

  /** The same in UTC. */
  lemma ReadUtc(date: string, s: string)
    requires IsDateForm(date) && IsClock(s)
    ensures ParseDateTime(date + "T" + (s + "Z")).Some?
    ensures var c := ParseDateTime(date + "T" + (s + "Z")).value.time;
      WallMinute(c) == MinuteOfDay(s) && c.offset == Some(0)
  {
    TimeOfUtc(s);
    DateThenReadTime(date, s + "Z", ClockOf(s, 0, Some(0)));
  }

  /** The same at an offset of its own. */
  lemma ReadOffset(date: string, s: string, sign: char, o: string)
    requires IsDateForm(date) && IsClock(s) && IsSign(sign) && IsClock(o) && |o| == 5
    ensures ParseDateTime(date + "T" + (s + [sign] + o)).Some?
    ensures var c := ParseDateTime(date + "T" + (s + [sign] + o)).value.time;
      WallMinute(c) == MinuteOfDay(s) && c.offset == Some(Signed(sign, MinuteOfDay(o)))
  {
    TimeOfOffset(s, sign, o);
    DateThenReadTime(date, s + [sign] + o, ClockOf(s, 0, Some(Signed(sign, MinuteOfDay(o)))));
  }

  // The shown minute for each kind of start, on plain integers.

  lemma ShownOfLocal(w: int, a: int, zone: UtcOffset, duration: int)
    requires w == a
    ensures ShownMinute(w, zone, zone, duration) == (a + duration) % MinutesPerDay
  {
  }

  lemma ShownOfOffset(w: int, a: int, offset: int, zone: UtcOffset, duration: int)
    requires w == a
    ensures ShownMinute(w, offset, zone, duration) == (a - offset + zone + duration) % MinutesPerDay
  {
  }

  lemma ShownOfUtc(w: int, a: int, zone: UtcOffset, duration: int)
    requires w == a
    ensures ShownMinute(w, 0, zone, duration) == (a + zone + duration) % MinutesPerDay
  {
  }

  /** Past midnight, the minute wraps once. */
  lemma WrapOnce(a: int, duration: int, b: int)
    requires 0 <= a < MinutesPerDay && 0 <= duration < MinutesPerDay && a + duration >= MinutesPerDay
    requires b == (a + duration) % MinutesPerDay
    ensures b == a + duration - MinutesPerDay < a
  {
  }

  /** The wrapped end minute lies the duration after the start, modulo a day. */
  lemma ElapsedOnClockFace(a: int, duration: int, b: int)
    requires 0 <= a < MinutesPerDay && b == (a + duration) % MinutesPerDay
    ensures (b - a) % MinutesPerDay == duration % MinutesPerDay
  {
    var k := (a + duration) / MinutesPerDay;
    assert (a + duration) % MinutesPerDay - a == duration - k * MinutesPerDay;
    ShiftByDays(duration, k);
  }

  /** The end time of a local clock time after a date form. */
  lemma EndTimeOfLocalClock(date: string, start: string, duration: int, zone: UtcOffset)
    requires IsDateForm(date) && IsClock(start)
    requires -LongestDuration <= duration <= LongestDuration
    ensures EndTime(Str(date), Str(start), Num(duration), zone)
      == FormatClock((MinuteOfDay(start) + duration) % MinutesPerDay)
  {
    ReadClock(date, start);
    var m := ParseDateTime(date + "T" + start).value;
    EndTimeOfClock(date, start, m, duration, zone);
    ShownOfLocal(WallMinute(m.time), MinuteOfDay(start), zone, duration);
  }

  /** The end time of a local clock time with a fraction of a second. */
  lemma EndTimeOfFraction(date: string, start: string, f: string, duration: int, zone: UtcOffset)
    requires IsDateForm(date) && IsClock(start) && |start| == 8 && IsDecimal(f)
    requires -LongestDuration <= duration <= LongestDuration
    ensures EndTime(Str(date), Str(start + "." + f), Num(duration), zone)
      == FormatClock((MinuteOfDay(start) + duration) % MinutesPerDay)
  {
    ReadFraction(date, start, f);
    var m := ParseDateTime(date + "T" + (start + "." + f)).value;
    EndTimeOfClock(date, start + "." + f, m, duration, zone);
    ShownOfLocal(WallMinute(m.time), MinuteOfDay(start), zone, duration);
  }

  /** For a date form and a clock time, the end time is the start minute plus the
      duration, wrapped into one day, whatever the server's zone. */
  lemma {:induction false} EndTimeOfWellFormed(date: string, start: string, duration: int, zone: UtcOffset)
    requires IsDateForm(date) && IsClock(start)
    requires -LongestDuration <= duration <= LongestDuration
    ensures var e := EndTime(Str(date), Str(start), Num(duration), zone);
      IsClock(e) && MinuteOfDay(e) == (MinuteOfDay(start) + duration) % MinutesPerDay
  {
    EndTimeOfLocalClock(date, start, duration, zone);
  }

  /** The end time always lies `duration` minutes after the start on the clock face. */
  lemma EndTimeElapsed(date: string, start: string, duration: int, zone: UtcOffset)
    requires IsDateForm(date) && IsClock(start)
    requires -LongestDuration <= duration <= LongestDuration
    ensures var e := EndTime(Str(date), Str(start), Num(duration), zone);
      IsClock(e) && (MinuteOfDay(e) - MinuteOfDay(start)) % MinutesPerDay == duration % MinutesPerDay
  {
    EndTimeOfWellFormed(date, start, duration, zone);
    var e := EndTime(Str(date), Str(start), Num(duration), zone);
    ElapsedOnClockFace(MinuteOfDay(start), duration, MinuteOfDay(e));
  }

  /** A booking that runs past midnight gets an end time earlier than its start. */
  lemma EndTimeWrapsPastMidnight(date: string, start: string, duration: int, zone: UtcOffset)
    requires IsDateForm(date) && IsClock(start)
    requires 0 <= duration < MinutesPerDay && MinuteOfDay(start) + duration >= MinutesPerDay
    ensures var e := EndTime(Str(date), Str(start), Num(duration), zone);
      IsClock(e) && MinuteOfDay(e) == MinuteOfDay(start) + duration - MinutesPerDay < MinuteOfDay(start)
  {
    EndTimeOfWellFormed(date, start, duration, zone);
    var e := EndTime(Str(date), Str(start), Num(duration), zone);
    WrapOnce(MinuteOfDay(start), duration, MinuteOfDay(e));
  }

  /** A start of `24:00` is the next day's midnight. */
  lemma EndTimeOfMidnight24(date: string, duration: int, zone: UtcOffset)
    requires IsDateForm(date)
    requires -LongestDuration <= duration <= LongestDuration
    ensures var e := EndTime(Str(date), Str("24:00"), Num(duration), zone);
      IsClock(e) && MinuteOfDay(e) == duration % MinutesPerDay
  {
    var m := Moment(CalendarDayOf(date), Clocked(24, 0, 0, 0, None));
    TimeOfMidnight24();
    DateThenReadTime(date, "24:00", m.time);
    EndTimeOfClock(date, "24:00", m, duration, zone);
    ShownOfLocal(WallMinute(m.time), MinutesPerDay, zone, duration);
    ShiftByDays(MinutesPerDay + duration, 1);
  }

  /** Fractional seconds do not move the end time. */
  lemma EndTimeIgnoresFraction(date: string, start: string, f: string, duration: int, zone: UtcOffset)
    requires IsDateForm(date) && IsClock(start) && |start| == 8 && IsDecimal(f)
    requires -LongestDuration <= duration <= LongestDuration
    ensures EndTime(Str(date), Str(start + "." + f), Num(duration), zone)
      == EndTime(Str(date), Str(start), Num(duration), zone)
  {
    EndTimeOfFraction(date, start, f, duration, zone);
    EndTimeOfLocalClock(date, start, duration, zone);
  }

  /** A start written in UTC (`Z`) ends at the start plus the duration, shown in the
      server's zone. */
  lemma EndTimeOfUtcStart(date: string, start: string, duration: int, zone: UtcOffset)
    requires IsDateForm(date) && IsClock(start)
    requires -LongestDuration <= duration <= LongestDuration
    ensures var e := EndTime(Str(date), Str(start + "Z"), Num(duration), zone);
      IsClock(e) && MinuteOfDay(e) == (MinuteOfDay(start) + zone + duration) % MinutesPerDay
  {
    ReadUtc(date, start);
    var m := ParseDateTime(date + "T" + (start + "Z")).value;
    EndTimeOfClock(date, start + "Z", m, duration, zone);
    ShownOfUtc(WallMinute(m.time), MinuteOfDay(start), zone, duration);
  }

  /** A start with its own offset is moved from that offset to the server's zone. */
  lemma EndTimeOfOffsetStart(date: string, start: string, sign: char, o: string, duration: int, zone: UtcOffset)
    requires IsDateForm(date) && IsClock(start) && IsSign(sign) && IsClock(o) && |o| == 5
    requires -LongestDuration <= duration <= LongestDuration
    ensures var e := EndTime(Str(date), Str(start + [sign] + o), Num(duration), zone);
      IsClock(e) && MinuteOfDay(e) == (MinuteOfDay(start) - Signed(sign, MinuteOfDay(o)) + zone + duration) % MinutesPerDay
  {
    var off := Signed(sign, MinuteOfDay(o));
    ReadOffset(date, start, sign, o);
    var m := ParseDateTime(date + "T" + (start + [sign] + o)).value;
    EndTimeOfClock(date, start + [sign] + o, m, duration, zone);
    ShownOfOffset(WallMinute(m.time), MinuteOfDay(start), off, zone, duration);
  }

  /** A duration longer than the whole Date range gives the Invalid Date text. */
  lemma EndTimeBeyondDateRange(date: JsValue, start: JsValue, duration: int, zone: UtcOffset)
    requires duration * MsPerMinute > 2 * MaxTimeValue || duration * MsPerMinute < -2 * MaxTimeValue
    ensures EndTime(date, start, Num(duration), zone) == InvalidEndTime
  {
  }

  /** A start that does not begin with `HH:MM` (or `24:00`) gives the Invalid Date text. */
  lemma EndTimeOfMalformedStart(date: string, start: string, duration: JsValue, zone: UtcOffset)
    requires IsDateForm(date) && !StartsClock(start)
    ensures EndTime(Str(date), Str(start), duration, zone) == InvalidEndTime
  {
    TimeOfNonClock(start);
    DateThenTime(date, start);
  }

  /** A duration that neither SQLite stores as an integer nor Number() reads gives
      the Invalid Date text. */
  lemma EndTimeOfNaNDuration(date: JsValue, start: JsValue, duration: JsValue, zone: UtcOffset)
    requires Sql.AsInteger(duration).None? && ToNumber(duration).None?
    ensures EndTime(date, start, duration, zone) == InvalidEndTime
  {
  }

  /** A duration sent as a one-element array, `[60]` or `["60"]`, is stored as its
      element is, since the driver binds the array as the text of that element. */
  lemma EndTimeOfSingletonDuration(date: JsValue, start: JsValue, x: JsValue, zone: UtcOffset)
    requires x.Str? || x.Num?
    ensures EndTime(date, start, Arr([x]), zone) == EndTime(date, start, x, zone)
  {
    Sql.AsIntegerOfSingleton(x);
    SingletonText(x);
  }
}
