/**
 The date-time format check: calendar arithmetic, the shift of a local date to UTC, leap seconds
 and the fixed-layout text.
 */
module Rfc3339 {
  import opened Wrappers
  import opened Text

  // ---------------------------------------------------------------- calendar

  predicate IsLeapYear(year: int) {
    year % 4 == 0 && (year % 100 != 0 || year % 400 == 0)
  }

  function MonthLength(year: int, month: int): int
    requires 1 <= month <= 12
  {
    [31, if IsLeapYear(year) then 29 else 28, 31, 30, 31, 30, 31, 31, 30, 31, 30, 31][month - 1]
  }

  predicate ValidDate(year: int, month: int, day: int) {
    1 <= month <= 12 && 1 <= day <= MonthLength(year, month)
  }

  function ShiftDateByOneDay(year: int, month: int, day: int, direction: int): (int, int, int)
    requires ValidDate(year, month, day) && -1 <= direction <= 1
  {
    if direction == 0 then (year, month, day)
    else if direction == 1 then
      if day < MonthLength(year, month) then (year, month, day + 1)
      else if month < 12 then (year, month + 1, 1)
      else (year + 1, 1, 1)
    else if day > 1 then (year, month, day - 1)
    else if month > 1 then (year, month - 1, MonthLength(year, month - 1))
    else (year - 1, 12, 31)
  }

  /** Multiples of `n` among 0, 1, ... before `year`, counted negatively before 0. */
  function MultiplesBefore(year: int, n: nat): int
    requires n > 0
  {
    (year + n - 1) / n
  }

  function LeapYearsBefore(year: int): int {
    MultiplesBefore(year, 4) - MultiplesBefore(year, 100) + MultiplesBefore(year, 400)
  }

  function DaysBeforeYear(year: int): int {
    365 * year + LeapYearsBefore(year)
  }

  function DaysBeforeMonth(year: int, month: int): int
    requires 1 <= month <= 13
    decreases month
  {
    if month == 1 then 0 else DaysBeforeMonth(year, month - 1) + MonthLength(year, month - 1)
  }

  /** The day's number in one unbroken count of days. */
  function DayNumber(year: int, month: int, day: int): int
    requires ValidDate(year, month, day)
  {
    DaysBeforeYear(year) + DaysBeforeMonth(year, month) + day - 1
  }

  lemma MultiplesStep(year: int, n: nat)
    requires n == 4 || n == 100 || n == 400
    ensures MultiplesBefore(year + 1, n) == MultiplesBefore(year, n) + if year % n == 0 then 1 else 0
  {
    if n == 4 {
      assert (year + 4) / 4 == (year + 3) / 4 + if year % 4 == 0 then 1 else 0;
    } else if n == 100 {
      assert (year + 100) / 100 == (year + 99) / 100 + if year % 100 == 0 then 1 else 0;
    } else {
      assert (year + 400) / 400 == (year + 399) / 400 + if year % 400 == 0 then 1 else 0;
    }
  }

  lemma YearStep(year: int)
    ensures DaysBeforeYear(year + 1) == DaysBeforeYear(year) + if IsLeapYear(year) then 366 else 365
  {
    hide MultiplesBefore, IsLeapYear;
    MultiplesStep(year, 4);
    MultiplesStep(year, 100);
    MultiplesStep(year, 400);
    LeapOnce(year);
  }

  lemma LeapOnce(year: int)
    ensures (if IsLeapYear(year) then 1 else 0) ==
      (if year % 4 == 0 then 1 else 0) - (if year % 100 == 0 then 1 else 0) + if year % 400 == 0 then 1 else 0
  {
    if year % 100 == 0 {
      FoursInHundreds(year);
    }
    if year % 400 == 0 {
      HundredsInFourHundreds(year);
    }
  }

  lemma FoursInHundreds(year: int)
    requires year % 100 == 0
    ensures year % 4 == 0
  {
    var q := year / 100;
    assert year == 4 * (25 * q);
  }

  lemma HundredsInFourHundreds(year: int)
    requires year % 400 == 0
    ensures year % 100 == 0
  {
    var q := year / 400;
    assert year == 100 * (4 * q);
  }

  lemma YearLength(year: int)
    ensures DaysBeforeMonth(year, 1) == 0 && DaysBeforeMonth(year, 13) == if IsLeapYear(year) then 366 else 365
    ensures forall m | 1 <= m <= 12 :: DaysBeforeMonth(year, m + 1) == DaysBeforeMonth(year, m) + MonthLength(year, m)
  {
    assert DaysBeforeMonth(year, 4) == 62 + MonthLength(year, 2);
    assert DaysBeforeMonth(year, 7) == DaysBeforeMonth(year, 4) + 91;
    assert DaysBeforeMonth(year, 10) == DaysBeforeMonth(year, 7) + 92;
    assert DaysBeforeMonth(year, 13) == DaysBeforeMonth(year, 10) + 92;
  }

  /** Days before a month in closed form: from March on the months take 30.6 days each, rounded down. */
  function DaysBefore(year: int, month: int): int {
    if month == 1 then 0 else if month == 2 then 31
    else (153 * (month - 3) + 2) / 5 + if year % 4 == 0 && (year % 100 != 0 || year % 400 == 0) then 60 else 59
  }

  /** The day's number in closed form. */
  function Days(year: int, month: int, day: int): int {
    365 * year + (year + 3) / 4 - (year + 99) / 100 + (year + 399) / 400 + DaysBefore(year, month) + day - 1
  }

  /** A date of the proleptic Gregorian calendar, by the closed form. */
  predicate OnCalendar(year: int, month: int, day: int) {
    1 <= month <= 12 && 1 <= day <= DaysBefore(year, month + 1) - DaysBefore(year, month)
  }

  lemma ClosedForm(year: int, month: int)
    requires 1 <= month <= 13
    ensures DaysBefore(year, month) ==
      [0, 31, 59, 90, 120, 151, 181, 212, 243, 273, 304, 334, 365][month - 1] + if month > 2 && IsLeapYear(year) then 1 else 0
  {
    assert month > 2 ==> month in {3, 4, 5, 6, 7, 8, 9, 10, 11, 12, 13};
  }

  lemma MonthSums(year: int, month: int)
    requires 1 <= month <= 13
    ensures DaysBeforeMonth(year, month) ==
      [0, 31, 59, 90, 120, 151, 181, 212, 243, 273, 304, 334, 365][month - 1] + if month > 2 && IsLeapYear(year) then 1 else 0
  {
    hide IsLeapYear;
    YearLength(year);
    assert DaysBeforeMonth(year, 4) == 62 + MonthLength(year, 2);
    assert DaysBeforeMonth(year, 7) == DaysBeforeMonth(year, 4) + 91;
    assert DaysBeforeMonth(year, 10) == DaysBeforeMonth(year, 7) + 92;
  }

  /** The calendar of the program is the Gregorian one. */
  lemma CalendarExactly(year: int, month: int, day: int)
    ensures ValidDate(year, month, day) <==> OnCalendar(year, month, day)
    ensures ValidDate(year, month, day) ==> DayNumber(year, month, day) == Days(year, month, day)
  {
    hide IsLeapYear, DaysBefore, DaysBeforeMonth;
    if 1 <= month <= 12 {
      ClosedForm(year, month);
      ClosedForm(year, month + 1);
      MonthSums(year, month);
    }
  }

  /** Shifting by one day moves the day number by one, in either direction and across every boundary. */
  lemma ShiftMovesOneDay(year: int, month: int, day: int, direction: int)
    requires ValidDate(year, month, day) && -1 <= direction <= 1
    ensures var (y, m, d) := ShiftDateByOneDay(year, month, day, direction);
            ValidDate(y, m, d) && DayNumber(y, m, d) == DayNumber(year, month, day) + direction
  {
    hide IsLeapYear, DaysBeforeYear, DaysBeforeMonth;
    YearLength(year);
    YearLength(year - 1);
    YearLength(year + 1);
    YearStep(year);
    YearStep(year - 1);
  }

  lemma {:induction false} MonthsGrow(year: int, m: int, n: int)
    requires 1 <= m <= n <= 13
    ensures DaysBeforeMonth(year, m) <= DaysBeforeMonth(year, n)
    ensures m < n ==> DaysBeforeMonth(year, m) + MonthLength(year, m) <= DaysBeforeMonth(year, n)
    decreases n
  {
    if m < n {
      MonthsGrow(year, m, n - 1);
    }
  }

  lemma {:induction false} YearsGrow(y: int, z: int)
    requires y <= z
    ensures DaysBeforeYear(y) <= DaysBeforeYear(z)
    ensures y < z ==> DaysBeforeYear(y + 1) <= DaysBeforeYear(z)
    decreases z - y
  {
    if y < z {
      YearsGrow(y, z - 1);
      YearStep(z - 1);
    }
  }

  lemma DayWithinYear(year: int, month: int, day: int)
    requires ValidDate(year, month, day)
    ensures DaysBeforeYear(year) <= DayNumber(year, month, day) < DaysBeforeYear(year + 1)
  {
    MonthsGrow(year, 1, month);
    MonthsGrow(year, month, 13);
    YearLength(year);
    YearStep(year);
  }

  /** A day number names one calendar date. */
  lemma DayNumberInjective(y: int, m: int, d: int, y': int, m': int, d': int)
    requires ValidDate(y, m, d) && ValidDate(y', m', d') && DayNumber(y, m, d) == DayNumber(y', m', d')
    ensures (y, m, d) == (y', m', d')
  {
    DayWithinYear(y, m, d);
    DayWithinYear(y', m', d');
    if y < y' { YearsGrow(y, y'); }
    if y' < y { YearsGrow(y', y); }
    if m < m' { MonthsGrow(y, m, m'); }
    if m' < m { MonthsGrow(y, m', m); }
  }

  // ---------------------------------------------------------------- leap seconds

  /** Announced positive leap-second dates, as year * 10000 + month * 100 + day. */
  const KNOWN_POSITIVE_LEAP_SECOND_UTC_DATES: set<int> := {
    19720630, 19721231, 19731231, 19741231, 19751231, 19761231, 19771231, 19781231, 19791231,
    19810630, 19820630, 19830630, 19850630, 19871231, 19891231, 19901231, 19920630, 19930630,
    19940630, 19951231, 19970630, 19981231, 20051231, 20081231, 20120630, 20150630, 20161231
  }

  predicate Announced(year: int, month: int, day: int) {
    year * 10000 + month * 100 + day in KNOWN_POSITIVE_LEAP_SECOND_UTC_DATES
  }

  /** The announced dates: eleven ends of June and sixteen of December. */
  lemma AnnouncedExactly(year: int, month: int, day: int)
    requires 1 <= month <= 12 && 1 <= day <= 31
    ensures Announced(year, month, day) <==>
      || (month == 6 && day == 30 && year in {1972, 1981, 1982, 1983, 1985, 1992, 1993, 1994, 1997, 2012, 2015})
      || (month == 12 && day == 31 &&
          (1972 <= year <= 1979 || year in {1987, 1989, 1990, 1995, 1998, 2005, 2008, 2016}))
  {
  }

  datatype Offset = Zulu | Numeric(ahead: bool, hour: nat, minute: nat)

  predicate ValidOffset(o: Offset) {
    o.Numeric? ==> o.hour <= 23 && o.minute <= 59
  }

  function SignedOffsetMinutes(o: Offset): int {
    if o.Zulu? then 0 else (if o.ahead then 1 else -1) * (o.hour * 60 + o.minute)
  }

  /** JavaScript's remainder takes the sign of the dividend. */
  function JsRemainder(a: int, b: nat): int
    requires b > 0
  {
    if a >= 0 then a % b else -((-a) % b)
  }

  predicate IsValidLeapSecondInstant(year: int, month: int, day: int, hour: nat, minute: nat, offset: Offset)
    requires ValidDate(year, month, day) && hour <= 23 && minute <= 59 && ValidOffset(offset)
  {
    var unnormalized := hour * 60 + minute - SignedOffsetMinutes(offset);
    var dayShift := if unnormalized < 0 then -1 else if unnormalized >= 24 * 60 then 1 else 0;
    var utcMinute := JsRemainder(JsRemainder(unnormalized, 24 * 60) + 24 * 60, 24 * 60);
    utcMinute == 23 * 60 + 59 &&
    var (utcYear, utcMonth, utcDay) := ShiftDateByOneDay(year, month, day, dayShift);
    Announced(utcYear, utcMonth, utcDay)
  }

  /** The UTC minute count of a local time: local minutes minus the offset. */
  function UtcMinutes(year: int, month: int, day: int, hour: nat, minute: nat, offset: Offset): int
    requires ValidDate(year, month, day)
  {
    DayNumber(year, month, day) * 1440 + hour * 60 + minute - SignedOffsetMinutes(offset)
  }

  /** The calendar instant `minute` of that UTC date has this minute count. */
  ghost predicate IsUtcInstant(total: int, year: int, month: int, day: int, minute: int) {
    0 <= minute < 1440 && ValidDate(year, month, day) && DayNumber(year, month, day) * 1440 + minute == total
  }

  lemma UtcInstantUnique(total: int, y: int, m: int, d: int, k: int, y': int, m': int, d': int, k': int)
    requires IsUtcInstant(total, y, m, d, k) && IsUtcInstant(total, y', m', d', k')
    ensures (y, m, d, k) == (y', m', d', k')
  {
    hide DayNumber;
    assert DayNumber(y, m, d) == DayNumber(y', m', d');
    DayNumberInjective(y, m, d, y', m', d');
  }

  /** The day shift and the wrapped minute are exactly the UTC calendar instant of the local time. */
  lemma ShiftIsUtcInstant(year: int, month: int, day: int, hour: nat, minute: nat, offset: Offset)
    requires ValidDate(year, month, day) && hour <= 23 && minute <= 59 && ValidOffset(offset)
    ensures var u := hour * 60 + minute - SignedOffsetMinutes(offset);
            var (y, m, d) := ShiftDateByOneDay(year, month, day, if u < 0 then -1 else if u >= 1440 then 1 else 0);
            IsUtcInstant(UtcMinutes(year, month, day, hour, minute, offset), y, m, d,
                         JsRemainder(JsRemainder(u, 1440) + 1440, 1440))
  {
    hide DayNumber;
    var u := hour * 60 + minute - SignedOffsetMinutes(offset);
    ShiftMovesOneDay(year, month, day, if u < 0 then -1 else if u >= 1440 then 1 else 0);
    WrapMinute(u);
  }

  lemma WrapMinute(u: int)
    requires -1440 < u < 2880
    ensures JsRemainder(JsRemainder(u, 1440) + 1440, 1440) ==
            if u < 0 then u + 1440 else if u >= 1440 then u - 1440 else u
  {
  }

  /** second = 60 is accepted exactly at 23:59 UTC of an announced date. */
  lemma LeapSecondExactly(year: int, month: int, day: int, hour: nat, minute: nat, offset: Offset)
    requires ValidDate(year, month, day) && hour <= 23 && minute <= 59 && ValidOffset(offset)
    ensures IsValidLeapSecondInstant(year, month, day, hour, minute, offset) <==>
            exists y, m, d ::
              IsUtcInstant(UtcMinutes(year, month, day, hour, minute, offset), y, m, d, 1439) && Announced(y, m, d)
  {
    hide DayNumber, IsUtcInstant, Announced, ShiftDateByOneDay, JsRemainder;
    var total := UtcMinutes(year, month, day, hour, minute, offset);
    ShiftIsUtcInstant(year, month, day, hour, minute, offset);
    var u := hour * 60 + minute - SignedOffsetMinutes(offset);
    var (y, m, d) := ShiftDateByOneDay(year, month, day, if u < 0 then -1 else if u >= 1440 then 1 else 0);
    var k := JsRemainder(JsRemainder(u, 1440) + 1440, 1440);
    assert IsUtcInstant(total, y, m, d, k);
    forall y', m', d' | IsUtcInstant(total, y', m', d', 1439) ensures (y, m, d, k) == (y', m', d', 1439) {
      UtcInstantUnique(total, y, m, d, k, y', m', d', 1439);
    }
  }

  // ---------------------------------------------------------------- the text layout

  datatype DateTime = DateTime(year: nat, month: nat, day: nat, hour: nat, minute: nat, second: nat,
                               fraction: Option<Str>, offset: Offset)

  const DASH: CodeUnit := 0x2D
  const COLON: CodeUnit := 0x3A
  const DOT: CodeUnit := 0x2E
  const PLUS: CodeUnit := 0x2B
  const UPPER_T: CodeUnit := 0x54
  const UPPER_Z: CodeUnit := 0x5A

  /** Every number fits its fixed field and a fraction has at least one digit. */
  predicate FitsLayout(t: DateTime) {
    && t.year < 10000 && t.month < 100 && t.day < 100 && t.hour < 100 && t.minute < 100 && t.second < 100
    && (t.fraction.Some? ==> t.fraction.value != [] && IsDigits(t.fraction.value))
    && (t.offset.Numeric? ==> t.offset.hour < 100 && t.offset.minute < 100)
  }

  function Two(n: nat): (s: Str)
    requires n < 100
    ensures |s| == 2
  {
    [Digit(n / 10), Digit(n % 10)]
  }

  function OffsetText(o: Offset): Str
    requires o.Numeric? ==> o.hour < 100 && o.minute < 100
  {
    if o.Zulu? then [UPPER_Z]
    else [if o.ahead then PLUS else DASH] + Two(o.hour) + [COLON] + Two(o.minute)
  }

  function Format(t: DateTime): Str
    requires FitsLayout(t)
  {
    Two(t.year / 100) + Two(t.year % 100) + [DASH] + Two(t.month) + [DASH] + Two(t.day) + [UPPER_T] +
    Two(t.hour) + [COLON] + Two(t.minute) + [COLON] + Two(t.second) +
    (if t.fraction.Some? then [DOT] + t.fraction.value else []) + OffsetText(t.offset)
  }

  predicate IsDigit(c: CodeUnit) {
    0x30 <= c <= 0x39
  }

  predicate TwoDigitsAt(s: Str, i: nat) {
    i + 2 <= |s| && IsDigit(s[i]) && IsDigit(s[i + 1])
  }

  function TwoAt(s: Str, i: nat): (n: nat)
    requires TwoDigitsAt(s, i)
    ensures n < 100
  {
    (s[i] - 0x30) * 10 + (s[i + 1] - 0x30)
  }

  /** Length of the longest run of digits at the start. */
  function DigitRun(s: Str): (n: nat)
    ensures n <= |s| && IsDigits(s[..n]) && (n < |s| ==> !IsDigit(s[n]))
  {
    if s == [] || !IsDigit(s[0]) then 0 else 1 + DigitRun(s[1..])
  }

  function MatchOffset(s: Str): Option<Offset> {
    if s == [UPPER_Z] then Some(Zulu)
    else if |s| == 6 && (s[0] == PLUS || s[0] == DASH) && TwoDigitsAt(s, 1) && s[3] == COLON && TwoDigitsAt(s, 4)
    then Some(Numeric(s[0] == PLUS, TwoAt(s, 1), TwoAt(s, 4)))
    else None
  }

  /** The optional fraction and the offset after the seconds. */
  function MatchTail(s: Str): Option<(Option<Str>, Offset)> {
    if s != [] && s[0] == DOT then
      var n := DigitRun(s[1..]);
      if n == 0 then None
      else
        match MatchOffset(s[1 + n..])
        case None => None
        case Some(o) => Some((Some(s[1..1 + n]), o))
    else
      match MatchOffset(s)
      case None => None
      case Some(o) => Some((None, o))
  }

  predicate HeadLayout(s: Str) {
    && |s| >= 19
    && TwoDigitsAt(s, 0) && TwoDigitsAt(s, 2) && s[4] == DASH && TwoDigitsAt(s, 5) && s[7] == DASH && TwoDigitsAt(s, 8)
    && s[10] == UPPER_T && TwoDigitsAt(s, 11) && s[13] == COLON && TwoDigitsAt(s, 14) && s[16] == COLON && TwoDigitsAt(s, 17)
  }

  /** The regular expression of the format, with its capture groups. */
  function MatchDateTime(s: Str): Option<DateTime> {
    if !HeadLayout(s) then None
    else
      match MatchTail(s[19..])
      case None => None
      case Some((fraction, offset)) =>
        Some(DateTime(TwoAt(s, 0) * 100 + TwoAt(s, 2), TwoAt(s, 5), TwoAt(s, 8), TwoAt(s, 11), TwoAt(s, 14), TwoAt(s, 17),
                      fraction, offset))
  }

  predicate IsValidRfc3339DateTime(value: Str) {
    match MatchDateTime(value)
    case None => false
    case Some(t) =>
      if t.month < 1 || t.month > 12 || t.hour > 23 || t.minute > 59 || t.second > 60 then false
      else if !ValidOffset(t.offset) then false
      else if t.day < 1 || t.day > MonthLength(t.year, t.month) then false
      else if t.second == 60 then IsValidLeapSecondInstant(t.year, t.month, t.day, t.hour, t.minute, t.offset)
      else true
  }

  lemma TwoOf(s: Str, i: nat)
    requires TwoDigitsAt(s, i)
    ensures Two(TwoAt(s, i)) == s[i..i + 2]
  {
  }

  lemma OffsetExact(s: Str, o: Offset)
    ensures MatchOffset(s) == Some(o) <==> (o.Numeric? ==> o.hour < 100 && o.minute < 100) && s == OffsetText(o)
  {
    if MatchOffset(s) == Some(o) && o.Numeric? {
      TwoOf(s, 1);
      TwoOf(s, 4);
    }
  }

  lemma {:induction false} DigitRunStops(digits: Str, rest: Str)
    requires IsDigits(digits) && (rest == [] || !IsDigit(rest[0]))
    ensures DigitRun(digits + rest) == |digits|
  {
    if digits == [] {
      assert digits + rest == rest;
    } else {
      assert (digits + rest)[1..] == digits[1..] + rest;
      DigitRunStops(digits[1..], rest);
    }
  }

  function TailText(fraction: Option<Str>, o: Offset): Str
    requires o.Numeric? ==> o.hour < 100 && o.minute < 100
  {
    (if fraction.Some? then [DOT] + fraction.value else []) + OffsetText(o)
  }

  lemma TailExact(s: Str, fraction: Option<Str>, o: Offset)
    requires o.Numeric? ==> o.hour < 100 && o.minute < 100
    requires fraction.Some? ==> fraction.value != [] && IsDigits(fraction.value)
    ensures s == TailText(fraction, o) ==> MatchTail(s) == Some((fraction, o))
  {
    if s == TailText(fraction, o) {
      OffsetExact(OffsetText(o), o);
      if fraction.Some? {
        DigitRunStops(fraction.value, OffsetText(o));
        assert s[1..] == fraction.value + OffsetText(o);
        assert s[1..1 + |fraction.value|] == fraction.value;
        assert s[1 + |fraction.value|..] == OffsetText(o);
      } else {
        assert s == OffsetText(o);
      }
    }
  }

  lemma TailSound(s: Str)
    requires MatchTail(s).Some?
    ensures var (fraction, o) := MatchTail(s).value;
            && (o.Numeric? ==> o.hour < 100 && o.minute < 100)
            && (fraction.Some? ==> fraction.value != [] && IsDigits(fraction.value))
            && s == TailText(fraction, o)
  {
    var (fraction, o) := MatchTail(s).value;
    if s[0] == DOT {
      var n := DigitRun(s[1..]);
      OffsetExact(s[1 + n..], o);
      assert s[1..1 + n] == s[1..][..n];
      assert s == [DOT] + s[1..1 + n] + s[1 + n..];
    } else {
      OffsetExact(s, o);
    }
  }

  function HeadText(t: DateTime): (s: Str)
    requires FitsLayout(t)
    ensures |s| == 19
  {
    Two(t.year / 100) + Two(t.year % 100) + [DASH] + Two(t.month) + [DASH] + Two(t.day) + [UPPER_T] +
    Two(t.hour) + [COLON] + Two(t.minute) + [COLON] + Two(t.second)
  }

  lemma FormatParts(t: DateTime)
    requires FitsLayout(t)
    ensures Format(t) == HeadText(t) + TailText(t.fraction, t.offset)
  {
  }

  lemma HeadRoundTrip(s: Str, t: DateTime)
    requires FitsLayout(t) && |s| >= 19 && s[..19] == HeadText(t)
    ensures HeadLayout(s)
    ensures TwoAt(s, 0) * 100 + TwoAt(s, 2) == t.year && TwoAt(s, 5) == t.month && TwoAt(s, 8) == t.day
    ensures TwoAt(s, 11) == t.hour && TwoAt(s, 14) == t.minute && TwoAt(s, 17) == t.second
  {
    var h := HeadText(t);
    assert forall i | 0 <= i < 19 :: s[i] == h[i];
    assert h[0..2] == Two(t.year / 100) && h[2..4] == Two(t.year % 100);
  }

  lemma HeadSound(s: Str, t: DateTime)
    requires FitsLayout(t) && HeadLayout(s)
    requires TwoAt(s, 0) * 100 + TwoAt(s, 2) == t.year && TwoAt(s, 5) == t.month && TwoAt(s, 8) == t.day
    requires TwoAt(s, 11) == t.hour && TwoAt(s, 14) == t.minute && TwoAt(s, 17) == t.second
    ensures s[..19] == HeadText(t)
  {
    assert t.year / 100 == TwoAt(s, 0) && t.year % 100 == TwoAt(s, 2);
    TwoOf(s, 0);
    TwoOf(s, 2);
    TwoOf(s, 5);
    TwoOf(s, 8);
    TwoOf(s, 11);
    TwoOf(s, 14);
    TwoOf(s, 17);
  }

  /** The pattern matches exactly the printed date-times, and its groups are the printed fields. */
  lemma MatchIsExact(s: Str, t: DateTime)
    ensures MatchDateTime(s) == Some(t) <==> FitsLayout(t) && s == Format(t)
  {
    hide Format, HeadText, TailText, MatchTail, TwoAt;
    if MatchDateTime(s) == Some(t) {
      TailSound(s[19..]);
      HeadSound(s, t);
      FormatParts(t);
      assert s == s[..19] + s[19..];
    }
    if FitsLayout(t) && s == Format(t) {
      FormatParts(t);
      assert s[..19] == HeadText(t) && s[19..] == TailText(t.fraction, t.offset);
      HeadRoundTrip(s, t);
      TailExact(s[19..], t.fraction, t.offset);
    }
  }

  /** Minutes by which the local time is ahead of UTC. */
  function AheadOfUtc(o: Offset): int {
    match o
    case Zulu => 0
    case Numeric(ahead, hour, minute) => if ahead then hour * 60 + minute else -(hour * 60) - minute
  }

  /** 23:59 UTC of an announced date, at the local time of the fields. */
  ghost predicate AtLeapSecond(t: DateTime) {
    exists y, m, d :: OnCalendar(y, m, d) && Announced(y, m, d)
      && Days(t.year, t.month, t.day) * 1440 + t.hour * 60 + t.minute == Days(y, m, d) * 1440 + 1439 + AheadOfUtc(t.offset)
  }

  /** What section 5.7 of RFC 3339 asks of the fields, with leap seconds limited to announced dates. */
  ghost predicate ValidInstant(t: DateTime) {
    && OnCalendar(t.year, t.month, t.day) && t.hour <= 23 && t.minute <= 59
    && (t.offset.Numeric? ==> t.offset.hour <= 23 && t.offset.minute <= 59)
    && (t.second <= 59 || (t.second == 60 && AtLeapSecond(t)))
  }

  lemma AtLeapSecondExactly(t: DateTime)
    requires ValidDate(t.year, t.month, t.day)
    ensures AtLeapSecond(t) <==> exists y, m, d ::
      IsUtcInstant(UtcMinutes(t.year, t.month, t.day, t.hour, t.minute, t.offset), y, m, d, 1439) && Announced(y, m, d)
  {
    hide Days, DayNumber, OnCalendar, ValidDate, Announced;
    CalendarExactly(t.year, t.month, t.day);
    var total := UtcMinutes(t.year, t.month, t.day, t.hour, t.minute, t.offset);
    forall y, m, d
      ensures IsUtcInstant(total, y, m, d, 1439) <==> (OnCalendar(y, m, d)
        && Days(t.year, t.month, t.day) * 1440 + t.hour * 60 + t.minute == Days(y, m, d) * 1440 + 1439 + AheadOfUtc(t.offset))
    {
      CalendarExactly(y, m, d);
    }
  }

  /** A text is accepted exactly when it prints a valid instant. */
  lemma AcceptsExactlyValidInstants(value: Str)
    ensures IsValidRfc3339DateTime(value) <==> exists t :: FitsLayout(t) && value == Format(t) && ValidInstant(t)
  {
    hide Format, MatchDateTime, IsValidLeapSecondInstant, IsUtcInstant, UtcMinutes, Announced, AtLeapSecond, OnCalendar;
    forall t ensures MatchDateTime(value) == Some(t) <==> FitsLayout(t) && value == Format(t) {
      MatchIsExact(value, t);
    }
    var m := MatchDateTime(value);
    if m.Some? {
      var t := m.value;
      assert FitsLayout(t) && value == Format(t);
      CalendarExactly(t.year, t.month, t.day);
      if ValidDate(t.year, t.month, t.day) && t.hour <= 23 && t.minute <= 59 && ValidOffset(t.offset) {
        AtLeapSecondExactly(t);
        LeapSecondExactly(t.year, t.month, t.day, t.hour, t.minute, t.offset);
      }
      assert IsValidRfc3339DateTime(value) <==> ValidInstant(t);
    }
  }

  const LOWER_T: CodeUnit := 0x74
  const LOWER_Z: CodeUnit := 0x7A

  /**
   Section 5.6 of RFC 3339 lets "t" and "z" stand for "T" and "Z". Here a text that prints a valid
   instant is no longer accepted when only such a letter is written in lower case.
   */
  lemma LowerCaseIsRefused(t: DateTime)
    requires FitsLayout(t) && ValidInstant(t)
    ensures IsValidRfc3339DateTime(Format(t))
    ensures |Format(t)| > 10 && Format(t)[10] == UPPER_T && !IsValidRfc3339DateTime(Format(t)[10 := LOWER_T])
    ensures t.offset.Zulu? ==> var last := |Format(t)| - 1;
      Format(t)[last] == UPPER_Z && !IsValidRfc3339DateTime(Format(t)[last := LOWER_Z])
  {
    hide ValidInstant, OffsetText, HeadText, MatchTail, TwoAt, TwoDigitsAt;
    AcceptsExactlyValidInstants(Format(t));
    PrintedEnds(t);
    var text := Format(t)[|Format(t)| - 1 := LOWER_Z];
    if IsValidRfc3339DateTime(text) {
      AcceptsExactlyValidInstants(text);
      var u :| FitsLayout(u) && text == Format(u) && ValidInstant(u);
      PrintedEnds(u);
    }
  }

  lemma PrintedEnds(t: DateTime)
    requires FitsLayout(t)
    ensures |Format(t)| >= 20 && Format(t)[10] == UPPER_T
    ensures var last := Format(t)[|Format(t)| - 1];
      if t.offset.Zulu? then last == UPPER_Z else IsDigit(last)
  {
    FormatParts(t);
    var tail := TailText(t.fraction, t.offset);
    assert Format(t)[10] == HeadText(t)[10];
    assert Format(t)[|Format(t)| - 1] == tail[|tail| - 1];
    assert tail[|tail| - 1] == OffsetText(t.offset)[|OffsetText(t.offset)| - 1];
  }
}
