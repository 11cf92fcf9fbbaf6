/** Calendar dates as the panel uses them: civil dates, their
    "YYYY-MM-DD" keys, "YYYY-MM" month keys, the day of the week and month
    arithmetic. The clock is never read here; callers pass today's date. */
module Dates {
  import opened Wrappers
  import opened Text
  import opened Numbers

  /** A civil date in the proleptic Gregorian calendar; `month` is 1..12. */
  datatype Date = Date(year: int, month: int, day: int)

  /** A calendar month; `month` is 1..12. */
  datatype YearMonth = YearMonth(year: int, month: int)

  predicate IsLeapYear(y: int) {
    y % 4 == 0 && (y % 100 != 0 || y % 400 == 0)
  }

  function DaysInMonth(y: int, m: int): (n: int)
    requires 1 <= m <= 12
    ensures 28 <= n <= 31
    ensures m == 2 ==> (n == 29 <==> IsLeapYear(y))
  {
    if m == 2 then (if IsLeapYear(y) then 29 else 28)
    else if m == 4 || m == 6 || m == 9 || m == 11 then 30
    else 31
  }

  predicate ValidDate(d: Date) {
    1 <= d.month <= 12 && 1 <= d.day <= DaysInMonth(d.year, d.month)
  }

  predicate ValidYearMonth(ym: YearMonth) {
    1 <= ym.month <= 12
  }

  /** Years before `y` contribute this many weekdays of shift. */
  function YearShift(y: int): int {
    y + y / 4 - y / 100 + y / 400
  }

  /** `date.getDay()`: 0 is Sunday and 6 is Saturday (Sakamoto's method). */
  function DayOfWeek(d: Date): (w: int)
    requires 1 <= d.month <= 12
    ensures 0 <= w < 7
  {
    var y := if d.month < 3 then d.year - 1 else d.year;
    (YearShift(y) + MonthOffset(d.month) + d.day) % 7
  }

  predicate IsWeekend(d: Date)
    requires 1 <= d.month <= 12
  {
    DayOfWeek(d) == 0 || DayOfWeek(d) == 6
  }

  /** The following day, rolling over months and years. */
  function NextDay(d: Date): (r: Date)
    requires ValidDate(d)
    ensures ValidDate(r)
  {
    if d.day < DaysInMonth(d.year, d.month) then Date(d.year, d.month, d.day + 1)
    else if d.month < 12 then Date(d.year, d.month + 1, 1)
    else Date(d.year + 1, 1, 1)
  }

  /** A leap year shifts the weekdays of the following year by one more day. */
  lemma YearShiftStep(y: int)
    ensures YearShift(y) - YearShift(y - 1) == if IsLeapYear(y) then 2 else 1
  {
    DivStep4(y);
    DivStep100(y);
    DivStep400(y);
    LeapIndicators(y);
  }

  lemma LeapIndicators(y: int)
    ensures (if y % 4 == 0 then 1 else 0) - (if y % 100 == 0 then 1 else 0) + (if y % 400 == 0 then 1 else 0)
         == if IsLeapYear(y) then 1 else 0
  {
    if y % 100 == 0 {
      var q := y / 100;
      assert y == 4 * (25 * q);
    }
    if y % 400 == 0 {
      var q := y / 400;
      assert y == 100 * (4 * q);
    }
  }

  lemma DivStep4(y: int)
    ensures y / 4 - (y - 1) / 4 == if y % 4 == 0 then 1 else 0
  {
  }

  lemma DivStep100(y: int)
    ensures y / 100 - (y - 1) / 100 == if y % 100 == 0 then 1 else 0
  {
  }

  lemma DivStep400(y: int)
    ensures y / 400 - (y - 1) / 400 == if y % 400 == 0 then 1 else 0
  {
  }

  /** The day after a date falls on the next weekday. */
  lemma DayOfWeekNextDay(d: Date)
    requires ValidDate(d)
    ensures DayOfWeek(NextDay(d)) == (DayOfWeek(d) + 1) % 7
  {
    if d.day < DaysInMonth(d.year, d.month) {
      NextWeekdayInMonth(d);
    } else if d.month == 2 {
      NextWeekdayAfterFebruary(d);
    } else if d.month < 12 {
      NextWeekdayAfterMonth(d);
    } else {
      NextWeekdayAfterYear(d);
    }
  }

  lemma NextWeekdayInMonth(d: Date)
    requires ValidDate(d) && d.day < DaysInMonth(d.year, d.month)
    ensures DayOfWeek(NextDay(d)) == (DayOfWeek(d) + 1) % 7
  {
    var y := if d.month < 3 then d.year - 1 else d.year;
    var a := YearShift(y) + MonthOffset(d.month) + d.day;
    assert DayOfWeek(NextDay(d)) == (a + 1) % 7;
    NextWeekday(a, a + 1);
  }

  lemma NextWeekdayAfterFebruary(d: Date)
    requires ValidDate(d) && d.month == 2 && d.day == DaysInMonth(d.year, 2)
    ensures DayOfWeek(NextDay(d)) == (DayOfWeek(d) + 1) % 7
  {
    var a := YearShift(d.year - 1) + MonthOffset(2) + d.day;
    YearShiftStep(d.year);
    MonthRollover(d.year, 2);
    var b := YearShift(d.year) + MonthOffset(3) + 1;
    assert (b - (a + 1)) % 7 == 0;
    assert DayOfWeek(NextDay(d)) == b % 7;
    NextWeekday(a, b);
  }

  lemma NextWeekdayAfterMonth(d: Date)
    requires ValidDate(d) && d.month != 2 && d.month < 12 && d.day == DaysInMonth(d.year, d.month)
    ensures DayOfWeek(NextDay(d)) == (DayOfWeek(d) + 1) % 7
  {
    var y := if d.month < 3 then d.year - 1 else d.year;
    var a := YearShift(y) + MonthOffset(d.month) + d.day;
    MonthRollover(d.year, d.month);
    var b := YearShift(y) + MonthOffset(d.month + 1) + 1;
    assert (b - (a + 1)) % 7 == 0;
    assert DayOfWeek(NextDay(d)) == b % 7;
    NextWeekday(a, b);
  }

  lemma NextWeekdayAfterYear(d: Date)
    requires ValidDate(d) && d.month == 12 && d.day == 31
    ensures DayOfWeek(NextDay(d)) == (DayOfWeek(d) + 1) % 7
  {
    var a := YearShift(d.year) + MonthOffset(12) + d.day;
    MonthRollover(d.year, 12);
    var b := YearShift(d.year) + MonthOffset(1) + 1;
    assert (b - (a + 1)) % 7 == 0;
    assert DayOfWeek(NextDay(d)) == b % 7;
    NextWeekday(a, b);
  }

  /** Sakamoto's offset of a month. */
  function MonthOffset(m: int): int
    requires 1 <= m <= 12
  {
    [0, 3, 2, 5, 0, 3, 5, 1, 4, 6, 2, 4][m - 1]
  }

  /** The last day of a month and the first of the next are a weekday
      apart. */
  lemma MonthRollover(y: int, m: int)
    requires 1 <= m <= 12
    ensures m < 12 && m != 2 ==> (MonthOffset(m + 1) - MonthOffset(m) - DaysInMonth(y, m)) % 7 == 0
    ensures m == 2 ==> (MonthOffset(3) - MonthOffset(2) - DaysInMonth(y, 2) + (if IsLeapYear(y) then 2 else 1)) % 7 == 0
    ensures m == 12 ==> (MonthOffset(1) + 1 - MonthOffset(12) - 31 - 1) % 7 == 0
  {
  }

  lemma NextWeekday(a: int, b: int)
    requires (b - (a + 1)) % 7 == 0
    ensures b % 7 == (a % 7 + 1) % 7
  {
  }

  /** `date.setDate(date.getDate() + n)` for `n >= 0`. */
  function AddDays(d: Date, n: nat): (r: Date)
    requires ValidDate(d)
    ensures ValidDate(r)
    decreases n
  {
    if n == 0 then d else AddDays(NextDay(d), n - 1)
  }

  lemma {:induction false} DayOfWeekAddDays(d: Date, n: nat)
    requires ValidDate(d)
    ensures DayOfWeek(AddDays(d, n)) == (DayOfWeek(d) + n) % 7
    decreases n
  {
    if n > 0 {
      var w := DayOfWeek(d);
      DayOfWeekNextDay(d);
      DayOfWeekAddDays(NextDay(d), n - 1);
      assert AddDays(d, n) == AddDays(NextDay(d), n - 1);
      ModSevenShift(w + 1, n - 1);
    }
  }

  lemma ModSevenShift(a: int, b: int)
    ensures (a % 7 + b) % 7 == (a + b) % 7
  {
  }

  /** The day before, rolling back months and years. */
  function PreviousDay(d: Date): (r: Date)
    requires ValidDate(d)
    ensures ValidDate(r)
  {
    if d.day > 1 then Date(d.year, d.month, d.day - 1)
    else if d.month > 1 then Date(d.year, d.month - 1, DaysInMonth(d.year, d.month - 1))
    else Date(d.year - 1, 12, 31)
  }

  lemma NextDayOfPreviousDay(d: Date)
    requires ValidDate(d)
    ensures NextDay(PreviousDay(d)) == d
  {
  }

  /** Month arithmetic as `new Date(year, monthIndex + delta, 1)` normalises it. */
  function ShiftMonth(ym: YearMonth, delta: int): (r: YearMonth)
    ensures ValidYearMonth(r)
    ensures r.year * 12 + r.month == ym.year * 12 + ym.month + delta
  {
    var t := ym.year * 12 + (ym.month - 1) + delta;
    YearMonth(t / 12, t % 12 + 1)
  }

  function NextMonth(ym: YearMonth): YearMonth
    requires ValidYearMonth(ym)
  {
    if ym.month < 12 then YearMonth(ym.year, ym.month + 1) else YearMonth(ym.year + 1, 1)
  }

  /** Shifting by one more month is the next month. */
  lemma ShiftMonthStep(ym: YearMonth, delta: int)
    ensures ShiftMonth(ym, delta + 1) == NextMonth(ShiftMonth(ym, delta))
  {
  }

  lemma ShiftMonthZero(ym: YearMonth)
    requires ValidYearMonth(ym)
    ensures ShiftMonth(ym, 0) == ym
  {
  }

  function MonthOf(d: Date): YearMonth {
    YearMonth(d.year, d.month)
  }

  /** `String(n).padStart(2, "0")` */
  function TwoDigits(n: nat): string {
    PadStart2(NatToString(n))
  }

  /** `${year}-${MM}`: `formatMonthKey` and `monthValueFromDate` of a date
      in this month. */
  function MonthKey(ym: YearMonth): string
    requires ValidYearMonth(ym)
  {
    IntToString(ym.year) + "-" + TwoDigits(ym.month)
  }

  /** `${year}-${MM}-${DD}`: `toDateKey` / `formatDate`. */
  function DateKey(d: Date): string
    requires ValidDate(d)
  {
    MonthKey(MonthOf(d)) + "-" + TwoDigits(d.day)
  }

  /** "YYYY-MM" with a four-digit year and a month 01..12. */
  predicate IsMonthKey(k: string) {
    |k| == 7 && AllDigits(k[..4]) && k[4] == '-' && AllDigits(k[5..7]) &&
    1 <= DigitsValue(k[5..7]) <= 12
  }

  /** The month key of an unparsable date (`formatMonthKey` of an invalid
      `Date` gives "NaN-NaN"). */
  const INVALID_MONTH_KEY := "NaN-NaN"

  /** The month a stored "YYYY-MM-DD" date belongs to: its "YYYY-MM" prefix. */
  function MonthKeyOf(date: string): (k: string)
    ensures k == INVALID_MONTH_KEY || IsMonthKey(k)
  {
    if |date| >= 7 && IsMonthKey(date[..7]) then date[..7] else INVALID_MONTH_KEY
  }

  /** Every date written as a month key followed by anything lies in that month. */
  lemma MonthKeyOfExtension(k: string, rest: string)
    requires IsMonthKey(k)
    ensures MonthKeyOf(k + rest) == k
  {
    assert (k + rest)[..7] == k;
  }

  lemma {:induction false} NatToStringFourDigits(n: nat)
    requires 1000 <= n <= 9999
    ensures |NatToString(n)| == 4
  {
    assert NatToString(n / 10) == NatToString(n / 100) + [DigitChar(n / 10 % 10)];
    assert NatToString(n / 100) == NatToString(n / 1000) + [DigitChar(n / 100 % 10)];
  }

  lemma TwoDigitsOfMonth(m: int)
    requires 1 <= m <= 12
    ensures |TwoDigits(m)| == 2 && AllDigits(TwoDigits(m)) && DigitsValue(TwoDigits(m)) == m
  {
    var s := TwoDigits(m);
    if m < 10 {
      assert s == ['0', DigitChar(m)];
      assert s[..1] == ['0'] && s[..1][..0] == [];
      assert DigitsValue(s[..1]) == 0;
    } else {
      assert NatToString(m) == NatToString(1) + [DigitChar(m - 10)];
      assert s == [DigitChar(1), DigitChar(m - 10)];
      assert s[..1] == [DigitChar(1)] && s[..1][..0] == [];
      assert DigitsValue(s[..1]) == 1;
    }
  }

  /** The pieces of a "YYYY-MM" key sit at fixed offsets. */
  lemma KeyPieces(year: string, month: string)
    requires |year| == 4 && |month| == 2
    ensures var k := year + "-" + month;
            |k| == 7 && k[..4] == year && k[4] == '-' && k[5..7] == month && k[5..] == month
  {
  }

  /** The key of a month with a four-digit year is a well-formed month key. */
  lemma MonthKeyIsMonthKey(ym: YearMonth)
    requires ValidYearMonth(ym) && 1000 <= ym.year <= 9999
    ensures IsMonthKey(MonthKey(ym))
  {
    NatToStringFourDigits(ym.year);
    TwoDigitsOfMonth(ym.month);
    assert MonthKey(ym) == NatToString(ym.year) + "-" + TwoDigits(ym.month);
    KeyPieces(NatToString(ym.year), TwoDigits(ym.month));
  }

  /** Reading the month back from a date key gives the date's month. */
  lemma MonthKeyOfDateKey(d: Date)
    requires ValidDate(d) && 1000 <= d.year <= 9999
    ensures MonthKeyOf(DateKey(d)) == MonthKey(MonthOf(d))
  {
    MonthKeyIsMonthKey(MonthOf(d));
    MonthKeyOfTwoPieces(MonthKey(MonthOf(d)), "-", TwoDigits(d.day));
  }

  lemma MonthKeyOfTwoPieces(k: string, sep: string, rest: string)
    requires IsMonthKey(k)
    ensures MonthKeyOf(k + sep + rest) == k
  {
    assert (k + sep + rest)[..7] == k;
  }

  /** Distinct months have distinct keys. */
  lemma MonthKeyInjective(a: YearMonth, b: YearMonth)
    requires ValidYearMonth(a) && ValidYearMonth(b)
    requires 1000 <= a.year <= 9999 && 1000 <= b.year <= 9999
    requires MonthKey(a) == MonthKey(b)
    ensures a == b
  {
    NatToStringFourDigits(a.year);
    NatToStringFourDigits(b.year);
    TwoDigitsOfMonth(a.month);
    TwoDigitsOfMonth(b.month);
    assert MonthKey(a) == NatToString(a.year) + "-" + TwoDigits(a.month);
    assert MonthKey(b) == NatToString(b.year) + "-" + TwoDigits(b.month);
    KeyPieces(NatToString(a.year), TwoDigits(a.month));
    KeyPieces(NatToString(b.year), TwoDigits(b.month));
    assert NatToString(a.year) == NatToString(b.year);
    DigitsValueOfNatToString(a.year);
    DigitsValueOfNatToString(b.year);
  }

  /** A strict "YYYY-MM-DD" reading of a stored date. */
  function ParseDateKey(s: string): (r: Option<Date>)
    ensures r.Some? ==> ValidDate(r.value)
  {
    if |s| == 10 && AllDigits(s[..4]) && s[4] == '-' && AllDigits(s[5..7]) && s[7] == '-' && AllDigits(s[8..])
    then
      var d := Date(DigitsValue(s[..4]), DigitsValue(s[5..7]), DigitsValue(s[8..]));
      if ValidDate(d) then Some(d) else None
    else None
  }

  /** `formatMonthKey(new Date(s))` as the browser evaluates it: a
      date-only string is read as midnight UTC and the month is then taken
      in local time, `utcOffsetMinutes` from UTC (between -12 and +14
      hours). West of UTC the local date is the previous day. */
  function MonthKeyOfAsWritten(s: string, utcOffsetMinutes: int): string {
    match ParseDateKey(s)
    case None => INVALID_MONTH_KEY
    case Some(d) =>
      if utcOffsetMinutes < 0 then MonthKey(MonthOf(PreviousDay(d))) else MonthKey(MonthOf(d))
  }
}
