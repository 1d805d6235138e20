/**
 * UTC calendar arithmetic of JavaScript `Date`: a time value is a count of
 * milliseconds since 1970-01-01T00:00:00Z, its day is the floor of the
 * quotient by 86 400 000, and days map to the proleptic Gregorian calendar.
 * `TsToDay` is the day-file name `run.mjs` and the IRC importer derive from
 * a timestamp.
 */
module Calendar {
  import opened Strings

  const MsPerDay: int := 86400000
  /** Beyond this magnitude `new Date(ts)` is an invalid date. */
  const MaxTimeValue: int := 8640000000000000

  predicate IsLeapYear(y: int) {
    y % 4 == 0 && (y % 100 != 0 || y % 400 == 0)
  }

  function DaysInYear(y: int): int {
    if IsLeapYear(y) then 366 else 365
  }

  function DaysInMonth(y: int, m: int): (n: int)
    requires 1 <= m <= 12
    ensures 28 <= n <= 31
  {
    if m == 2 then (if IsLeapYear(y) then 29 else 28)
    else if m == 4 || m == 6 || m == 9 || m == 11 then 30
    else 31
  }

  /** Days of year `y` before the first of month `m` (`m == 13`: the whole year). */
  function DaysBeforeMonth(y: int, m: int): int
    requires 1 <= m <= 13
  {
    var leap := if IsLeapYear(y) then 1 else 0;
    if m == 1 then 0
    else if m == 2 then 31
    else [59, 90, 120, 151, 181, 212, 243, 273, 304, 334, 365][m - 3] + leap
  }

  lemma DaysBeforeMonthStep(y: int, m: int)
    requires 1 <= m <= 12
    ensures DaysBeforeMonth(y, m + 1) == DaysBeforeMonth(y, m) + DaysInMonth(y, m)
    ensures DaysBeforeMonth(y, 13) == DaysInYear(y)
  {
  }

  lemma {:induction false} DaysBeforeMonthMonotone(y: int, a: int, b: int)
    requires 1 <= a <= b <= 13
    decreases b - a
    ensures DaysBeforeMonth(y, a) + (if a < b then DaysInMonth(y, a) else 0) <= DaysBeforeMonth(y, b)
  {
    if a < b {
      DaysBeforeMonthStep(y, a);
      if a + 1 < b {
        DaysBeforeMonthMonotone(y, a + 1, b);
      }
    }
  }

  /** Day number (days since 1970-01-01) of the first of January of `y`. */
  function YearStart(y: int): int
    decreases if y >= 1970 then y - 1970 else 1970 - y
  {
    if y == 1970 then 0
    else if y > 1970 then YearStart(y - 1) + DaysInYear(y - 1)
    else YearStart(y + 1) - DaysInYear(y)
  }

  lemma YearStartNext(y: int)
    ensures YearStart(y + 1) == YearStart(y) + DaysInYear(y)
  {
  }

  /** A year starts 365 to 366 days per year away from 1970-01-01. */
  lemma {:induction false} YearStartBounds(y: int)
    ensures y >= 1970 ==> 365 * (y - 1970) <= YearStart(y) <= 366 * (y - 1970)
    ensures y < 1970 ==> -366 * (1970 - y) <= YearStart(y) <= -365 * (1970 - y)
    decreases if y >= 1970 then y - 1970 else 1970 - y
  {
    if y > 1970 {
      YearStartBounds(y - 1);
    } else if y < 1970 {
      YearStartBounds(y + 1);
    }
  }

  lemma {:induction false} YearStartMonotone(a: int, b: int)
    requires a < b
    decreases b - a
    ensures YearStart(a) + DaysInYear(a) <= YearStart(b)
  {
    YearStartNext(a);
    if a + 1 < b {
      YearStartMonotone(a + 1, b);
    }
  }

  datatype Date = Date(year: int, month: int, day: int)

  predicate ValidDate(d: Date) {
    1 <= d.month <= 12 && 1 <= d.day <= DaysInMonth(d.year, d.month)
  }

  /** Days since 1970-01-01 of a calendar date. */
  function DayNumberOf(d: Date): int
    requires ValidDate(d)
  {
    YearStart(d.year) + DaysBeforeMonth(d.year, d.month) + d.day - 1
  }

  /** The year whose days contain day number `z`, searched from year `y`. */
  function FindYear(z: int, y: int): int
    decreases (if z < YearStart(y) then 1 else 0),
              (if z < YearStart(y) then YearStart(y) - z else z - YearStart(y))
  {
    YearStartNext(y);
    YearStartNext(y - 1);
    if z < YearStart(y) then FindYear(z, y - 1)
    else if z >= YearStart(y) + DaysInYear(y) then FindYear(z, y + 1)
    else y
  }

  /** The year found holds the day. */
  lemma {:induction false} FindYearCorrect(z: int, y: int)
    ensures var r := FindYear(z, y); YearStart(r) <= z < YearStart(r) + DaysInYear(r)
    decreases (if z < YearStart(y) then 1 else 0),
              (if z < YearStart(y) then YearStart(y) - z else z - YearStart(y))
  {
    YearStartNext(y);
    YearStartNext(y - 1);
    if z < YearStart(y) {
      FindYearCorrect(z, y - 1);
    } else if z >= YearStart(y) + DaysInYear(y) {
      FindYearCorrect(z, y + 1);
    }
  }

  /** The month of year `y` containing day `doy` of that year, searched from month `m`. */
  function FindMonth(doy: int, y: int, m: int): int
    requires 1 <= m <= 12 && DaysBeforeMonth(y, m) <= doy < DaysInYear(y)
    decreases 12 - m
  {
    DaysBeforeMonthStep(y, m);
    if doy < DaysBeforeMonth(y, m + 1) then m else FindMonth(doy, y, m + 1)
  }

  /** The month found holds the day. */
  lemma {:induction false} FindMonthCorrect(doy: int, y: int, m: int)
    requires 1 <= m <= 12 && DaysBeforeMonth(y, m) <= doy < DaysInYear(y)
    ensures var r := FindMonth(doy, y, m); m <= r <= 12 && DaysBeforeMonth(y, r) <= doy < DaysBeforeMonth(y, r + 1)
    decreases 12 - m
  {
    DaysBeforeMonthStep(y, m);
    if doy >= DaysBeforeMonth(y, m + 1) {
      FindMonthCorrect(doy, y, m + 1);
    }
  }

  /** The calendar date of day number `z`. */
  function DateOfDayNumber(z: int): Date {
    var y := FindYear(z, 1970);
    FindYearCorrect(z, 1970);
    var doy := z - YearStart(y);
    DaysBeforeMonthStep(y, 12);
    FindMonthCorrect(doy, y, 1);
    var m := FindMonth(doy, y, 1);
    Date(y, m, doy - DaysBeforeMonth(y, m) + 1)
  }

  /** `DateOfDayNumber` yields a valid date and inverts `DayNumberOf`. */
  lemma DateOfDayNumberCorrect(z: int)
    ensures ValidDate(DateOfDayNumber(z))
    ensures DayNumberOf(DateOfDayNumber(z)) == z
  {
    var y := FindYear(z, 1970);
    FindYearCorrect(z, 1970);
    DaysBeforeMonthStep(y, 12);
    FindMonthCorrect(z - YearStart(y), y, 1);
    var m := FindMonth(z - YearStart(y), y, 1);
    DaysBeforeMonthStep(y, m);
  }

  /** Distinct valid dates have distinct day numbers, later dates larger ones. */
  lemma DayNumberOrdered(d1: Date, d2: Date)
    requires ValidDate(d1) && ValidDate(d2)
    ensures DayNumberOf(d1) < DayNumberOf(d2) <==>
      (d1.year < d2.year || (d1.year == d2.year && (d1.month < d2.month ||
        (d1.month == d2.month && d1.day < d2.day))))
  {
    DaysBeforeMonthStep(d1.year, d1.month);
    DaysBeforeMonthStep(d2.year, d2.month);
    DaysBeforeMonthMonotone(d1.year, d1.month + 1, 13);
    DaysBeforeMonthMonotone(d2.year, d2.month + 1, 13);
    if d1.year < d2.year {
      YearStartMonotone(d1.year, d2.year);
    } else if d2.year < d1.year {
      YearStartMonotone(d2.year, d1.year);
    } else if d1.month < d2.month {
      DaysBeforeMonthMonotone(d1.year, d1.month, d2.month);
    } else if d2.month < d1.month {
      DaysBeforeMonthMonotone(d1.year, d2.month, d1.month);
    }
  }

  lemma DayNumberInjective(d1: Date, d2: Date)
    requires ValidDate(d1) && ValidDate(d2) && DayNumberOf(d1) == DayNumberOf(d2)
    ensures d1 == d2
  {
    DayNumberOrdered(d1, d2);
    DayNumberOrdered(d2, d1);
  }

  /** `Math.floor(ts / 86400000)`: Dafny's division by a positive divisor is floor division. */
  function UtcDayNumber(ts: int): int {
    ts / MsPerDay
  }

  predicate ValidTime(ts: int) {
    -MaxTimeValue <= ts <= MaxTimeValue
  }

  /** `getUTCFullYear()`, `getUTCMonth() + 1`, `getUTCDate()` of `new Date(ts)`. */
  function UtcDate(ts: int): Date {
    DateOfDayNumber(UtcDayNumber(ts))
  }

  /** The date of a timestamp is the date of its day number. */
  lemma UtcDateDayNumber(ts: int)
    ensures ValidDate(UtcDate(ts))
    ensures DayNumberOf(UtcDate(ts)) == UtcDayNumber(ts)
  {
    DateOfDayNumberCorrect(UtcDayNumber(ts));
  }

  function Pad2(n: nat): string {
    PadStart(Decimal(n), 2, '0')
  }

  /** The `YYYY-MM-DD` rendering of a date, as the template literal builds it. */
  function FormatDate(d: Date): string
    requires ValidDate(d)
  {
    IntToString(d.year) + "-" + Pad2(d.month) + "-" + Pad2(d.day)
  }

  /**
   * `tsToDay(ts)` (run.mjs): the UTC day of a timestamp. An invalid date
   * prints `NaN` for each of its three fields.
   */
  function TsToDay(ts: int): string {
    if ValidTime(ts) then
      UtcDateDayNumber(ts);
      FormatDate(UtcDate(ts))
    else "NaN-NaN-NaN"
  }

  lemma Pad2Length(n: nat)
    requires 1 <= n < 100
    ensures |Pad2(n)| == 2
  {
    DecimalShape(n);
    PadStartShape(Decimal(n), 2, '0');
  }

  lemma Pad2Shape(n: nat)
    requires n < 100
    ensures |Pad2(n)| == 2 && AllDigits(Pad2(n))
    ensures DigitsValue(Pad2(n)) == n
  {
    DecimalRoundTrip(n);
    var s := Pad2(n);
    if n < 10 {
      assert s == "0" + Decimal(n);
      assert s[..1] == "0";
    }
  }

  /** Slicing a `Y-MM-DD` shaped string back into its three parts. */
  lemma DashedParts(s: string, y: string, m: string, d: string)
    requires |m| == 2 && s == y + "-" + m + "-" + d
    ensures |s| == |y| + 4 + |d|
    ensures s[..|y|] == y && s[|y|] == '-' && s[|y| + 1..|y| + 3] == m
    ensures s[|y| + 3] == '-' && s[|y| + 4..] == d
  {
  }

  /** The three parts of a formatted date can be cut back out of it. */
  lemma FormatDateParts(d: Date)
    requires ValidDate(d)
    ensures var s, y := FormatDate(d), IntToString(d.year);
      && |s| == |y| + 6 && s[..|y|] == y && s[|y|] == '-' && s[|y| + 3] == '-'
      && s[|y| + 1..|y| + 3] == Pad2(d.month) && s[|y| + 4..] == Pad2(d.day)
  {
    Pad2Shape(d.month);
    Pad2Shape(d.day);
    DashedParts(FormatDate(d), IntToString(d.year), Pad2(d.month), Pad2(d.day));
  }

  lemma Pad2Injective(a: nat, b: nat)
    requires 1 <= a < 100 && 1 <= b < 100 && Pad2(a) == Pad2(b)
    ensures a == b
  {
    Pad2Shape(a);
    Pad2Shape(b);
  }

  lemma IntToStringInjective(a: int, b: int)
    requires IntToString(a) == IntToString(b)
    ensures a == b
  {
    IntToStringRoundTrip(a);
    IntToStringRoundTrip(b);
  }

  /** Equal `Y-MM-DD` strings with two-character month and day parts have equal parts. */
  lemma DashedPartsEqual(y1: string, m1: string, d1: string, y2: string, m2: string, d2: string)
    requires |m1| == |m2| == |d1| == |d2| == 2
    requires y1 + "-" + m1 + "-" + d1 == y2 + "-" + m2 + "-" + d2
    ensures y1 == y2 && m1 == m2 && d1 == d2
  {
    var s := y1 + "-" + m1 + "-" + d1;
    DashedParts(s, y1, m1, d1);
    DashedParts(s, y2, m2, d2);
  }

  lemma FormatDateInjective(d1: Date, d2: Date)
    requires ValidDate(d1) && ValidDate(d2) && FormatDate(d1) == FormatDate(d2)
    ensures d1 == d2
  {
    Pad2Length(d1.month);
    Pad2Length(d2.month);
    Pad2Length(d1.day);
    Pad2Length(d2.day);
    DashedPartsEqual(IntToString(d1.year), Pad2(d1.month), Pad2(d1.day),
                     IntToString(d2.year), Pad2(d2.month), Pad2(d2.day));
    IntToStringInjective(d1.year, d2.year);
    Pad2Injective(d1.month, d2.month);
    Pad2Injective(d1.day, d2.day);
    assert d1.year == d2.year && d1.month == d2.month && d1.day == d2.day;
    assert d1 == Date(d2.year, d2.month, d2.day);
  }

  /**
   * A date of a four-digit year prints as `YYYY-MM-DD`: ten characters,
   * the year's digits, a dash, the month and the day zero-padded to two
   * digits.
   */
  lemma FormatDateShape(d: Date)
    requires ValidDate(d) && 1000 <= d.year <= 9999
    ensures var s := FormatDate(d);
      && |s| == 10 && s[4] == '-' && s[7] == '-'
      && s[..4] == Decimal(d.year) && s[5..7] == Pad2(d.month) && s[8..] == Pad2(d.day)
      && AllDigits(s[..4]) && AllDigits(s[5..7]) && AllDigits(s[8..])
      && DigitsValue(s[..4]) == d.year
      && DigitsValue(s[5..7]) == d.month
      && DigitsValue(s[8..]) == d.day
  {
    FormatDateParts(d);
    DecimalShape(d.year);
    assert IntToString(d.year) == Decimal(d.year);
    DecimalRoundTrip(d.year);
    Pad2Shape(d.month);
    Pad2Shape(d.day);
  }

  /** The day name of a timestamp in a four-digit year has that shape. */
  lemma TsToDayShape(ts: int)
    requires ValidTime(ts) && 1000 <= UtcDate(ts).year <= 9999
    ensures ValidDate(UtcDate(ts))
    ensures var s, d := TsToDay(ts), UtcDate(ts);
      && |s| == 10 && s[4] == '-' && s[7] == '-'
      && s[..4] == Decimal(d.year) && s[5..7] == Pad2(d.month) && s[8..] == Pad2(d.day)
      && AllDigits(s[..4]) && AllDigits(s[5..7]) && AllDigits(s[8..])
      && DigitsValue(s[..4]) == d.year
      && DigitsValue(s[5..7]) == d.month
      && DigitsValue(s[8..]) == d.day
  {
    UtcDateDayNumber(ts);
    FormatDateShape(UtcDate(ts));
  }

  /** Two valid timestamps get the same day name exactly when they fall on the same UTC day. */
  lemma SameDayName(a: int, b: int)
    requires ValidTime(a) && ValidTime(b)
    ensures TsToDay(a) == TsToDay(b) <==> UtcDayNumber(a) == UtcDayNumber(b)
  {
    UtcDateDayNumber(a);
    UtcDateDayNumber(b);
    if TsToDay(a) == TsToDay(b) {
      FormatDateInjective(UtcDate(a), UtcDate(b));
    }
  }
}
