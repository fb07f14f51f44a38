/** The proleptic Gregorian calendar the log stamps are written in.

    Two descriptions of the same calendar meet here. `DayNumber` counts days the way the calendar is
    defined: year by year and month by month, under the 4/100/400 leap rule (Appendix C of RFC 3339).
    `CivilFromDays` is the March-based era algorithm the log writer uses. They are proved to be
    inverse to each other on every day, before and after the epoch.
 */
module Calendar {

  datatype Date = Date(year: int, month: int, day: int)

  /* The calendar as it is defined. */

  predicate IsLeap(year: int) {
    year % 4 == 0 && (year % 100 != 0 || year % 400 == 0)
  }

  function YearLength(year: int): int {
    if IsLeap(year) then 366 else 365
  }

  function DaysInMonth(year: int, month: int): int
    requires 1 <= month <= 12
  {
    if month == 2 then (if IsLeap(year) then 29 else 28)
    else if month == 4 || month == 6 || month == 9 || month == 11 then 30
    else 31
  }

  predicate ValidDate(date: Date) {
    1 <= date.month <= 12 && 1 <= date.day <= DaysInMonth(date.year, date.month)
  }

  function NextDate(date: Date): Date
    requires ValidDate(date)
  {
    if date.day < DaysInMonth(date.year, date.month) then date.(day := date.day + 1)
    else if date.month < 12 then Date(date.year, date.month + 1, 1)
    else Date(date.year + 1, 1, 1)
  }

  /** Days from 1970-01-01 to the first of January of `year`, one year at a time. */
  function DaysBeforeYear(year: int): int
    decreases if year < 1970 then 1970 - year else year - 1970
  {
    if year == 1970 then 0
    else if year > 1970 then DaysBeforeYear(year - 1) + YearLength(year - 1)
    else DaysBeforeYear(year + 1) - YearLength(year)
  }

  function DaysBeforeMonth(year: int, month: int): int
    requires 1 <= month <= 12
    decreases month
  {
    if month == 1 then 0 else DaysBeforeMonth(year, month - 1) + DaysInMonth(year, month - 1)
  }

  /** Days from 1970-01-01 to `date`. */
  function DayNumber(date: Date): int
    requires ValidDate(date)
  {
    DaysBeforeYear(date.year) + DaysBeforeMonth(date.year, date.month) + date.day - 1
  }

  /** How many leap years there are up to and including `through`, give or take a constant. */
  function LeapYears(through: int): int {
    through / 4 - through / 100 + through / 400
  }

  /* The log writer's algorithm. */

  /** Integer division as the source language has it: towards zero. */
  function TruncatingDiv(a: int, b: int): int
    requires b > 0
  {
    if a >= 0 then a / b else -(-a / b)
  }

  function EraOf(shifted: int): int {
    TruncatingDiv(if shifted >= 0 then shifted else shifted - 146_096, 146_097)
  }

  function YearOfEra(dayOfEra: int): int {
    (dayOfEra - dayOfEra / 1_460 + dayOfEra / 36_524 - dayOfEra / 146_096) / 365
  }

  function DayOfYear(dayOfEra: int): int {
    var yearOfEra := YearOfEra(dayOfEra);
    dayOfEra - (365 * yearOfEra + yearOfEra / 4 - yearOfEra / 100)
  }

  function CivilFromDays(days: int): Date {
    var shifted := days + 719_468;
    var era := EraOf(shifted);
    var dayOfEra := shifted - era * 146_097;
    var yearOfEra := YearOfEra(dayOfEra);
    var dayOfYear := DayOfYear(dayOfEra);
    var shiftedMonth := (5 * dayOfYear + 2) / 153;
    var day := dayOfYear - (153 * shiftedMonth + 2) / 5 + 1;
    var month := if shiftedMonth < 10 then shiftedMonth + 3 else shiftedMonth - 9;
    var year := yearOfEra + era * 400;
    Date(if month <= 2 then year + 1 else year, month, day)
  }

  /* Counting years and months in closed form. */

  lemma LeapYearsStep(year: int)
    ensures LeapYears(year) == LeapYears(year - 1) + (if IsLeap(year) then 1 else 0)
  {
    StepDiv(year, 4);
    StepDiv(year, 100);
    StepDiv(year, 400);
  }

  lemma StepDiv(n: int, d: int)
    requires d == 4 || d == 100 || d == 400
    ensures n / d == (n - 1) / d + (if n % d == 0 then 1 else 0)
  {
  }

  /** The closed form that the stamp reader counts years with is the year-by-year count. */
  lemma {:induction false} DaysBeforeYearClosedForm(year: int)
    ensures DaysBeforeYear(year) == 365 * (year - 1970) + LeapYears(year - 1) - LeapYears(1969)
    decreases if year < 1970 then 1970 - year else year - 1970
  {
    if year > 1970 {
      DaysBeforeYearClosedForm(year - 1);
      LeapYearsStep(year - 1);
    } else if year < 1970 {
      DaysBeforeYearClosedForm(year + 1);
      LeapYearsStep(year);
    }
  }

  lemma {:induction false} DaysBeforeMonthTable(year: int, month: int)
    requires 1 <= month <= 12
    ensures DaysBeforeMonth(year, month) ==
            [0, 31, 59, 90, 120, 151, 181, 212, 243, 273, 304, 334][month - 1]
            + (if month > 2 && IsLeap(year) then 1 else 0)
  {
    if month > 1 {
      DaysBeforeMonthTable(year, month - 1);
    }
  }

  /* The era algorithm, piece by piece. */

  lemma EraSplitsDays(shifted: int)
    ensures 0 <= shifted - EraOf(shifted) * 146_097 < 146_097
  {
  }

  /** Inside an era, the year formula leaves a day of year that fits the March-based year it names. */
  lemma YearOfEraIsExact(dayOfEra: int)
    requires 0 <= dayOfEra < 146_097
    ensures 0 <= YearOfEra(dayOfEra) < 400
    ensures 0 <= DayOfYear(dayOfEra) <= 365
    ensures DayOfYear(dayOfEra) == 365 ==> IsLeap(YearOfEra(dayOfEra) + 1)
  {
    var century := if dayOfEra == 146_096 then 3 else dayOfEra / 36_524;
    var dayOfCentury := dayOfEra - 36_524 * century;
    var quad := dayOfCentury / 1_461;
    var dayOfQuad := dayOfCentury - 1_461 * quad;
    var inQuad := if dayOfQuad == 1_460 then 3 else dayOfQuad / 365;
    var dayOfYear := dayOfQuad - 365 * inQuad;
    YearFromParts(dayOfEra, century, quad, inQuad, dayOfYear);
    DayFromParts(dayOfEra, century, quad, inQuad, dayOfYear);
    if dayOfYear == 365 {
      LeapAfter(century, quad);
    }
  }

  /** Which century, which four years of it, which year of those, which day of that. */
  ghost predicate IsParts(dayOfEra: int, century: int, quad: int, inQuad: int, dayOfYear: int) {
    && 0 <= century <= 3 && 0 <= quad <= 24 && 0 <= inQuad <= 3 && 0 <= dayOfYear <= 365
    && dayOfEra == 36_524 * century + 1_461 * quad + 365 * inQuad + dayOfYear
    && (dayOfYear == 365 ==> inQuad == 3 && (quad < 24 || century == 3))
  }

  lemma {:induction false} YearFromParts(dayOfEra: int, century: int, quad: int, inQuad: int, dayOfYear: int)
    requires IsParts(dayOfEra, century, quad, inQuad, dayOfYear)
    ensures YearOfEra(dayOfEra) == 100 * century + 4 * quad + inQuad
  {
    var year := 100 * century + 4 * quad + inQuad;
    var carry := if 24 * century + quad + 365 * inQuad + dayOfYear >= 1_460 then 1 else 0;
    var lastDay := if dayOfEra == 146_096 then 1 else 0;
    QuotientIs(dayOfEra, 1_460, 25 * century + quad + carry);
    QuotientIs(dayOfEra, 36_524, century + lastDay);
    QuotientIs(dayOfEra, 146_096, lastDay);
    QuotientIs(365 * year + dayOfYear - carry, 365, year);
  }

  lemma DayFromParts(dayOfEra: int, century: int, quad: int, inQuad: int, dayOfYear: int)
    requires IsParts(dayOfEra, century, quad, inQuad, dayOfYear)
    ensures DayOfYear(dayOfEra) == dayOfYear
  {
    YearFromParts(dayOfEra, century, quad, inQuad, dayOfYear);
    QuotientIs(YearOfEra(dayOfEra), 4, 25 * century + quad);
    QuotientIs(YearOfEra(dayOfEra), 100, century);
  }

  /** The year after the last of four is a leap year, but for three of the four centuries' ends. */
  lemma LeapAfter(century: int, quad: int)
    requires 0 <= century <= 3 && 0 <= quad <= 24 && (quad < 24 || century == 3)
    ensures IsLeap(100 * century + 4 * quad + 4)
  {
    var year := 100 * century + 4 * quad + 4;
    RemainderIs(year, 4, 25 * century + quad + 1, 0);
    if quad < 24 {
      RemainderIs(year, 100, century, 4 * quad + 4);
    }
  }

  lemma QuotientIs(a: int, b: int, quotient: int)
    requires b == 4 || b == 100 || b == 365 || b == 1_460 || b == 36_524 || b == 146_096
    requires b * quotient <= a < b * quotient + b
    ensures a / b == quotient
  {
  }

  /* The two descriptions agree. */

  lemma LeapYearsPeriod(yearOfEra: int, era: int)
    requires 0 <= yearOfEra < 400
    ensures LeapYears(yearOfEra + 400 * era) == yearOfEra / 4 - yearOfEra / 100 + 97 * era
  {
    assert (yearOfEra + 400 * era) / 4 == yearOfEra / 4 + 100 * era;
    assert (yearOfEra + 400 * era) / 100 == yearOfEra / 100 + 4 * era;
    assert (yearOfEra + 400 * era) / 400 == era;
  }

  /** The shifted year starts on the first of March. */
  lemma {:induction false} MarchStart(year: int)
    ensures DaysBeforeYear(year) + 59 + (if IsLeap(year) then 1 else 0) == 365 * year + LeapYears(year) - 719_468
  {
    DaysBeforeYearClosedForm(year);
    LeapYearsStep(year);
  }

  /** Where each month starts in a year that starts in March. */
  function MarchMonthStart(shiftedMonth: int): int
    requires 0 <= shiftedMonth <= 12
  {
    [0, 31, 61, 92, 122, 153, 184, 214, 245, 275, 306, 337, 366][shiftedMonth]
  }

  /** The two linear formulas read that table. */
  lemma {:induction false} MarchMonthOfDay(dayOfYear: int)
    requires 0 <= dayOfYear <= 365
    ensures var shiftedMonth := (5 * dayOfYear + 2) / 153;
            && 0 <= shiftedMonth < 12
            && (153 * shiftedMonth + 2) / 5 == MarchMonthStart(shiftedMonth)
            && MarchMonthStart(shiftedMonth) <= dayOfYear < MarchMonthStart(shiftedMonth + 1)
  {
  }

  function MarchDate(year: int, dayOfYear: int): Date {
    var shiftedMonth := (5 * dayOfYear + 2) / 153;
    Date(if shiftedMonth < 10 then year else year + 1,
         if shiftedMonth < 10 then shiftedMonth + 3 else shiftedMonth - 9,
         dayOfYear - (153 * shiftedMonth + 2) / 5 + 1)
  }

  /** Locating a day inside the year that starts in March. */
  lemma {:induction false} MarchDateIsThatDay(year: int, dayOfYear: int)
    requires 0 <= dayOfYear <= 365
    requires dayOfYear == 365 ==> IsLeap(year + 1)
    ensures ValidDate(MarchDate(year, dayOfYear))
    ensures DayNumber(MarchDate(year, dayOfYear)) == 365 * year + LeapYears(year) - 719_468 + dayOfYear
  {
    MarchMonthOfDay(dayOfYear);
    var date := MarchDate(year, dayOfYear);
    DaysBeforeMonthTable(date.year, date.month);
    if date.month > 2 {
      MarchStart(year);
    } else {
      NextMarchStart(year);
    }
  }

  lemma NextMarchStart(year: int)
    ensures DaysBeforeYear(year + 1) == 365 * year + LeapYears(year) - 719_468 + 306
  {
    MarchStart(year + 1);
    LeapYearsStep(year + 1);
  }

  lemma LeapYearPeriod(year: int, era: int)
    ensures IsLeap(year + 400 * era) == IsLeap(year)
  {
    RemainderIs(year + 400 * era, 4, year / 4 + 100 * era, year % 4);
    RemainderIs(year + 400 * era, 100, year / 100 + 4 * era, year % 100);
    RemainderIs(year + 400 * era, 400, year / 400 + era, year % 400);
  }

  lemma RemainderIs(a: int, b: int, quotient: int, remainder: int)
    requires b == 4 || b == 100 || b == 400
    requires a == b * quotient + remainder && 0 <= remainder < b
    ensures a % b == remainder
  {
  }

  /** The algorithm's date, with its era, year and day of year named. */
  lemma {:induction false} CivilIsMarchDate(days: int)
    ensures var era := EraOf(days + 719_468);
            var dayOfEra := days + 719_468 - era * 146_097;
            && 0 <= dayOfEra < 146_097
            && CivilFromDays(days) == MarchDate(YearOfEra(dayOfEra) + era * 400, DayOfYear(dayOfEra))
  {
    var era := EraOf(days + 719_468);
    var dayOfEra := days + 719_468 - era * 146_097;
    EraSplitsDays(days + 719_468);
    YearOfEraIsExact(dayOfEra);
    MarchMonthOfDay(DayOfYear(dayOfEra));
  }

  /** A day of an era counted from the era, and from the epoch. */
  lemma EraDayNumber(era: int, dayOfEra: int)
    requires 0 <= dayOfEra < 146_097
    ensures var year := YearOfEra(dayOfEra) + era * 400;
            365 * year + LeapYears(year) + DayOfYear(dayOfEra) == era * 146_097 + dayOfEra
  {
    YearOfEraIsExact(dayOfEra);
    LeapYearsPeriod(YearOfEra(dayOfEra), era);
  }

  /** Every day number, before the epoch and after it, becomes a valid date and exactly that day. */
  lemma {:induction false} CivilFromDaysIsThatDay(days: int)
    ensures ValidDate(CivilFromDays(days))
    ensures DayNumber(CivilFromDays(days)) == days
  {
    CivilIsMarchDate(days);
    var era := EraOf(days + 719_468);
    EraDateIsThatDay(era, days + 719_468 - era * 146_097);
  }

  /** A day of an era becomes a valid date and exactly that day. */
  lemma {:induction false} EraDateIsThatDay(era: int, dayOfEra: int)
    requires 0 <= dayOfEra < 146_097
    ensures var date := MarchDate(YearOfEra(dayOfEra) + era * 400, DayOfYear(dayOfEra));
            ValidDate(date) && DayNumber(date) == era * 146_097 + dayOfEra - 719_468
  {
    var year := YearOfEra(dayOfEra) + era * 400;
    assert 0 <= DayOfYear(dayOfEra) <= 365 && (DayOfYear(dayOfEra) == 365 ==> IsLeap(year + 1)) by {
      YearOfEraIsExact(dayOfEra);
      LeapYearPeriod(YearOfEra(dayOfEra) + 1, era);
    }
    EraDayNumber(era, dayOfEra);
    MarchDateIsThatDay(year, DayOfYear(dayOfEra));
  }

  /* Dates are ordered as their day numbers are. */

  predicate DateBefore(a: Date, b: Date) {
    a.year < b.year || (a.year == b.year && (a.month < b.month || (a.month == b.month && a.day < b.day)))
  }

  lemma {:induction false} YearsAreMonotone(earlier: int, later: int)
    requires earlier <= later
    ensures DaysBeforeYear(earlier) + 365 * (later - earlier) <= DaysBeforeYear(later)
    decreases later - earlier
  {
    if earlier < later {
      YearsAreMonotone(earlier, later - 1);
    }
  }

  lemma DayOfDateInYear(date: Date)
    requires ValidDate(date)
    ensures DaysBeforeYear(date.year) <= DayNumber(date) < DaysBeforeYear(date.year + 1)
  {
    DaysBeforeMonthTable(date.year, date.month);
  }

  lemma EarlierDateEarlierDay(a: Date, b: Date)
    requires ValidDate(a) && ValidDate(b) && DateBefore(a, b)
    ensures DayNumber(a) < DayNumber(b)
  {
    if a.year < b.year {
      DayOfDateInYear(a);
      DayOfDateInYear(b);
      YearsAreMonotone(a.year + 1, b.year);
    } else if a.month < b.month {
      MonthsAreMonotone(a.year, a.month, b.month);
    }
  }

  lemma {:induction false} MonthsAreMonotone(year: int, earlier: int, later: int)
    requires 1 <= earlier < later <= 12
    ensures DaysBeforeMonth(year, earlier) + DaysInMonth(year, earlier) <= DaysBeforeMonth(year, later)
    decreases later
  {
    if earlier < later - 1 {
      MonthsAreMonotone(year, earlier, later - 1);
    }
  }

  lemma DatesOrderedAsDays(a: Date, b: Date)
    requires ValidDate(a) && ValidDate(b)
    ensures DateBefore(a, b) <==> DayNumber(a) < DayNumber(b)
    ensures a == b <==> DayNumber(a) == DayNumber(b)
  {
    if DateBefore(a, b) {
      EarlierDateEarlierDay(a, b);
    } else if DateBefore(b, a) {
      EarlierDateEarlierDay(b, a);
    }
  }

  /** The other direction: every valid date comes back from its day number. */
  lemma DayNumberRoundTrip(date: Date)
    requires ValidDate(date)
    ensures CivilFromDays(DayNumber(date)) == date
  {
    CivilFromDaysIsThatDay(DayNumber(date));
    DatesOrderedAsDays(CivilFromDays(DayNumber(date)), date);
  }

  lemma {:induction false} NextDateIsNextDay(date: Date)
    requires ValidDate(date)
    ensures ValidDate(NextDate(date))
    ensures DayNumber(NextDate(date)) == DayNumber(date) + 1
  {
    if date.day == DaysInMonth(date.year, date.month) && date.month == 12 {
      DaysBeforeMonthTable(date.year, 12);
    }
  }

  lemma NextDateComesBack(date: Date, days: int)
    requires ValidDate(date) && DayNumber(date) == days
    ensures CivilFromDays(days + 1) == NextDate(date)
  {
    NextDateIsNextDay(date);
    var next := NextDate(date);
    assert DayNumber(next) == days + 1;
    DayNumberRoundTrip(next);
  }

  /** The next day number is always the next calendar date. */
  lemma NextDayIsNextDate(days: int)
    ensures ValidDate(CivilFromDays(days))
    ensures CivilFromDays(days + 1) == NextDate(CivilFromDays(days))
  {
    CivilFromDaysIsThatDay(days);
    NextDateComesBack(CivilFromDays(days), days);
  }
}
