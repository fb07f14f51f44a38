/** The log writer's stamps, and the update scheduler's reader of them.

    `Timestamp` writes the instant in the format of section 5.6 of RFC 3339, out of the March-based
    calendar algorithm; `ParseUtc` reads that spelling with a leap-year count and a month table. An
    instant is a number of nanoseconds since the Unix epoch, negative before it.
 */
module Timestamp {
  import opened Outcomes
  import opened Calendar

  const DASH: Byte := 45
  const COLON: Byte := 58
  const POINT: Byte := 46
  const LETTER_T: Byte := 84
  const LETTER_Z: Byte := 90
  const ZERO: Byte := 48

  const NANOS_PER_SECOND := 1_000_000_000
  const NANOS_PER_MILLI := 1_000_000
  /** The first second of the year 10000. */
  const YEAR_10000_SECONDS := 253_402_300_800

  /* Writing. */

  /** A number in decimal, padded with zeros to at least `width` digits. */
  function Padded(n: nat, width: nat): seq<Byte>
    decreases n + width
  {
    if n < 10 && width <= 1 then [ZERO + n]
    else Padded(n / 10, if width > 0 then width - 1 else 0) + [ZERO + n % 10]
  }

  datatype Utc = Utc(year: nat, month: nat, day: nat, hour: nat, minute: nat, second: nat, millisecond: nat)

  function FieldsOf(days: nat, time: nat, millisecond: nat): Utc {
    var date := CivilFromDays(days);
    DateSinceEpoch(days);
    Utc(date.year, date.month, date.day, time / 3_600, time % 3_600 / 60, time % 60, millisecond)
  }

  /** How long after the epoch an instant is; one before it counts as the epoch itself. */
  function SinceEpoch(now: int): nat {
    if now < 0 then 0 else now
  }

  /** The instant in UTC fields. */
  function At(now: int): Utc {
    var since := SinceEpoch(now);
    var seconds := since / NANOS_PER_SECOND;
    FieldsOf(seconds / 86_400, seconds % 86_400, since % NANOS_PER_SECOND / NANOS_PER_MILLI)
  }

  function StampText(at: Utc): seq<Byte> {
    Padded(at.year, 4) + [DASH] + Padded(at.month, 2) + [DASH] + Padded(at.day, 2) + [LETTER_T]
    + Padded(at.hour, 2) + [COLON] + Padded(at.minute, 2) + [COLON] + Padded(at.second, 2) + [POINT]
    + Padded(at.millisecond, 3) + [LETTER_Z]
  }

  function Timestamp(now: int): seq<Byte> {
    StampText(At(now))
  }

  function FileText(at: Utc): seq<Byte> {
    Padded(at.year, 4) + (Padded(at.month, 2) + (Padded(at.day, 2) + ([DASH]
    + (Padded(at.hour, 2) + (Padded(at.minute, 2) + (Padded(at.second, 2) + ([DASH]
    + Padded(at.millisecond, 3))))))))
  }

  /** What a log file is named after. */
  function FileStamp(now: int): seq<Byte> {
    FileText(At(now))
  }

  /* Reading. */

  const U64_MAX := 0xFFFF_FFFF_FFFF_FFFF

  function CheckedMul(a: nat, b: nat): Option<nat> {
    if a * b <= U64_MAX then Some(a * b) else None
  }

  function CheckedAdd(a: nat, b: nat): Option<nat> {
    if a + b <= U64_MAX then Some(a + b) else None
  }

  /** Folds decimal digits onto `value`, giving up on anything else and on an overflow. */
  function DecimalFrom(value: nat, bytes: seq<Byte>): Option<nat>
    decreases |bytes|
  {
    if bytes == [] then Some(value)
    else if !(ZERO <= bytes[0] <= ZERO + 9) then None
    else
      match CheckedMul(value, 10)
      case None => None
      case Some(shifted) =>
        match CheckedAdd(shifted, bytes[0] - ZERO)
        case None => None
        case Some(next) => DecimalFrom(next, bytes[1..])
  }

  function Decimal(bytes: seq<Byte>): Option<nat> {
    DecimalFrom(0, bytes)
  }

  function MonthDays(leap: bool): seq<nat> {
    [31, if leap then 29 else 28, 31, 30, 31, 30, 31, 31, 30, 31, 30, 31]
  }

  function Sum(values: seq<nat>): nat {
    if values == [] then 0 else Sum(values[..|values| - 1]) + values[|values| - 1]
  }

  predicate HasStampShape(value: seq<Byte>) {
    && |value| == 24
    && value[4] == DASH && value[7] == DASH && value[10] == LETTER_T
    && value[13] == COLON && value[16] == COLON && value[19] == POINT && value[23] == LETTER_Z
  }

  function ParseUtc(value: seq<Byte>): Option<int> {
    if !HasStampShape(value) then None
    else
      match (Decimal(value[0..4]), Decimal(value[5..7]), Decimal(value[8..10]), Decimal(value[11..13]),
             Decimal(value[14..16]), Decimal(value[17..19]), Decimal(value[20..23]))
      case (Some(year), Some(month), Some(day), Some(hour), Some(minute), Some(second), Some(millisecond)) =>
        InstantOf(Utc(year, month, day, hour, minute, second, millisecond))
      case _ => None
  }

  /** The instant seven numbers name, or nothing when they name none since the epoch. */
  function InstantOf(at: Utc): Option<int> {
    if at.year < 1970 || !(1 <= at.month <= 12) || at.hour > 23 || at.minute > 59 || at.second > 59 then None
    else
      var monthDays := MonthDays(at.year % 4 == 0 && (at.year % 100 != 0 || at.year % 400 == 0));
      if !(1 <= at.day <= monthDays[at.month - 1]) then None
      else
        match SecondsOf(at, monthDays)
        case None => None
        case Some(seconds) => Some(seconds * NANOS_PER_SECOND + at.millisecond * NANOS_PER_MILLI)
  }

  function SecondsOf(at: Utc, monthDays: seq<nat>): Option<nat>
    requires at.year >= 1970 && 1 <= at.month <= |monthDays| && at.day >= 1
  {
    var leapDays := LeapYears(at.year - 1) - LeapYears(1969);
    if leapDays < 0 then None
    else
      match CheckedMul(at.year - 1970, 365)
      case None => None
      case Some(commonDays) =>
        match CheckedAdd(commonDays, leapDays)
        case None => None
        case Some(daysBeforeYear) =>
          match CheckedAdd(daysBeforeYear, Sum(monthDays[..at.month - 1]))
          case None => None
          case Some(daysBeforeMonth) =>
            match CheckedAdd(daysBeforeMonth, at.day - 1)
            case None => None
            case Some(days) =>
              match CheckedMul(days, 86_400)
              case None => None
              case Some(midnight) => CheckedAdd(midnight, at.hour * 3_600 + at.minute * 60 + at.second)
  }

  /* Digits. */

  function Pow10(width: nat): nat {
    if width == 0 then 1 else 10 * Pow10(width - 1)
  }

  predicate AllDigits(bytes: seq<Byte>) {
    forall i :: 0 <= i < |bytes| ==> ZERO <= bytes[i] <= ZERO + 9
  }

  /** What digits stand for, most significant first. */
  function Value(bytes: seq<Byte>): int {
    if bytes == [] then 0 else 10 * Value(bytes[..|bytes| - 1]) + bytes[|bytes| - 1] - ZERO
  }

  lemma {:induction false} ValueBounds(bytes: seq<Byte>)
    requires AllDigits(bytes)
    ensures 0 <= Value(bytes) < Pow10(|bytes|)
  {
    if bytes != [] {
      ValueBounds(bytes[..|bytes| - 1]);
    }
  }

  lemma {:induction false} PaddedValue(n: nat, width: nat)
    ensures AllDigits(Padded(n, width)) && Value(Padded(n, width)) == n
    decreases n + width
  {
    if n >= 10 || width > 1 {
      var narrower := if width > 0 then width - 1 else 0;
      PaddedValue(n / 10, narrower);
      ValueAppend(Padded(n / 10, narrower), ZERO + n % 10);
    }
  }

  lemma ValueAppend(front: seq<Byte>, digit: Byte)
    ensures Value(front + [digit]) == 10 * Value(front) + digit - ZERO
  {
    assert (front + [digit])[..|front|] == front;
  }

  lemma {:induction false} PaddedLength(n: nat, width: nat)
    requires width >= 1
    ensures |Padded(n, width)| >= width
    ensures |Padded(n, width)| == width <==> n < Pow10(width)
    decreases width
  {
    if width > 1 {
      PaddedLength(n / 10, width - 1);
      TenTimes(n, Pow10(width - 1));
    } else {
      assert Pow10(1) == 10 * Pow10(0);
      PaddedIsNotEmpty(n / 10, 0);
    }
  }

  lemma PaddedIsNotEmpty(n: nat, width: nat)
    ensures |Padded(n, width)| >= 1
  {
  }

  lemma TenTimes(n: nat, power: nat)
    ensures n / 10 < power <==> n < 10 * power
  {
  }

  lemma PaddedDigits(n: nat, width: nat)
    requires width >= 1
    ensures AllDigits(Padded(n, width)) && Value(Padded(n, width)) == n
    ensures |Padded(n, width)| >= width
    ensures |Padded(n, width)| == width <==> n < Pow10(width)
  {
    PaddedValue(n, width);
    PaddedLength(n, width);
  }

  /** Digits are determined by what they stand for and how many they are. */
  lemma {:induction false} DigitsOfValue(bytes: seq<Byte>)
    requires AllDigits(bytes) && |bytes| >= 1
    ensures 0 <= Value(bytes)
    ensures Padded(Value(bytes), |bytes|) == bytes
  {
    ValueBounds(bytes);
    var front, last := bytes[..|bytes| - 1], bytes[|bytes| - 1];
    assert bytes == front + [last];
    if |bytes| == 1 {
      assert front == [] && Value(bytes) == last - ZERO;
    } else {
      DigitsOfValue(front);
      ValueAppend(front, last);
      var n: nat := Value(bytes);
      OffTheEnd(Value(front), last - ZERO);
      PaddedStep(n, |bytes|);
      assert Padded(n, |bytes|) == Padded(Value(front), |front|) + [last];
    }
  }

  lemma OffTheEnd(front: nat, digit: nat)
    requires digit <= 9
    ensures (10 * front + digit) / 10 == front && (10 * front + digit) % 10 == digit
  {
  }

  lemma PaddedStep(n: nat, width: nat)
    requires width >= 1 && (n >= 10 || width > 1)
    ensures Padded(n, width) == Padded(n / 10, width - 1) + [ZERO + n % 10]
  {
  }

  lemma {:induction false} Pow10Positive(width: nat)
    ensures Pow10(width) >= 1
  {
    if width > 0 {
      Pow10Positive(width - 1);
    }
  }

  /** What digits read from the left add up to, with no bound on it. */
  function ReadOn(value: nat, bytes: seq<Byte>): int
    decreases |bytes|
  {
    if bytes == [] then value
    else if bytes[0] < ZERO then value
    else ReadOn(value * 10 + (bytes[0] - ZERO), bytes[1..])
  }

  lemma {:induction false} ReadOnGrows(value: nat, bytes: seq<Byte>)
    ensures ReadOn(value, bytes) >= value
    decreases |bytes|
  {
    if bytes != [] && bytes[0] >= ZERO {
      ReadOnGrows(value * 10 + (bytes[0] - ZERO), bytes[1..]);
    }
  }

  /** Reading from the left comes to what the digits stand for. */
  lemma {:induction false} ReadOnAppends(value: nat, front: seq<Byte>, last: Byte)
    requires AllDigits(front) && ZERO <= last <= ZERO + 9
    ensures ReadOn(value, front + [last]) == 10 * ReadOn(value, front) + (last - ZERO)
    decreases |front|
  {
    var bytes := front + [last];
    if front == [] {
      assert bytes[0] == last && bytes[1..] == [];
    } else {
      assert bytes[0] == front[0] && bytes[1..] == front[1..] + [last];
      ReadOnAppends(value * 10 + (front[0] - ZERO), front[1..], last);
    }
  }

  lemma {:induction false} ReadOnIsValue(bytes: seq<Byte>)
    requires AllDigits(bytes)
    ensures ReadOn(0, bytes) == Value(bytes)
  {
    if bytes != [] {
      var front, last := bytes[..|bytes| - 1], bytes[|bytes| - 1];
      assert bytes == front + [last];
      ReadOnIsValue(front);
      ReadOnAppends(0, front, last);
    }
  }

  lemma {:induction false} CheckedReadOn(value: nat, bytes: seq<Byte>)
    requires value <= U64_MAX
    ensures DecimalFrom(value, bytes) ==
            if AllDigits(bytes) && ReadOn(value, bytes) <= U64_MAX then Some(ReadOn(value, bytes)) else None
    decreases |bytes|
  {
    if bytes != [] && ZERO <= bytes[0] <= ZERO + 9 {
      var next, tail := value * 10 + (bytes[0] - ZERO), bytes[1..];
      assert bytes == [bytes[0]] + tail;
      ReadOnGrows(next, tail);
      if next <= U64_MAX {
        CheckedReadOn(next, tail);
      }
    }
  }

  /** The parser's fold, over digits of any number, gives exactly what they stand for, and gives up exactly on anything
      but digits and on what does not fit. */
  lemma DecimalReadsValue(bytes: seq<Byte>)
    ensures AllDigits(bytes) ==> Value(bytes) >= 0
    ensures Decimal(bytes) == if AllDigits(bytes) && Value(bytes) <= U64_MAX then Some(Value(bytes)) else None
  {
    CheckedReadOn(0, bytes);
    if AllDigits(bytes) {
      ReadOnIsValue(bytes);
      ValueBounds(bytes);
    }
  }

  lemma FitsInU64(width: nat)
    requires width <= 4
    ensures Pow10(width) <= 10_000
  {
    assert Pow10(1) == 10 && Pow10(2) == 100 && Pow10(3) == 1000 && Pow10(4) == 10_000;
  }

  lemma DecimalOf(bytes: seq<Byte>)
    requires |bytes| <= 4
    ensures AllDigits(bytes) ==> 0 <= Value(bytes) && Decimal(bytes) == Some(Value(bytes))
    ensures !AllDigits(bytes) ==> Decimal(bytes) == None
  {
    DecimalReadsValue(bytes);
    if AllDigits(bytes) {
      ValueBounds(bytes);
      FitsInU64(|bytes|);
    }
  }

  lemma DecimalOfPadded(n: nat, width: nat)
    requires 1 <= width <= 4 && n < Pow10(width)
    ensures |Padded(n, width)| == width && Decimal(Padded(n, width)) == Some(n)
  {
    PaddedDigits(n, width);
    DecimalOf(Padded(n, width));
  }

  /* Fields. */

  /** The fields of an instant since the epoch. */
  predicate InstantFields(at: Utc) {
    && 1970 <= at.year
    && ValidDate(Date(at.year, at.month, at.day))
    && at.hour <= 23 && at.minute <= 59 && at.second <= 59 && at.millisecond <= 999
  }

  /** Those that a stamp of a four-digit year is written from. */
  predicate StampFields(at: Utc) {
    InstantFields(at) && at.year <= 9999
  }

  /** Milliseconds since the epoch, counted by the calendar's definition. */
  function Millis(at: Utc): int
    requires ValidDate(Date(at.year, at.month, at.day))
  {
    (((DayNumber(Date(at.year, at.month, at.day)) * 24 + at.hour) * 60 + at.minute) * 60 + at.second) * 1000
    + at.millisecond
  }

  lemma {:induction false} DateSinceEpoch(days: nat)
    ensures ValidDate(CivilFromDays(days)) && CivilFromDays(days).year >= 1970
  {
    CivilFromDaysIsThatDay(days);
    if CivilFromDays(days).year < 1970 {
      DayOfDateInYear(CivilFromDays(days));
      YearsAreMonotone(CivilFromDays(days).year + 1, 1970);
    }
  }

  /** The fields are those of the instant, to the millisecond. */
  lemma {:induction false} AtIsTheInstant(now: nat)
    ensures InstantFields(At(now)) && Millis(At(now)) == now / NANOS_PER_MILLI
    ensures StampFields(At(now)) <==> now < YEAR_10000_SECONDS * NANOS_PER_SECOND
  {
    var seconds := now / NANOS_PER_SECOND;
    FieldsAreTheInstant(seconds / 86_400, seconds % 86_400, now % NANOS_PER_SECOND / NANOS_PER_MILLI);
    MillisOfNanos(now);
    Before10000(CivilFromDays(seconds / 86_400));
    CivilFromDaysIsThatDay(seconds / 86_400);
  }

  lemma {:induction false} FieldsAreTheInstant(days: nat, time: nat, millisecond: nat)
    requires time < 86_400 && millisecond <= 999
    ensures var at := FieldsOf(days, time, millisecond);
            && InstantFields(at) && Date(at.year, at.month, at.day) == CivilFromDays(days)
            && Millis(at) == (days * 86_400 + time) * 1000 + millisecond
  {
    DateSinceEpoch(days);
    TimeOfDay(time);
    FieldsOfDate(CivilFromDays(days), days, time, millisecond);
    CivilFromDaysIsThatDay(days);
    MillisOfParts(FieldsOf(days, time, millisecond), days, time);
  }

  lemma TimeOfDay(time: nat)
    requires time < 86_400
    ensures time / 3_600 <= 23 && time % 3_600 / 60 <= 59 && time % 60 <= 59
    ensures (time / 3_600 * 60 + time % 3_600 / 60) * 60 + time % 60 == time
  {
  }

  lemma MillisOfNanos(now: nat)
    ensures now / NANOS_PER_SECOND * 1000 + now % NANOS_PER_SECOND / NANOS_PER_MILLI == now / NANOS_PER_MILLI
    ensures now % NANOS_PER_SECOND / NANOS_PER_MILLI <= 999
  {
  }

  lemma {:induction false} Before10000(date: Date)
    requires ValidDate(date)
    ensures date.year <= 9999 <==> DayNumber(date) < YEAR_10000_SECONDS / 86_400
  {
    DaysBeforeYearClosedForm(10_000);
    assert DaysBeforeYear(10_000) == YEAR_10000_SECONDS / 86_400;
    DayOfDateInYear(date);
    if date.year <= 9999 {
      YearsAreMonotone(date.year + 1, 10_000);
    } else {
      YearsAreMonotone(10_000, date.year);
    }
  }

  /* The reader's count is the calendar's. */

  lemma SumStep(values: seq<nat>, k: nat)
    requires k < |values|
    ensures Sum(values[..k + 1]) == Sum(values[..k]) + values[k]
  {
    assert values[..k + 1][..k] == values[..k];
  }

  lemma {:induction false} MonthTable(year: nat, month: nat)
    requires 1 <= month <= 12
    ensures var table := MonthDays(IsLeap(year));
            table[month - 1] == DaysInMonth(year, month) && Sum(table[..month - 1]) == DaysBeforeMonth(year, month)
  {
    if month > 1 {
      MonthTable(year, month - 1);
      SumStep(MonthDays(IsLeap(year)), month - 2);
    }
  }

  /** The reader accepts exactly the fields of an instant since the epoch, and takes them to it. */
  lemma {:induction false} InstantOfFields(at: Utc)
    requires at.year <= 9999 && at.millisecond <= 999
    ensures InstantOf(at).Some? <==> StampFields(at)
    ensures StampFields(at) ==> InstantOf(at) == Some(Millis(at) * NANOS_PER_MILLI)
  {
    if 1970 <= at.year && 1 <= at.month <= 12 {
      MonthTable(at.year, at.month);
      if StampFields(at) {
        SecondsCounted(at);
        MillisOfSeconds(at);
      }
    }
  }

  /** Whole seconds since the epoch, counted by the calendar's definition. */
  function Seconds(at: Utc): int
    requires ValidDate(Date(at.year, at.month, at.day))
  {
    DayNumber(Date(at.year, at.month, at.day)) * 86_400 + (at.hour * 3_600 + at.minute * 60 + at.second)
  }

  lemma MillisOfSeconds(at: Utc)
    requires ValidDate(Date(at.year, at.month, at.day))
    ensures Millis(at) * NANOS_PER_MILLI == Seconds(at) * NANOS_PER_SECOND + at.millisecond * NANOS_PER_MILLI
  {
  }

  /** The reader's leap count and month table come to the calendar's own count, with nothing overflowing. */
  lemma {:induction false} SecondsCounted(at: Utc)
    requires StampFields(at)
    ensures SecondsOf(at, MonthDays(IsLeap(at.year))) == Some(Seconds(at))
  {
    var beforeYear, beforeMonth := DaysBeforeYear(at.year), DaysBeforeMonth(at.year, at.month);
    DaysBeforeYearClosedForm(at.year);
    YearsAreMonotone(1970, at.year);
    MonthTable(at.year, at.month);
    MonthsAreWithinAYear(at.year, at.month);
    Before10000(Date(at.year, at.month, at.day));
    ChecksPass(at, MonthDays(IsLeap(at.year)), beforeYear, beforeMonth);
  }

  lemma MonthsAreWithinAYear(year: int, month: int)
    requires 1 <= month <= 12
    ensures 0 <= DaysBeforeMonth(year, month) <= 335
  {
    DaysBeforeMonthTable(year, month);
  }

  lemma {:induction false} ChecksPass(at: Utc, monthDays: seq<nat>, beforeYear: nat, beforeMonth: nat)
    requires at.year >= 1970 && 1 <= at.month <= |monthDays| && at.day >= 1
    requires LeapYears(at.year - 1) - LeapYears(1969) >= 0
    requires beforeYear == 365 * (at.year - 1970) + (LeapYears(at.year - 1) - LeapYears(1969))
    requires beforeMonth == Sum(monthDays[..at.month - 1])
    requires beforeYear + beforeMonth + at.day - 1 < YEAR_10000_SECONDS / 86_400
    requires at.hour <= 23 && at.minute <= 59 && at.second <= 59
    ensures SecondsOf(at, monthDays) ==
            Some((beforeYear + beforeMonth + at.day - 1) * 86_400 + (at.hour * 3_600 + at.minute * 60 + at.second))
  {
  }

  /* Stamps as sequences of pieces. */

  lemma {:induction false} StampPieces(y: seq<Byte>, m: seq<Byte>, d: seq<Byte>, h: seq<Byte>, n: seq<Byte>,
                                       s: seq<Byte>, k: seq<Byte>)
    requires |y| == 4 && |m| == |d| == |h| == |n| == |s| == 2 && |k| == 3
    ensures var text := y + [DASH] + m + [DASH] + d + [LETTER_T] + h + [COLON] + n + [COLON] + s + [POINT] + k
                        + [LETTER_Z];
            && HasStampShape(text)
            && text[0..4] == y && text[5..7] == m && text[8..10] == d
            && text[11..13] == h && text[14..16] == n && text[17..19] == s && text[20..23] == k
  {
    var date := y + [DASH] + m + [DASH] + d;
    var time := h + [COLON] + n + [COLON] + s;
    DatePieces(y, m, d);
    TimePieces(h, n, s);
    var rest := [LETTER_T] + time + [POINT] + k + [LETTER_Z];
    var text := y + [DASH] + m + [DASH] + d + [LETTER_T] + h + [COLON] + n + [COLON] + s + [POINT] + k + [LETTER_Z];
    assert text == date + rest;
    assert forall i :: 0 <= i < 10 ==> text[i] == date[i];
    assert forall i :: 0 <= i < 8 ==> text[i + 11] == time[i];
    assert text[10] == LETTER_T && text[19] == POINT && text[23] == LETTER_Z;
    assert text[20] == k[0] && text[21] == k[1] && text[22] == k[2];
    assert text[11..19] == time;
    assert text[11..13] == time[0..2] && text[14..16] == time[3..5] && text[17..19] == time[6..8];
    assert text[13] == time[2] && text[16] == time[5];
    assert text[0..4] == date[0..4] && text[5..7] == date[5..7] && text[8..10] == date[8..10];
  }

  lemma DatePieces(y: seq<Byte>, m: seq<Byte>, d: seq<Byte>)
    requires |y| == 4 && |m| == |d| == 2
    ensures var date := y + [DASH] + m + [DASH] + d;
            && |date| == 10 && date[4] == date[7] == DASH
            && date[0..4] == y && date[5..7] == m && date[8..10] == d
  {
  }

  lemma TimePieces(h: seq<Byte>, n: seq<Byte>, s: seq<Byte>)
    requires |h| == |n| == |s| == 2
    ensures var time := h + [COLON] + n + [COLON] + s;
            && |time| == 8 && time[2] == time[5] == COLON
            && time[0..2] == h && time[3..5] == n && time[6..8] == s
  {
  }

  lemma StampOfPieces(text: seq<Byte>)
    requires HasStampShape(text)
    ensures text == text[0..4] + [DASH] + text[5..7] + [DASH] + text[8..10] + [LETTER_T] + text[11..13] + [COLON]
                    + text[14..16] + [COLON] + text[17..19] + [POINT] + text[20..23] + [LETTER_Z]
  {
  }

  lemma {:induction false} LongYearHasNoShape(at: Utc)
    requires at.year > 9999
    ensures |StampText(at)| > 24
  {
    PaddedDigits(at.year, 4);
    assert Pow10(4) == 10_000;
    PaddedDigits(at.month, 2);
    PaddedDigits(at.day, 2);
    PaddedDigits(at.hour, 2);
    PaddedDigits(at.minute, 2);
    PaddedDigits(at.second, 2);
    PaddedDigits(at.millisecond, 3);
  }

  lemma {:induction false} FieldsReadBack(at: Utc)
    requires StampFields(at)
    ensures ParseUtc(StampText(at)) == InstantOf(at)
  {
    assert Pow10(4) == 10_000 && Pow10(3) == 1000 && Pow10(2) == 100;
    DecimalOfPadded(at.year, 4);
    DecimalOfPadded(at.month, 2);
    DecimalOfPadded(at.day, 2);
    DecimalOfPadded(at.hour, 2);
    DecimalOfPadded(at.minute, 2);
    DecimalOfPadded(at.second, 2);
    DecimalOfPadded(at.millisecond, 3);
    StampPieces(Padded(at.year, 4), Padded(at.month, 2), Padded(at.day, 2), Padded(at.hour, 2),
                Padded(at.minute, 2), Padded(at.second, 2), Padded(at.millisecond, 3));
  }

  /* The two round trips. */

  /** What a stamp says is the instant to the millisecond, exactly for as long as a year has four digits. */
  lemma {:induction false} ParseUndoesTimestamp(now: int)
    ensures now < YEAR_10000_SECONDS * NANOS_PER_SECOND
            ==> ParseUtc(Timestamp(now)) == Some(if now < 0 then 0 else now / NANOS_PER_MILLI * NANOS_PER_MILLI)
    ensures now >= YEAR_10000_SECONDS * NANOS_PER_SECOND ==> ParseUtc(Timestamp(now)) == None
  {
    ReadsBackSinceEpoch(now);
    assert SinceEpoch(now) == if now < 0 then 0 else now;
    assert now < 0 ==> SinceEpoch(now) / NANOS_PER_MILLI * NANOS_PER_MILLI == 0;
  }

  lemma {:induction false} ReadsBackSinceEpoch(now: int)
    ensures now < YEAR_10000_SECONDS * NANOS_PER_SECOND
            ==> ParseUtc(Timestamp(now)) == Some(SinceEpoch(now) / NANOS_PER_MILLI * NANOS_PER_MILLI)
    ensures now >= YEAR_10000_SECONDS * NANOS_PER_SECOND ==> ParseUtc(Timestamp(now)) == None
  {
    var since := SinceEpoch(now);
    AtIsTheInstant(since);
    assert At(now) == At(since);
    DateSinceEpoch(since / NANOS_PER_SECOND / 86_400);
    if StampFields(At(since)) {
      FieldsReadBack(At(since));
      InstantOfFields(At(since));
    } else {
      assert At(since).year > 9999 by {
        TimeOfDay(since / NANOS_PER_SECOND % 86_400);
        MillisOfNanos(since);
      }
      LongYearHasNoShape(At(since));
    }
  }

  /** The reader accepts nothing but stamps: printing what it read gives back the very same text. */
  lemma {:induction false} TimestampUndoesParse(text: seq<Byte>)
    requires ParseUtc(text).Some?
    ensures ParseUtc(text).value >= 0
    ensures Timestamp(ParseUtc(text).value) == text
  {
    assert Pow10(4) == 10_000 && Pow10(3) == 1000;
    var y, m, d, h, n, s, k := text[0..4], text[5..7], text[8..10], text[11..13], text[14..16], text[17..19],
                                 text[20..23];
    DecimalOf(y); DecimalOf(m); DecimalOf(d); DecimalOf(h); DecimalOf(n); DecimalOf(s); DecimalOf(k);
    ValueBounds(y);
    ValueBounds(k);
    DigitsOfValue(y); DigitsOfValue(m); DigitsOfValue(d); DigitsOfValue(h); DigitsOfValue(n); DigitsOfValue(s);
    DigitsOfValue(k);
    var at := Utc(Value(y), Value(m), Value(d), Value(h), Value(n), Value(s), Value(k));
    assert InstantOf(at) == ParseUtc(text);
    InstantOfFields(at);
    StampOfPieces(text);
    assert StampText(at) == text;
    FieldsOfMillis(at);
  }

  /** Fields are determined by the instant they name. */
  lemma {:induction false} FieldsOfMillis(at: Utc)
    requires StampFields(at)
    ensures Millis(at) >= 0 && At(Millis(at) * NANOS_PER_MILLI) == at
  {
    var date := Date(at.year, at.month, at.day);
    SinceTheEpoch(date);
    DayNumberRoundTrip(date);
    var time := (at.hour * 60 + at.minute) * 60 + at.second;
    MillisOfParts(at, DayNumber(date), time);
    AtParts(at, DayNumber(date), time, Millis(at) * NANOS_PER_MILLI);
  }

  lemma {:induction false} AtParts(at: Utc, days: nat, time: nat, now: nat)
    requires at.hour <= 23 && at.minute <= 59 && at.second <= 59 && at.millisecond <= 999
    requires time == (at.hour * 60 + at.minute) * 60 + at.second
    requires now == ((days * 86_400 + time) * 1000 + at.millisecond) * NANOS_PER_MILLI
    ensures CivilFromDays(days) == Date(at.year, at.month, at.day) ==> At(now) == at
  {
    SplitTime(at.hour, at.minute, at.second);
    FieldsOfParts(days, time, at.millisecond);
    if CivilFromDays(days) == Date(at.year, at.month, at.day) {
      FieldsOfDate(Date(at.year, at.month, at.day), days, time, at.millisecond);
    }
  }

  lemma MillisOfParts(at: Utc, days: int, time: int)
    requires ValidDate(Date(at.year, at.month, at.day)) && DayNumber(Date(at.year, at.month, at.day)) == days
    requires time == (at.hour * 60 + at.minute) * 60 + at.second
    ensures Millis(at) == (days * 86_400 + time) * 1000 + at.millisecond
  {
  }

  lemma FieldsOfDate(date: Date, days: nat, time: nat, millisecond: nat)
    requires CivilFromDays(days) == date
    ensures date.year >= 0 && date.month >= 0 && date.day >= 0
    ensures FieldsOf(days, time, millisecond) ==
            Utc(date.year, date.month, date.day, time / 3_600, time % 3_600 / 60, time % 60, millisecond)
  {
    DateSinceEpoch(days);
  }

  lemma SinceTheEpoch(date: Date)
    requires ValidDate(date) && date.year >= 1970
    ensures DayNumber(date) >= 0
  {
    DayOfDateInYear(date);
    YearsAreMonotone(1970, date.year);
  }

  lemma FieldsOfParts(days: nat, time: nat, millisecond: nat)
    requires time < 86_400 && millisecond <= 999
    ensures At(((days * 86_400 + time) * 1000 + millisecond) * NANOS_PER_MILLI) == FieldsOf(days, time, millisecond)
  {
    SplitMillis(days, time, millisecond);
  }

  lemma SplitMillis(days: nat, time: nat, millisecond: nat)
    requires time < 86_400 && millisecond <= 999
    ensures var now := ((days * 86_400 + time) * 1000 + millisecond) * NANOS_PER_MILLI;
            && now / NANOS_PER_SECOND / 86_400 == days
            && now / NANOS_PER_SECOND % 86_400 == time
            && now % NANOS_PER_SECOND / NANOS_PER_MILLI == millisecond
  {
    var now := ((days * 86_400 + time) * 1000 + millisecond) * NANOS_PER_MILLI;
    assert now == (days * 86_400 + time) * NANOS_PER_SECOND + millisecond * NANOS_PER_MILLI;
    assert now / NANOS_PER_SECOND == days * 86_400 + time;
  }

  lemma SplitTime(hour: nat, minute: nat, second: nat)
    requires hour <= 23 && minute <= 59 && second <= 59
    ensures var time := (hour * 60 + minute) * 60 + second;
            && time < 86_400 && time / 3_600 == hour && time % 3_600 / 60 == minute && time % 60 == second
  {
  }
}
