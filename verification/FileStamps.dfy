/** The names of the log files: how their stamps sort.

    A stamp is the date as one number, a dash, and the time of day. As long as two dates have equally many
    digits their stamps sort as their instants do. From the year 10000 on dates have nine digits and more; how
    those sort among the shorter ones is stated exactly.
 */
module FileStamps {
  import opened Outcomes
  import opened Calendar
  import opened Timestamp

  /** Byte-wise lexicographic order, which is how a directory listing is sorted. */
  predicate Before(a: seq<Byte>, b: seq<Byte>) {
    b != [] && (a == [] || a[0] < b[0] || (a[0] == b[0] && Before(a[1..], b[1..])))
  }

  lemma {:induction false} BeforeConcat(a: seq<Byte>, a': seq<Byte>, b: seq<Byte>, b': seq<Byte>)
    requires |a| == |b|
    ensures Before(a + a', b + b') <==> Before(a, b) || (a == b && Before(a', b'))
  {
    if a == [] {
      assert a + a' == a' && b + b' == b';
    } else {
      BeforeConcat(a[1..], a', b[1..], b');
      assert (a + a')[1..] == a[1..] + a' && (b + b')[1..] == b[1..] + b';
      assert a == [a[0]] + a[1..] && b == [b[0]] + b[1..];
    }
  }

  lemma {:induction false} NotBeforeItself(a: seq<Byte>)
    ensures !Before(a, a)
  {
    if a != [] {
      NotBeforeItself(a[1..]);
    }
  }

  /* Padded numbers. */

  lemma {:induction false} PaddedOrder(m: nat, n: nat, width: nat)
    requires 1 <= width && m < Pow10(width) && n < Pow10(width)
    ensures Before(Padded(m, width), Padded(n, width)) <==> m < n
    ensures Padded(m, width) == Padded(n, width) <==> m == n
    decreases width
  {
    if width > 1 {
      TenTimes(m, Pow10(width - 1));
      TenTimes(n, Pow10(width - 1));
      PaddedOrder(m / 10, n / 10, width - 1);
      PaddedLength(m / 10, width - 1);
      PaddedLength(n / 10, width - 1);
      PaddedStep(m, width);
      PaddedStep(n, width);
      LastDigitOrder(Padded(m / 10, width - 1), m, Padded(n / 10, width - 1), n);
    } else {
      assert Pow10(1) == 10 * Pow10(0);
    }
  }

  lemma LastDigitOrder(front: seq<Byte>, m: nat, front': seq<Byte>, n: nat)
    requires |front| == |front'|
    requires Before(front, front') <==> m / 10 < n / 10
    requires front == front' <==> m / 10 == n / 10
    ensures Before(front + [ZERO + m % 10], front' + [ZERO + n % 10]) <==> m < n
    ensures front + [ZERO + m % 10] == front' + [ZERO + n % 10] <==> m == n
  {
    BeforeConcat(front, [ZERO + m % 10], front', [ZERO + n % 10]);
    var text, text' := front + [ZERO + m % 10], front' + [ZERO + n % 10];
    assert text[..|front|] == front && text'[..|front|] == front';
    assert text[|front|] == ZERO + m % 10 && text'[|front|] == ZERO + n % 10;
  }

  /** A number that needs more digits than a width is written the same whether or not it is padded to one more. */
  lemma {:induction false} WidthIsNoMatter(n: nat, width: nat)
    requires n >= Pow10(width)
    ensures Padded(n, width) == Padded(n, width + 1)
  {
    if width > 0 {
      LongEnough(n, width);
      WidthIsNoMatter(n / 10, width - 1);
    }
  }

  /** And its last digit comes off. */
  lemma {:induction false} LastDigit(n: nat, width: nat)
    requires width >= 1 && n >= Pow10(width)
    ensures Padded(n, width) == Padded(n / 10, width) + [ZERO + n % 10]
  {
    LongEnough(n, width);
    var shorter, narrower := n / 10, width - 1;
    WidthIsNoMatter(shorter, narrower);
    assert narrower + 1 == width;
    PaddedStep(n, width);
  }

  lemma LongEnough(n: nat, width: nat)
    requires width >= 1 && n >= Pow10(width)
    ensures n >= 10 && n / 10 >= Pow10(width - 1)
  {
    Pow10Positive(width - 1);
    TenTimes(n, Pow10(width - 1));
  }

  lemma {:induction false} Pow10Grows(less: nat, more: nat)
    requires less <= more
    ensures Pow10(less) <= Pow10(more)
  {
    if less < more {
      Pow10Grows(less, more - 1);
      Pow10Positive(more - 1);
    }
  }

  lemma {:induction false} WidthBelowPower(width: nat)
    ensures width < Pow10(width)
  {
    if width > 0 {
      WidthBelowPower(width - 1);
    }
  }

  /** A padded number is padded to its own length, which says between which powers of ten it lies. */
  lemma {:induction false} PaddedToItsLength(n: nat, width: nat)
    requires width >= 1
    ensures ItsLength(n, width, |Padded(n, width)|)
    decreases if width <= n then n - width else 0
  {
    if n < Pow10(width) {
      PaddedDigits(n, width);
    } else {
      WidthBelowPower(width);
      PaddedToItsLength(n, width + 1);
      WidthIsNoMatter(n, width);
    }
  }

  ghost predicate ItsLength(n: nat, width: nat, length: nat) {
    && length >= width && Padded(n, width) == Padded(n, length) && n < Pow10(length)
    && (length > width ==> n >= Pow10(length - 1))
  }

  /** A number without its last `k` digits. */
  function Shortened(n: nat, k: nat): nat {
    if k == 0 then n else Shortened(n / 10, k - 1)
  }

  /** The front of a long number is the number shortened. */
  lemma {:induction false} FrontIsShortened(n: nat, width: nat, k: nat) returns (tail: seq<Byte>)
    requires width >= 1 && |Padded(n, width)| >= width + k
    ensures Padded(n, width) == Padded(Shortened(n, k), width) + tail
    ensures |tail| == k && AllDigits(tail)
    decreases k
  {
    tail := [];
    if k > 0 {
      PaddedToItsLength(n, width);
      Pow10Grows(width, |Padded(n, width)| - 1);
      LastDigit(n, width);
      var front := FrontIsShortened(n / 10, width, k - 1);
      tail := front + [ZERO + n % 10];
    }
  }

  /* The pieces of a stamp. */

  /** The date as the number its digits spell. */
  function DateNumber(at: Utc): nat {
    (at.year * 100 + at.month) * 100 + at.day
  }

  function Clock(at: Utc): seq<Byte> {
    Padded(at.hour, 2) + (Padded(at.minute, 2) + (Padded(at.second, 2) + ([DASH] + Padded(at.millisecond, 3))))
  }

  lemma {:induction false} TwoMoreDigits(n: nat, more: nat, width: nat)
    requires width >= 1 && more < 100
    ensures Padded(n * 100 + more, width + 2) == Padded(n, width) + Padded(more, 2)
  {
    var whole := n * 100 + more;
    assert whole / 10 == n * 10 + more / 10 && whole % 10 == more % 10;
    assert (n * 10 + more / 10) / 10 == n && (n * 10 + more / 10) % 10 == more / 10;
    assert Padded(whole / 10, width + 1) == Padded(n, width) + [ZERO + more / 10];
    assert Padded(more, 2) == [ZERO + more / 10] + [ZERO + more % 10];
    assert Padded(n, width) + [ZERO + more / 10] + [ZERO + more % 10] ==
             Padded(n, width) + ([ZERO + more / 10] + [ZERO + more % 10]);
  }

  lemma DateIsANumber(year: nat, month: nat, day: nat)
    requires month < 100 && day < 100
    ensures Padded((year * 100 + month) * 100 + day, 8) == Padded(year, 4) + Padded(month, 2) + Padded(day, 2)
  {
    TwoMoreDigits(year, month, 4);
    TwoMoreDigits(year * 100 + month, day, 6);
  }

  lemma StampIsDateAndClock(at: Utc)
    requires InstantFields(at)
    ensures FileText(at) == Padded(DateNumber(at), 8) + ([DASH] + Clock(at))
  {
    DateIsANumber(at.year, at.month, at.day);
    StampRegroups(Padded(at.year, 4), Padded(at.month, 2), Padded(at.day, 2), [DASH] + Clock(at));
  }

  lemma StampRegroups(y: seq<Byte>, m: seq<Byte>, d: seq<Byte>, rest: seq<Byte>)
    ensures y + (m + (d + rest)) == ((y + m) + d) + rest
  {
    Regroup(y, m, d + rest);
    Regroup(y + m, d, rest);
  }

  lemma PieceOrder(m: nat, n: nat, width: nat, tail: seq<Byte>, tail': seq<Byte>)
    requires 1 <= width && m < Pow10(width) && n < Pow10(width)
    ensures Before(Padded(m, width) + tail, Padded(n, width) + tail') <==> m < n || (m == n && Before(tail, tail'))
  {
    PaddedDigits(m, width);
    PaddedDigits(n, width);
    PaddedOrder(m, n, width);
    BeforeConcat(Padded(m, width), tail, Padded(n, width), tail');
  }

  /** The order of two times of day. */
  predicate ClockBefore(a: Utc, b: Utc) {
    || a.hour < b.hour || (a.hour == b.hour && (
    || a.minute < b.minute || (a.minute == b.minute && (
    || a.second < b.second || (a.second == b.second && a.millisecond < b.millisecond)))))
  }

  lemma ClockOrder(a: Utc, b: Utc)
    requires InstantFields(a) && InstantFields(b)
    ensures Before(Clock(a), Clock(b)) <==> ClockBefore(a, b)
  {
    assert Pow10(3) == 1000 && Pow10(2) == 100;
    var ms, ms' := Padded(a.millisecond, 3), Padded(b.millisecond, 3);
    PaddedOrder(a.millisecond, b.millisecond, 3);
    DashFirst(ms, ms');
    PieceOrder(a.second, b.second, 2, [DASH] + ms, [DASH] + ms');
    var s, s' := Padded(a.second, 2) + ([DASH] + ms), Padded(b.second, 2) + ([DASH] + ms');
    PieceOrder(a.minute, b.minute, 2, s, s');
    PieceOrder(a.hour, b.hour, 2, Padded(a.minute, 2) + s, Padded(b.minute, 2) + s');
  }

  lemma DashFirst(tail: seq<Byte>, tail': seq<Byte>)
    ensures Before([DASH] + tail, [DASH] + tail') <==> Before(tail, tail')
  {
    assert ([DASH] + tail)[1..] == tail && ([DASH] + tail')[1..] == tail';
  }

  lemma {:induction false} FieldsOrderedAsMillis(a: Utc, b: Utc)
    requires InstantFields(a) && InstantFields(b)
    ensures DateNumber(a) < DateNumber(b) || (DateNumber(a) == DateNumber(b) && ClockBefore(a, b)) <==>
              Millis(a) < Millis(b)
    ensures a == b <==> Millis(a) == Millis(b)
  {
    var date, date' := Date(a.year, a.month, a.day), Date(b.year, b.month, b.day);
    DatesOrderedAsDays(date, date');
    assert DateBefore(date, date') <==> DateNumber(a) < DateNumber(b);
    assert date == date' <==> DateNumber(a) == DateNumber(b);
    ClockMillis(a, b);
  }

  /** The time of day in milliseconds. */
  function OfDay(at: Utc): nat {
    ((at.hour * 60 + at.minute) * 60 + at.second) * 1000 + at.millisecond
  }

  lemma {:induction false} ClockMillis(a: Utc, b: Utc)
    requires InstantFields(a) && InstantFields(b)
    ensures OfDay(a) < 86_400_000 && OfDay(b) < 86_400_000
    ensures Millis(a) == DayNumber(Date(a.year, a.month, a.day)) * 86_400_000 + OfDay(a)
    ensures Millis(b) == DayNumber(Date(b.year, b.month, b.day)) * 86_400_000 + OfDay(b)
    ensures ClockBefore(a, b) <==> OfDay(a) < OfDay(b)
    ensures OfDay(a) == OfDay(b) ==>
              a.hour == b.hour && a.minute == b.minute && a.second == b.second && a.millisecond == b.millisecond
  {
  }

  /* How stamps sort. */

  function DateDigits(at: Utc): nat {
    |Padded(DateNumber(at), 8)|
  }

  /** Dates of equally many digits sort as their instants do. */
  lemma {:induction false} EqualLengthsSort(a: Utc, b: Utc)
    requires InstantFields(a) && InstantFields(b) && DateDigits(a) == DateDigits(b)
    ensures Before(FileText(a), FileText(b)) <==> Millis(a) < Millis(b)
  {
    var length := DateDigits(a);
    StampIsDateAndClock(a);
    StampIsDateAndClock(b);
    PaddedToItsLength(DateNumber(a), 8);
    PaddedToItsLength(DateNumber(b), 8);
    PieceOrder(DateNumber(a), DateNumber(b), length, [DASH] + Clock(a), [DASH] + Clock(b));
    DashFirst(Clock(a), Clock(b));
    ClockOrder(a, b);
    FieldsOrderedAsMillis(a, b);
  }

  /** A shorter date comes first exactly when it is no more than the longer one cut to its length. */
  lemma {:induction false} ShorterDateFirst(a: Utc, b: Utc)
    requires InstantFields(a) && InstantFields(b) && DateDigits(a) < DateDigits(b)
    ensures Before(FileText(a), FileText(b)) <==>
              DateNumber(a) <= Shortened(DateNumber(b), DateDigits(b) - DateDigits(a))
    ensures !Before(FileText(a), FileText(b)) ==> Before(FileText(b), FileText(a))
  {
    PaddedLength(DateNumber(a), 8);
    var tail := FrontIsShortened(DateNumber(b), 8, DateDigits(b) - DateDigits(a));
    StampIsDateAndClock(a);
    StampIsDateAndClock(b);
    var cut := Shortened(DateNumber(b), DateDigits(b) - DateDigits(a));
    Regroup(Padded(cut, 8), tail, [DASH] + Clock(b));
    ShorterNumberFirst(DateNumber(a), cut, Clock(a), tail, [DASH] + Clock(b));
  }

  lemma Regroup(a: seq<Byte>, b: seq<Byte>, c: seq<Byte>)
    ensures (a + b) + c == a + (b + c)
  {
  }

  /** A number ended by a dash, against one of as many digits that goes on with more of them. */
  lemma {:induction false} ShorterNumberFirst(m: nat, n: nat, rest: seq<Byte>, more: seq<Byte>, rest': seq<Byte>)
    requires |Padded(m, 8)| == |Padded(n, 8)| && more != [] && AllDigits(more)
    ensures var text, text' := Padded(m, 8) + ([DASH] + rest), Padded(n, 8) + (more + rest');
            && (Before(text, text') <==> m <= n)
            && (!Before(text, text') ==> Before(text', text))
  {
    var length := |Padded(m, 8)|;
    PaddedToItsLength(m, 8);
    PaddedToItsLength(n, 8);
    PieceOrder(m, n, length, [DASH] + rest, more + rest');
    PieceOrder(n, m, length, more + rest', [DASH] + rest);
    assert (more + rest')[0] == more[0] > DASH;
  }

  lemma {:induction false} MoreDigitsMoreMillis(a: Utc, b: Utc)
    requires InstantFields(a) && InstantFields(b) && DateDigits(a) < DateDigits(b)
    ensures Millis(a) < Millis(b)
  {
    PaddedToItsLength(DateNumber(a), 8);
    PaddedToItsLength(DateNumber(b), 8);
    Pow10Grows(DateDigits(a), DateDigits(b) - 1);
    FieldsOrderedAsMillis(a, b);
  }

  /** Two milliseconds never share a name. */
  lemma {:induction false} FileStampsAreDistinct(a: nat, b: nat)
    ensures FileStamp(a) == FileStamp(b) <==> a / NANOS_PER_MILLI == b / NANOS_PER_MILLI
  {
    AtIsTheInstant(a);
    AtIsTheInstant(b);
    FieldsOrderedAsMillis(At(a), At(b));
    NotBeforeItself(FileStamp(a));
    if DateDigits(At(a)) == DateDigits(At(b)) {
      EqualLengthsSort(At(a), At(b));
      EqualLengthsSort(At(b), At(a));
    } else if DateDigits(At(a)) < DateDigits(At(b)) {
      ShorterDateFirst(At(a), At(b));
      MoreDigitsMoreMillis(At(a), At(b));
    } else {
      ShorterDateFirst(At(b), At(a));
      MoreDigitsMoreMillis(At(b), At(a));
    }
  }

  /** Log files sort into the order their instants happened for as long as years have equally many digits. */
  lemma FileStampsSortByTime(a: nat, b: nat)
    ensures DateDigits(At(a)) == DateDigits(At(b)) ==>
              (Before(FileStamp(a), FileStamp(b)) <==> a / NANOS_PER_MILLI < b / NANOS_PER_MILLI)
  {
    AtIsTheInstant(a);
    AtIsTheInstant(b);
    if DateDigits(At(a)) == DateDigits(At(b)) {
      EqualLengthsSort(At(a), At(b));
    }
  }

  /** Which is through the year 9999, to begin with. */
  lemma {:induction false} FourDigitYears(at: Utc)
    requires InstantFields(at)
    ensures DateDigits(at) == 8 <==> at.year <= 9999
  {
    PaddedDigits(DateNumber(at), 8);
    assert Pow10(4) == 10_000 && Pow10(8) == 10_000 * Pow10(4);
  }

  /** The shorter date, as a number, is more than the longer one cut to its length: 2000-01-01 against 10000-01-01,
      say, but not 1999-12-31 against 20000-01-01. */
  predicate IsMisplaced(at: Utc, later: Utc) {
    && DateDigits(at) < DateDigits(later)
    && DateNumber(at) > Shortened(DateNumber(later), DateDigits(later) - DateDigits(at))
  }

  /** Of any two instants, the later sorts before the earlier exactly when that is so. */
  lemma {:induction false} FileStampsStopSorting(older: nat, newer: nat)
    requires older / NANOS_PER_MILLI < newer / NANOS_PER_MILLI
    ensures Before(FileStamp(newer), FileStamp(older)) <==> IsMisplaced(At(older), At(newer))
    ensures Before(FileStamp(older), FileStamp(newer)) <==> !IsMisplaced(At(older), At(newer))
  {
    AtIsTheInstant(older);
    AtIsTheInstant(newer);
    TextsStopSorting(At(older), At(newer));
  }

  lemma {:induction false} TextsStopSorting(a: Utc, b: Utc)
    requires InstantFields(a) && InstantFields(b) && Millis(a) < Millis(b)
    ensures Before(FileText(b), FileText(a)) <==> IsMisplaced(a, b)
    ensures Before(FileText(a), FileText(b)) <==> !IsMisplaced(a, b)
  {
    NotBeforeEither(FileText(a), FileText(b));
    if DateDigits(a) == DateDigits(b) {
      EqualLengthsSort(a, b);
    } else if DateDigits(a) < DateDigits(b) {
      ShorterDateFirst(a, b);
    } else {
      MoreDigitsMoreMillis(b, a);
    }
  }

  lemma {:induction false} NotBeforeEither(a: seq<Byte>, b: seq<Byte>)
    ensures !(Before(a, b) && Before(b, a))
  {
    if a != [] && b != [] {
      NotBeforeEither(a[1..], b[1..]);
    }
  }

  /** Through the year 9999 a file is named after its stamp's own digits: the date, a dash, the time, and a dash before
      the milliseconds. */
  lemma {:induction false} FileStampIsTheStamps(now: nat)
    requires At(now).year <= 9999
    ensures var stamp := Timestamp.Timestamp(now);
            && |stamp| == 24
            && FileStamp(now) == stamp[0..4] + stamp[5..7] + stamp[8..10] + [DASH] +
                                 stamp[11..13] + stamp[14..16] + stamp[17..19] + [DASH] + stamp[20..23]
  {
    var at := At(now);
    AtIsTheInstant(now);
    assert Pow10(1) == 10 && Pow10(2) == 100 && Pow10(3) == 1_000 && Pow10(4) == 10_000;
    PaddedDigits(at.year, 4);
    PaddedDigits(at.month, 2);
    PaddedDigits(at.day, 2);
    PaddedDigits(at.hour, 2);
    PaddedDigits(at.minute, 2);
    PaddedDigits(at.second, 2);
    PaddedDigits(at.millisecond, 3);
    StampPieces(Padded(at.year, 4), Padded(at.month, 2), Padded(at.day, 2), Padded(at.hour, 2), Padded(at.minute, 2),
                Padded(at.second, 2), Padded(at.millisecond, 3));
    FilePieces(Padded(at.year, 4), Padded(at.month, 2), Padded(at.day, 2), Padded(at.hour, 2), Padded(at.minute, 2),
               Padded(at.second, 2), Padded(at.millisecond, 3));
  }

  lemma FilePieces(y: seq<Byte>, m: seq<Byte>, d: seq<Byte>, h: seq<Byte>, n: seq<Byte>, s: seq<Byte>, k: seq<Byte>)
    ensures y + (m + (d + ([DASH] + (h + (n + (s + ([DASH] + k))))))) == y + m + d + [DASH] + h + n + s + [DASH] + k
  {
    assert h + (n + (s + ([DASH] + k))) == h + n + s + [DASH] + k;
    assert y + (m + (d + ([DASH] + (h + n + s + [DASH] + k)))) == y + m + d + [DASH] + (h + n + s + [DASH] + k);
    var front := y + m + d + [DASH];
    assert front + (h + n + s + [DASH] + k) == front + h + n + s + [DASH] + k;
  }
}
