/**
 * The calendar arithmetic the source borrows from Python's `datetime.date`:
 * the proleptic Gregorian calendar, the day ordinal (0001-01-01 is day 1),
 * the weekday (Monday is 0), `date ± timedelta(days=n)` with its range
 * check, the `date(y, m, d)` constructor's field checks, and the
 * `YYYY-MM-DD` text form (RFC 3339 section 5.6 `full-date`) written by
 * `isoformat()` and read back by `fromisoformat()`.
 */
module Calendar {
  import opened Wrappers
  import opened Decimal

  // Python's `date` holds the years 1 (MINYEAR) to 9999 (MAXYEAR), that is the
  // ordinals 1 (0001-01-01) to 3652059 (9999-12-31). The bounds are written as
  // literals so that the verifier can evaluate the calendar at them.

  datatype Date = Date(year: int, month: int, day: int)

  /** Why `date(...)` (a ValueError) or `date ± timedelta` (an OverflowError) refuses. */
  datatype DateError = YearOutOfRange | MonthOutOfRange | DayOutOfRange | Overflow

  predicate IsLeapYear(y: int) {
    y % 4 == 0 && (y % 100 != 0 || y % 400 == 0)
  }

  function DaysInYear(y: int): int {
    if IsLeapYear(y) then 366 else 365
  }

  function DaysInMonth(y: int, m: int): (n: int)
    requires 1 <= m <= 12
    ensures 28 <= n <= 31
  {
    if m == 2 then (if IsLeapYear(y) then 29 else 28)
    else if m == 4 || m == 6 || m == 9 || m == 11 then 30
    else 31
  }

  /** A real calendar day, in any year. */
  predicate IsValid(d: Date) {
    1 <= d.month <= 12 && 1 <= d.day <= DaysInMonth(d.year, d.month)
  }

  /** A day a Python `date` can hold. */
  predicate InRange(d: Date) {
    IsValid(d) && 1 <= d.year <= 9999
  }

  function DaysBeforeYear(y: int): int {
    var p := y - 1;
    p * 365 + p / 4 - p / 100 + p / 400
  }

  function DaysBeforeMonth(y: int, m: int): int
    requires 1 <= m <= 12
  {
    (match m
     case 1 => 0 case 2 => 31 case 3 => 59 case 4 => 90 case 5 => 120 case 6 => 151
     case 7 => 181 case 8 => 212 case 9 => 243 case 10 => 273 case 11 => 304 case _ => 334)
    + (if m > 2 && IsLeapYear(y) then 1 else 0)
  }

  /** `date.toordinal()`: the number of the day, counting 0001-01-01 as day 1. */
  function Ordinal(d: Date): int
    requires IsValid(d)
  {
    DaysBeforeYear(d.year) + DaysBeforeMonth(d.year, d.month) + d.day
  }

  /** `date.weekday()`: Monday is 0 and Sunday is 6. */
  function Weekday(d: Date): (w: int)
    requires IsValid(d)
    ensures 0 <= w < 7
  {
    (Ordinal(d) + 6) % 7
  }

  /** Lexicographic order on (year, month, day), the order in which Python compares dates. */
  predicate Before(a: Date, b: Date) {
    a.year < b.year || (a.year == b.year && (a.month < b.month || (a.month == b.month && a.day < b.day)))
  }

  predicate LessEq(a: Date, b: Date) {
    a == b || Before(a, b)
  }

  lemma DaysBeforeYearStep(y: int)
    ensures DaysBeforeYear(y + 1) == DaysBeforeYear(y) + DaysInYear(y)
  {
    StepOver4(y);
    StepOver100(y);
    StepOver400(y);
    LeapDivisors(y);
    var p := y - 1;
    assert DaysBeforeYear(y + 1) - DaysBeforeYear(y)
      == 365 + (y / 4 - p / 4) - (y / 100 - p / 100) + (y / 400 - p / 400);
  }

  /** A multiple of 400 is a multiple of 100, which is a multiple of 4. */
  lemma LeapDivisors(y: int)
    ensures y % 400 == 0 ==> y % 100 == 0
    ensures y % 100 == 0 ==> y % 4 == 0
  {
    var q400, q100 := y / 400, y / 100;
    if y % 400 == 0 {
      assert y / 100 == 4 * q400;
    }
    if y % 100 == 0 {
      assert y / 4 == 25 * q100;
    }
  }

  lemma StepOver4(y: int)
    ensures y / 4 - (y - 1) / 4 == if y % 4 == 0 then 1 else 0
  {
  }

  lemma StepOver100(y: int)
    ensures y / 100 - (y - 1) / 100 == if y % 100 == 0 then 1 else 0
  {
  }

  lemma StepOver400(y: int)
    ensures y / 400 - (y - 1) / 400 == if y % 400 == 0 then 1 else 0
  {
  }

  lemma {:induction false} DaysBeforeYearMonotone(a: int, b: int)
    requires a <= b
    ensures DaysBeforeYear(a) <= DaysBeforeYear(b)
    decreases b - a
  {
    if a < b {
      DaysBeforeYearStep(a);
      DaysBeforeYearMonotone(a + 1, b);
    }
  }

  /** The ordinal of a day lies inside its own year's block of ordinals. */
  lemma OrdinalWithinYear(d: Date)
    requires IsValid(d)
    ensures DaysBeforeYear(d.year) < Ordinal(d) <= DaysBeforeYear(d.year + 1)
  {
    DaysBeforeYearStep(d.year);
  }

  lemma MonthOrder(y: int, m1: int, d1: int, m2: int, d2: int)
    requires 1 <= m1 < m2 <= 12
    requires 1 <= d1 <= DaysInMonth(y, m1) && 1 <= d2
    ensures DaysBeforeMonth(y, m1) + d1 < DaysBeforeMonth(y, m2) + d2
  {
  }

  /** A later day has a larger ordinal. */
  lemma OrdinalMonotone(a: Date, b: Date)
    requires IsValid(a) && IsValid(b) && Before(a, b)
    ensures Ordinal(a) < Ordinal(b)
  {
    OrdinalWithinYear(a);
    OrdinalWithinYear(b);
    if a.year < b.year {
      DaysBeforeYearMonotone(a.year + 1, b.year);
    } else if a.month < b.month {
      MonthOrder(a.year, a.month, a.day, b.month, b.day);
    }
  }

  /** The ordinal numbers days in calendar order: comparing ordinals is comparing dates. */
  lemma OrdinalOrder(a: Date, b: Date)
    requires IsValid(a) && IsValid(b)
    ensures Before(a, b) <==> Ordinal(a) < Ordinal(b)
    ensures LessEq(a, b) <==> Ordinal(a) <= Ordinal(b)
  {
    if Before(a, b) {
      OrdinalMonotone(a, b);
    } else if a != b {
      assert Before(b, a);
      OrdinalMonotone(b, a);
    }
  }

  lemma OrdinalInjective(a: Date, b: Date)
    requires IsValid(a) && IsValid(b) && Ordinal(a) == Ordinal(b)
    ensures a == b
  {
    if Before(a, b) {
      OrdinalMonotone(a, b);
    } else if Before(b, a) {
      OrdinalMonotone(b, a);
    }
  }

  lemma OrdinalOfLast()
    ensures Ordinal(Date(9999, 12, 31)) == 3652059
  {
  }

  lemma OrdinalBelowRange(d: Date)
    requires IsValid(d) && d.year < 1
    ensures Ordinal(d) < 1
  {
    OrdinalMonotone(d, Date(1, 1, 1));
    assert Ordinal(Date(1, 1, 1)) == 1;
  }

  lemma OrdinalAboveRange(d: Date)
    requires IsValid(d) && d.year > 9999
    ensures Ordinal(d) > 3652059
  {
    OrdinalMonotone(Date(9999, 12, 31), d);
    OrdinalOfLast();
  }

  lemma OrdinalAtLeastOne(d: Date)
    requires IsValid(d) && d.year >= 1
    ensures Ordinal(d) >= 1
  {
    var p := d.year - 1;
    assert p / 4 - p / 100 >= 0;
    assert DaysBeforeYear(d.year) >= 0;
  }

  lemma OrdinalAtMostMax(d: Date)
    requires IsValid(d) && d.year <= 9999
    ensures Ordinal(d) <= 3652059
  {
    OrdinalOfLast();
    if d != Date(9999, 12, 31) {
      OrdinalMonotone(d, Date(9999, 12, 31));
    }
  }

  /** The days Python can represent are exactly those with ordinals 1 through 3652059. */
  lemma OrdinalInRange(d: Date)
    requires IsValid(d)
    ensures InRange(d) <==> 1 <= Ordinal(d) <= 3652059
  {
    if d.year < 1 {
      OrdinalBelowRange(d);
    } else if d.year > 9999 {
      OrdinalAboveRange(d);
    } else {
      OrdinalAtLeastOne(d);
      OrdinalAtMostMax(d);
    }
  }

  /** 0001-01-01 is day 1 and a Monday, so no week of representable days starts before it. */
  lemma FirstDayIsMonday(d: Date)
    requires d.year == 1 && d.month == 1 && d.day == 1
    ensures IsValid(d) && Ordinal(d) == 1 && Weekday(d) == 0
  {
    assert DaysBeforeYear(d.year) == 0;
    WeekdayAfterMonday(1, 0);
  }

  /** Counting `k < 7` days on from a Monday lands on weekday `k`. */
  lemma WeekdayAfterMonday(o: int, k: int)
    requires (o + 6) % 7 == 0 && 0 <= k < 7
    ensures (o + k + 6) % 7 == k
  {
  }

  /** The day `k < 7` days after a Monday with ordinal `o` is weekday `k`. */
  lemma WeekdayOfOrdinal(d: Date, o: int, k: int)
    requires IsValid(d) && Ordinal(d) == o + k
    requires (o + 6) % 7 == 0 && 0 <= k < 7
    ensures Weekday(d) == k
  {
    var n := Ordinal(d);
    assert (n + 6) % 7 == k by {
      WeekdayAfterMonday(o, k);
    }
  }

  function NextDay(d: Date): (r: Date)
    requires IsValid(d)
    ensures IsValid(r) && Ordinal(r) == Ordinal(d) + 1
  {
    DaysBeforeYearStep(d.year);
    if d.day < DaysInMonth(d.year, d.month) then Date(d.year, d.month, d.day + 1)
    else if d.month < 12 then Date(d.year, d.month + 1, 1)
    else Date(d.year + 1, 1, 1)
  }

  function PrevDay(d: Date): (r: Date)
    requires IsValid(d)
    ensures IsValid(r) && Ordinal(r) == Ordinal(d) - 1
  {
    DaysBeforeYearStep(d.year - 1);
    if d.day > 1 then Date(d.year, d.month, d.day - 1)
    else if d.month > 1 then Date(d.year, d.month - 1, DaysInMonth(d.year, d.month - 1))
    else Date(d.year - 1, 12, 31)
  }

  /** The day `n` days after `d` (before it when `n` is negative). */
  function AddDays(d: Date, n: int): (r: Date)
    requires IsValid(d)
    ensures IsValid(r) && Ordinal(r) == Ordinal(d) + n
    decreases if n < 0 then -n else n
  {
    if n == 0 then d
    else if n > 0 then AddDays(NextDay(d), n - 1)
    else AddDays(PrevDay(d), n + 1)
  }

  /**
   * `d + timedelta(days=n)`: the day whose ordinal is `Ordinal(d) + n`, or an
   * OverflowError when that ordinal falls outside 1..3652059.
   */
  function Shift(d: Date, n: int): (r: Result<Date, DateError>)
    requires InRange(d)
    ensures r.Ok? <==> 1 <= Ordinal(d) + n <= 3652059
    ensures r.Ok? ==> InRange(r.value) && Ordinal(r.value) == Ordinal(d) + n
    ensures r.Err? ==> r.error == Overflow
  {
    var o := Ordinal(d) + n;
    if 0 < o <= 3652059 then
      var e := AddDays(d, n);
      OrdinalInRange(e);
      Ok(e)
    else Err(Overflow)
  }

  /** The `date(y, m, d)` constructor: checks year, then month, then day, as Python does. */
  function MakeDate(y: int, m: int, d: int): (r: Result<Date, DateError>)
    ensures r.Ok? <==> InRange(Date(y, m, d))
    ensures r.Ok? ==> r.value == Date(y, m, d)
  {
    if !(1 <= y <= 9999) then Err(YearOutOfRange)
    else if !(1 <= m <= 12) then Err(MonthOutOfRange)
    else if !(1 <= d <= DaysInMonth(y, m)) then Err(DayOutOfRange)
    else Ok(Date(y, m, d))
  }

  /** `date.isoformat()`: `YYYY-MM-DD`, each field zero-padded. */
  function Iso(d: Date): (s: string)
    requires InRange(d)
    ensures |s| == 10 && s[4] == '-' && s[7] == '-'
    ensures forall i :: 0 <= i < |s| ==> s[i] == '-' || IsDigit(s[i])
  {
    Padded(d.year, 4) + "-" + Padded(d.month, 2) + "-" + Padded(d.day, 2)
  }

  /**
   * `date.fromisoformat(s)`: exactly ten characters `YYYY-MM-DD` of ASCII
   * digits and two hyphens, naming a day Python can hold; anything else is
   * a ValueError, here `None`.
   */
  function ParseIsoDate(s: string): (r: Option<Date>)
    ensures r.Some? ==> InRange(r.value)
  {
    if |s| == 10 && s[4] == '-' && s[7] == '-'
       && AllDigits(s[..4]) && AllDigits(s[5..7]) && AllDigits(s[8..])
    then
      match MakeDate(ValueOf(s[..4]), ValueOf(s[5..7]), ValueOf(s[8..]))
      case Ok(d) => Some(d)
      case Err(_) => None
    else None
  }

  /** Reading back what `isoformat()` wrote gives the same day. */
  lemma IsoRoundTrip(d: Date)
    requires InRange(d)
    ensures ParseIsoDate(Iso(d)) == Some(d)
  {
    var s := Iso(d);
    assert s[..4] == Padded(d.year, 4);
    assert s[5..7] == Padded(d.month, 2);
    assert s[8..] == Padded(d.day, 2);
    ValueOfPadded(d.year, 4);
    ValueOfPadded(d.month, 2);
    ValueOfPadded(d.day, 2);
  }

  /** Distinct days have distinct `isoformat()` texts. */
  lemma IsoInjective(a: Date, b: Date)
    requires InRange(a) && InRange(b) && Iso(a) == Iso(b)
    ensures a == b
  {
    IsoRoundTrip(a);
    IsoRoundTrip(b);
  }

  /** Every text `fromisoformat` accepts is the `isoformat()` of the day it yields. */
  lemma IsoCanonical(s: string, d: Date)
    requires ParseIsoDate(s) == Some(d)
    ensures Iso(d) == s
  {
    assert |s| == 10 && s[4] == '-' && s[7] == '-';
    var y, m, dd := s[..4], s[5..7], s[8..];
    assert AllDigits(y) && AllDigits(m) && AllDigits(dd);
    assert d == Date(ValueOf(y), ValueOf(m), ValueOf(dd));
    PaddedValueOf(y);
    PaddedValueOf(m);
    PaddedValueOf(dd);
    assert Iso(d) == y + "-" + m + "-" + dd;
    assert s == y + "-" + m + "-" + dd;
  }
}
