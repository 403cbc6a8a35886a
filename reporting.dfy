/**
 * The period-reporting engine: maps a period label and a reference day to
 * an inclusive range of days, sums the income and expense transactions of
 * a farm over that range, and renders a five-line text report with
 * Colombian-peso amounts.
 */
module Reporting {
  import opened Wrappers
  import opened Decimal
  import opened Calendar
  import opened Text
  import opened Models

  /** An inclusive range of days. */
  datatype DateRange = DateRange(start: Date, end: Date)

  datatype PeriodKind = Weekly | Monthly | Quarterly | Yearly

  datatype ReportError =
    | UnsupportedPeriod(message: string)
    | DateOutOfRange(cause: DateError)

  const UnsupportedPeriodMessage: string := "Periodo no soportado. Usa: semanal | mensual | quarter | año"

  predicate Within(d: Date, dr: DateRange) {
    LessEq(dr.start, d) && LessEq(d, dr.end)
  }

  // ---------------------------------------------------------------- ranges

  /** The Monday of `d`'s week has ordinal `Ordinal(d) - Weekday(d)`; it is never before 0001-01-01. */
  lemma WeekStartOrdinal(d: Date)
    requires InRange(d)
    ensures var o := Ordinal(d) - Weekday(d);
      1 <= o <= Ordinal(d) <= o + 6 && (o + 6) % 7 == 0
  {
    OrdinalInRange(d);
    MondayBefore(Ordinal(d));
  }

  /** Stepping back `(n + 6) % 7` days from day `n >= 1` lands on a Monday, day 1 or later. */
  lemma MondayBefore(n: int)
    requires n >= 1
    ensures var o := n - (n + 6) % 7;
      1 <= o <= n <= o + 6 && (o + 6) % 7 == 0
  {
  }

  /** A week after a Monday is a Monday. */
  lemma NextMonday(o: int)
    requires (o + 6) % 7 == 0
    ensures (o + 7 + 6) % 7 == 0
  {
  }

  /** Monday to Sunday of the week holding `d`. */
  function WeekRange(d: Date): (r: Result<DateRange, DateError>)
    requires InRange(d)
    ensures r.Ok? <==> Ordinal(d) - Weekday(d) + 6 <= 3652059
    ensures r.Err? ==> r.error == Overflow
    ensures r.Ok? ==> InRange(r.value.start) && InRange(r.value.end)
    ensures r.Ok? ==> Ordinal(r.value.start) == Ordinal(d) - Weekday(d)
    ensures r.Ok? ==> Weekday(r.value.start) == 0 && Ordinal(r.value.end) == Ordinal(r.value.start) + 6
    ensures r.Ok? ==> Within(d, r.value)
  {
    WeekStartOrdinal(d);
    match Shift(d, -Weekday(d))
    case Err(e) => Err(e)
    case Ok(start) =>
      WeekdayOfOrdinal(start, Ordinal(start), 0);
      match Shift(start, 6)
      case Err(e) => Err(e)
      case Ok(end) =>
        OrdinalOrder(start, d);
        OrdinalOrder(d, end);
        Ok(DateRange(start, end))
  }

  /** The last day of month `m` of year `y` is the day before the first of the next month. */
  lemma LastDayOfMonth(y: int, m: int)
    requires 1 <= m <= 12
    ensures var last := Date(y, m, DaysInMonth(y, m));
      IsValid(last) && NextDay(last) == (if m == 12 then Date(y + 1, 1, 1) else Date(y, m + 1, 1))
  {
  }

  /** `nextStart - timedelta(days=1)` is the last day of the month before `nextStart`. */
  lemma DayBeforeFirst(y: int, m: int, nextStart: Date, end: Date)
    requires 1 <= m <= 12
    requires nextStart == (if m == 12 then Date(y + 1, 1, 1) else Date(y, m + 1, 1))
    requires IsValid(nextStart) && IsValid(end) && Ordinal(end) == Ordinal(nextStart) - 1
    ensures end == Date(y, m, DaysInMonth(y, m))
  {
    var last := Date(y, m, DaysInMonth(y, m));
    LastDayOfMonth(y, m);
    OrdinalInjective(end, last);
  }

  /** A day after 0001-01-01 has an ordinal of at least 2, so the day before it exists. */
  lemma AfterFirstDay(x: Date)
    requires IsValid(x) && (x.year > 1 || (x.year == 1 && x.month > 1))
    ensures Ordinal(x) >= 2
  {
    var origin := Date(1, 1, 1);
    assert Before(origin, x);
    OrdinalMonotone(origin, x);
    assert Ordinal(origin) == 1;
  }

  /**
   * The last day of the month before the first day `next` of a month, as
   * `next - timedelta(days=1)` computes it after `date(...)` has built `next`.
   */
  function EndBefore(y: int, m: int, next: Date): (r: Result<Date, DateError>)
    requires 1 <= y && 1 <= m <= 12
    requires next == (if m == 12 then Date(y + 1, 1, 1) else Date(y, m + 1, 1))
    ensures r.Err? <==> !(1 <= next.year <= 9999)
    ensures r.Err? ==> r.error == YearOutOfRange
    ensures r.Ok? ==> r.value == Date(y, m, DaysInMonth(y, m))
  {
    match MakeDate(next.year, next.month, next.day)
    case Err(e) => Err(e)
    case Ok(first) =>
      AfterFirstDay(first);
      match Shift(first, -1)
      case Err(e) => Err(e)
      case Ok(end) =>
        DayBeforeFirst(y, m, first, end);
        Ok(end)
  }

  /** The first to the last day of `d`'s month. */
  function MonthRange(d: Date): (r: Result<DateRange, DateError>)
    requires InRange(d)
    ensures r.Err? <==> d.year == 9999 && d.month == 12
    ensures r.Err? ==> r.error == YearOutOfRange
    ensures r.Ok? ==> r.value.start == Date(d.year, d.month, 1)
    ensures r.Ok? ==> r.value.end == Date(d.year, d.month, DaysInMonth(d.year, d.month))
  {
    var start := Date(d.year, d.month, 1);
    var nextStart := if d.month == 12 then Date(d.year + 1, 1, 1) else Date(d.year, d.month + 1, 1);
    match EndBefore(d.year, d.month, nextStart)
    case Err(e) => Err(e)
    case Ok(end) => Ok(DateRange(start, end))
  }

  /** The fixed calendar quarter (months 1-3, 4-6, 7-9 or 10-12) holding `d`. */
  function QuarterRange(d: Date): (r: Result<DateRange, DateError>)
    requires InRange(d)
    ensures r.Err? <==> d.year == 9999 && d.month >= 10
    ensures r.Err? ==> r.error == YearOutOfRange
    ensures r.Ok? ==> var m := r.value.start.month;
      (m == 1 || m == 4 || m == 7 || m == 10) && m <= d.month <= m + 2
      && r.value.start == Date(d.year, m, 1)
      && r.value.end == Date(d.year, m + 2, DaysInMonth(d.year, m + 2))
  {
    var q := (d.month - 1) / 3;
    var startMonth := 3 * q + 1;
    // `date(d.year, start_month, 1)` cannot fail: the year is d's and the month is 1, 4, 7 or 10.
    var start := Date(d.year, startMonth, 1);
    var nm := startMonth + 3;
    var nextStart := if nm > 12 then Date(d.year + 1, nm - 12, 1) else Date(d.year, nm, 1);
    match EndBefore(d.year, startMonth + 2, nextStart)
    case Err(e) => Err(e)
    case Ok(end) => Ok(DateRange(start, end))
  }

  /** January 1 to December 31 of `d`'s year. */
  function YearRange(d: Date): (r: DateRange)
    requires InRange(d)
    ensures InRange(r.start) && InRange(r.end) && Within(d, r)
    ensures r.start.year == r.end.year == d.year
    ensures NextDay(r.end) == Date(d.year + 1, 1, 1)
    ensures r.start == Date(d.year, 1, 1) && r.end == Date(d.year, 12, 31)
  {
    DateRange(Date(d.year, 1, 1), Date(d.year, 12, 31))
  }

  function RangeOf(kind: PeriodKind, d: Date): Result<DateRange, DateError>
    requires InRange(d)
  {
    match kind
    case Weekly => WeekRange(d)
    case Monthly => MonthRange(d)
    case Quarterly => QuarterRange(d)
    case Yearly => Ok(YearRange(d))
  }

  /** Every range holds its reference day, and both its ends are days Python can hold. */
  lemma RangeHoldsReference(kind: PeriodKind, d: Date)
    requires InRange(d) && RangeOf(kind, d).Ok?
    ensures var dr := RangeOf(kind, d).value;
      InRange(dr.start) && InRange(dr.end) && Within(d, dr)
  {
  }

  /** A day in the last week of 9999 or later that Python can still hold is in year 9999. */
  lemma LateDayInLastYear(x: Date)
    requires InRange(x) && Ordinal(x) > 3652059 - 7
    ensures x.year == 9999
  {
    var jan1 := Date(9999, 1, 1);
    assert Ordinal(jan1) == 3651695 by {
      assert DaysBeforeYear(9999) == 3651694;
    }
    OrdinalOrder(x, jan1);
  }

  lemma {:induction false} WeekAfterWeek(d: Date)
    requires InRange(d) && WeekRange(d).Ok?
    ensures var next := NextDay(WeekRange(d).value.end);
      (InRange(next) && WeekRange(next).Ok? ==> WeekRange(next).value.start == next)
      && (InRange(next) && WeekRange(next).Err? ==> next.year == 9999)
  {
    var dr := WeekRange(d).value;
    var next := NextDay(dr.end);
    var o := Ordinal(dr.start);
    assert Ordinal(next) == o + 7;
    NextMonday(o);
    WeekdayOfOrdinal(next, o + 7, 0);
    if InRange(next) {
      if WeekRange(next).Ok? {
        OrdinalInjective(WeekRange(next).value.start, next);
      } else {
        LateDayInLastYear(next);
      }
    }
  }

  /**
   * Periods tile the calendar: the day after a range's end starts a range of
   * the same kind, unless that day lies in the last period Python can hold.
   */
  lemma {:induction false} NextRangeStartsAfterEnd(kind: PeriodKind, d: Date)
    requires InRange(d) && RangeOf(kind, d).Ok?
    ensures var dr := RangeOf(kind, d).value;
      var next := NextDay(dr.end);
      Ordinal(next) == Ordinal(dr.end) + 1
      && (InRange(next) && RangeOf(kind, next).Ok? ==> RangeOf(kind, next).value.start == next)
      && (InRange(next) && RangeOf(kind, next).Err? ==> next.year == 9999)
  {
    var dr := RangeOf(kind, d).value;
    match kind
    case Weekly =>
      WeekAfterWeek(d);
    case Monthly =>
      LastDayOfMonth(d.year, d.month);
    case Quarterly =>
      LastDayOfMonth(d.year, dr.start.month + 2);
    case Yearly =>
  }

  /** A day of a Monday-to-Sunday week is as many weekdays past Monday as days past its start. */
  lemma WeekdayInWeek(start: Date, end: Date, x: Date)
    requires IsValid(start) && IsValid(end) && IsValid(x)
    requires Weekday(start) == 0 && Ordinal(end) == Ordinal(start) + 6
    requires LessEq(start, x) && LessEq(x, end)
    ensures Weekday(x) == Ordinal(x) - Ordinal(start)
  {
    OrdinalOrder(start, x);
    OrdinalOrder(x, end);
    var o := Ordinal(start);
    assert (o + 6) % 7 == 0;
    WeekdayOfOrdinal(x, o, Ordinal(x) - o);
  }

  lemma {:induction false} WeekIsStable(d: Date, x: Date)
    requires InRange(d) && WeekRange(d).Ok?
    requires IsValid(x) && Within(x, WeekRange(d).value)
    ensures InRange(x) && WeekRange(x) == WeekRange(d)
  {
    var dr := WeekRange(d).value;
    var o := Ordinal(dr.start);
    OrdinalOrder(dr.start, x);
    OrdinalOrder(x, dr.end);
    OrdinalInRange(dr.start);
    OrdinalInRange(dr.end);
    OrdinalInRange(x);
    WeekdayInWeek(dr.start, dr.end, x);
    var rx := WeekRange(x).value;
    OrdinalInjective(rx.start, dr.start);
    OrdinalInjective(rx.end, dr.end);
  }

  /** Every day of a range resolves to that same range. */
  lemma {:induction false} RangeIsStable(kind: PeriodKind, d: Date, x: Date)
    requires InRange(d) && RangeOf(kind, d).Ok?
    requires IsValid(x) && Within(x, RangeOf(kind, d).value)
    ensures InRange(x) && RangeOf(kind, x) == RangeOf(kind, d)
  {
    if kind == Weekly {
      WeekIsStable(d, x);
    }
  }

  /** 2024-05-15 is a Wednesday: its week runs from Monday 2024-05-13 to Sunday 2024-05-19. */
  lemma WeekExample(d: Date)
    requires d.year == 2024 && d.month == 5 && d.day == 15
    ensures WeekRange(d) == Ok(DateRange(Date(2024, 5, 13), Date(2024, 5, 19)))
  {
    var monday := Date(d.year, d.month, d.day - 2);
    var sunday := Date(d.year, d.month, d.day + 4);
    assert DaysBeforeYear(d.year) == 738885;
    assert Ordinal(d) == 739021;
    WeekdayOfOrdinal(d, 739019, 2);
    var dr := WeekRange(d).value;
    assert Ordinal(monday) == 739019 && Ordinal(sunday) == 739025;
    OrdinalInjective(dr.start, monday);
    OrdinalInjective(dr.end, sunday);
  }

  /** December rolls over into the next year without trouble. */
  lemma MonthExample()
    ensures MonthRange(Date(2024, 12, 10)) == Ok(DateRange(Date(2024, 12, 1), Date(2024, 12, 31)))
  {
  }

  lemma QuarterExamples()
    ensures QuarterRange(Date(2024, 5, 15)) == Ok(DateRange(Date(2024, 4, 1), Date(2024, 6, 30)))
    ensures QuarterRange(Date(2023, 12, 31)) == Ok(DateRange(Date(2023, 10, 1), Date(2023, 12, 31)))
    ensures QuarterRange(Date(2024, 11, 1)) == Ok(DateRange(Date(2024, 10, 1), Date(2024, 12, 31)))
  {
  }

  // ------------------------------------------------------------ vocabulary

  /** The synonym table shared by `get_range` and `_title`, matched on the lowered label. */
  function PeriodOf(name: string): (k: Option<PeriodKind>)
  {
    var p := Lower(name);
    if p in ["semana", "semanal", "weekly", "week"] then Some(Weekly)
    else if p in ["mes", "mensual", "monthly", "month"] then Some(Monthly)
    else if p in ["trimestre", "trimestral", "quarter"] then Some(Quarterly)
    else if p in ["año", "anual", "year", "anio"] then Some(Yearly)
    else None
  }

  /** Labels are matched case-insensitively, Spanish and English spellings alike. */
  lemma PeriodOfIgnoresCase(name: string)
    ensures PeriodOf(name) == PeriodOf(Lower(name))
    ensures PeriodOf("SEMANAL") == Some(Weekly) && PeriodOf("Month") == Some(Monthly)
    ensures PeriodOf("Quarter") == Some(Quarterly) && PeriodOf("AÑO") == Some(Yearly)
    ensures PeriodOf("decada") == None
  {
    LowerIdempotent(name);
    assert Lower("SEMANAL") == "semanal";
    assert Lower("Month") == "month";
    assert Lower("Quarter") == "quarter";
    assert Lower("AÑO") == "año";
    assert Lower("decada") == "decada";
  }

  /** `get_range`: the range of the labelled period holding `ref`. */
  function GetRange(period: string, ref: Date): (r: Result<DateRange, ReportError>)
    requires InRange(ref)
    ensures PeriodOf(period).None? <==> r == Err(UnsupportedPeriod(UnsupportedPeriodMessage))
    ensures r.Ok? ==> InRange(r.value.start) && InRange(r.value.end) && Within(ref, r.value)
    ensures PeriodOf(period).Some? ==> (r.Ok? <==> RangeOf(PeriodOf(period).value, ref).Ok?)
    ensures r.Ok? ==> r.value == RangeOf(PeriodOf(period).value, ref).value
    ensures r.Err? && PeriodOf(period).Some? ==> r.error == DateOutOfRange(RangeOf(PeriodOf(period).value, ref).error)
  {
    match PeriodOf(period)
    case None => Err(UnsupportedPeriod(UnsupportedPeriodMessage))
    case Some(kind) =>
      match RangeOf(kind, ref)
      case Ok(dr) =>
        RangeHoldsReference(kind, ref);
        Ok(dr)
      case Err(e) => Err(DateOutOfRange(e))
  }

  /** `_title`: the report heading for a label, "Reporte" when the label is not in the table. */
  function Title(period: string): string {
    match PeriodOf(period)
    case Some(Weekly) => "Reporte semanal"
    case Some(Monthly) => "Reporte mensual"
    case Some(Quarterly) => "Reporte trimestral"
    case Some(Yearly) => "Reporte anual"
    case None => "Reporte"
  }

  /** `_title` and `get_range` agree on the table: the plain heading exactly when the label is refused. */
  lemma TitleAgreesWithGetRange(period: string, ref: Date)
    requires InRange(ref)
    ensures Title(period) == "Reporte" <==> GetRange(period, ref) == Err(UnsupportedPeriod(UnsupportedPeriodMessage))
  {
  }

  /** A heading is one line. */
  lemma TitleIsOneLine(period: string)
    ensures '\n' !in Title(period)
  {
  }

  // ------------------------------------------------------------ formatting

  /** Inserts `.` between groups of three digits, counting from the right. */
  function Grouped(s: string): (t: string)
    requires AllDigits(s)
    decreases |s|
  {
    if |s| <= 3 then s else Grouped(s[..|s| - 3]) + "." + s[|s| - 3..]
  }

  /** Drops every `.`. */
  function Ungrouped(t: string): (s: string)
  {
    if t == [] then []
    else (if t[0] == '.' then [] else [t[0]]) + Ungrouped(t[1..])
  }

  lemma UngroupedAppend(a: string, b: string)
    ensures Ungrouped(a + b) == Ungrouped(a) + Ungrouped(b)
  {
    if a != [] {
      var head := if a[0] == '.' then [] else [a[0]];
      assert (a + b)[0] == a[0];
      assert (a + b)[1..] == a[1..] + b;
      calc {
        Ungrouped(a + b);
        head + Ungrouped(a[1..] + b);
        { UngroupedAppend(a[1..], b); }
        head + (Ungrouped(a[1..]) + Ungrouped(b));
      }
    } else {
      assert a + b == b;
    }
  }

  /** Every fourth character from the right is a dot, and only those; the first is a digit. */
  predicate GroupedInThrees(t: string) {
    |t| >= 1 && IsDigit(t[0])
    && forall i :: 0 <= i < |t| ==> (t[i] == '.' <==> (|t| - 1 - i) % 4 == 3) && (t[i] != '.' ==> IsDigit(t[i]))
  }

  lemma UngroupedDigits(s: string)
    requires AllDigits(s)
    ensures Ungrouped(s) == s
  {
    if s != [] {
      UngroupedDigits(s[1..]);
    }
  }

  /** Grouping loses no digit. */
  lemma {:induction false} UngroupedGrouped(s: string)
    requires AllDigits(s)
    ensures Ungrouped(Grouped(s)) == s
    decreases |s|
  {
    if |s| <= 3 {
      UngroupedDigits(s);
    } else {
      var p, q := s[..|s| - 3], s[|s| - 3..];
      UngroupedGrouped(p);
      UngroupedStep(Grouped(p), q, p);
      assert s == p + q;
    }
  }

  /** Removing the dots from grouped digits, a dot and three more digits appends those digits. */
  lemma UngroupedStep(g: string, q: string, p: string)
    requires Ungrouped(g) == p && AllDigits(q)
    ensures Ungrouped(g + "." + q) == p + q
  {
    UngroupedAppend(g + ".", q);
    UngroupedDotAfter(g);
    UngroupedDigits(q);
  }

  /** A trailing dot is dropped. */
  lemma UngroupedDotAfter(g: string)
    ensures Ungrouped(g + ".") == Ungrouped(g)
  {
    UngroupedAppend(g, ".");
    assert Ungrouped(".") == [];
  }

  /** Grouping puts a dot exactly every fourth character from the right, and digits elsewhere. */
  lemma {:induction false} GroupedShape(s: string)
    requires |s| >= 1 && AllDigits(s)
    ensures |Grouped(s)| >= 1 && Grouped(s)[0] == s[0]
    ensures GroupedInThrees(Grouped(s))
    decreases |s|
  {
    if |s| > 3 {
      var p, q := s[..|s| - 3], s[|s| - 3..];
      GroupedShape(p);
      assert Grouped(s) == Grouped(p) + "." + q;
      GroupedAppend(Grouped(p), q);
    }
  }

  /** Three more digits after a dot keep the grouping in threes. */
  lemma GroupedAppend(g: string, q: string)
    requires GroupedInThrees(g) && |q| == 3 && AllDigits(q)
    ensures GroupedInThrees(g + "." + q)
  {
    var t := g + "." + q;
    forall i | 0 <= i < |t|
      ensures (t[i] == '.' <==> (|t| - 1 - i) % 4 == 3) && (t[i] != '.' ==> IsDigit(t[i]))
    {
      if i < |g| {
        assert t[i] == g[i];
        ShiftByFour(|g| - 1 - i);
      } else if i > |g| {
        assert t[i] == q[i - |g| - 1];
      }
    }
  }

  lemma ShiftByFour(x: int)
    ensures (x + 4) % 4 == x % 4
  {
  }

  /** `_format_cop`: `None` as 0, then `-` for a negative amount, the digits of |n| grouped by `.`, and " COP". */
  function FormatCop(n: Option<int>): (s: string)
  {
    var v := n.GetOr(0);
    (if v < 0 then "-" else "") + Grouped(Digits(if v < 0 then -v else v)) + " COP"
  }

  /** Reads back an amount rendered by `FormatCop`. */
  function CopValue(s: string): Option<int>
  {
    if |s| >= 4 && s[|s| - 4..] == " COP" then
      var body := s[..|s| - 4];
      var negative := |body| > 0 && body[0] == '-';
      var digits := Ungrouped(if negative then body[1..] else body);
      if |digits| >= 1 && AllDigits(digits) then
        Some(if negative then -(ValueOf(digits) as int) else ValueOf(digits))
      else None
    else None
  }

  /** Reading back a sign, a grouped body and " COP" gives the signed value of the body's digits. */
  lemma CopValueOfRendering(negative: bool, g: string, digits: string)
    requires |g| >= 1 && g[0] != '-' && Ungrouped(g) == digits && |digits| >= 1 && AllDigits(digits)
    ensures var s := (if negative then "-" else "") + g + " COP";
      s[|s| - 4..] == " COP" && s[..|s| - 4] == (if negative then "-" else "") + g
      && CopValue(s) == Some(if negative then -(ValueOf(digits) as int) else ValueOf(digits))
  {
    var sign := if negative then "-" else "";
    var s := sign + g + " COP";
    assert s[|s| - 4..] == " COP";
    assert s[..|s| - 4] == sign + g;
    if negative {
      assert (sign + g)[1..] == g;
    } else {
      assert sign + g == g;
    }
  }

  /** A sign, dots, digits and " COP" hold no line break. */
  lemma NoNewlineInRendering(sign: string, g: string)
    requires sign == "-" || sign == ""
    requires GroupedInThrees(g)
    ensures '\n' !in sign + g + " COP"
  {
    var s := sign + g + " COP";
    forall i | 0 <= i < |s| ensures s[i] != '\n' {
      if i < |sign| {
        assert s[i] == sign[i];
      } else if i < |sign| + |g| {
        assert s[i] == g[i - |sign|];
      } else {
        assert s[i] == " COP"[i - |sign| - |g|];
      }
    }
  }

  /** After an optional sign, a rendering shows its grouped digits, with a `-` first exactly when negative. */
  lemma RenderingBody(negative: bool, g: string)
    requires GroupedInThrees(g)
    ensures var s := (if negative then "-" else "") + g + " COP";
      var body := s[..|s| - 4];
      |body| >= 1 && (negative <==> body[0] == '-')
      && (if negative then body[1..] else body) == g
      && GroupedInThrees(if negative then body[1..] else body)
  {
    var sign := if negative then "-" else "";
    var s := sign + g + " COP";
    assert s[..|s| - 4] == sign + g;
    if negative {
      assert (sign + g)[1..] == g;
    } else {
      assert sign + g == g;
    }
  }

  /**
   * The rendered amount denotes exactly `n` (0 for `None`), and past an
   * optional leading `-` its digits are grouped in threes from the right.
   */
  lemma FormatCopMeaning(n: Option<int>)
    ensures CopValue(FormatCop(n)) == Some(n.GetOr(0))
    ensures var s := FormatCop(n);
      var body := s[..|s| - 4];
      s[|s| - 4..] == " COP"
      && (n.GetOr(0) < 0 <==> body[0] == '-')
      && GroupedInThrees(if n.GetOr(0) < 0 then body[1..] else body)
    ensures var s := FormatCop(n);
      var body := s[..|s| - 4];
      |body| >= 1
      && Ungrouped(if n.GetOr(0) < 0 then body[1..] else body) == Digits(if n.GetOr(0) < 0 then -n.GetOr(0) else n.GetOr(0))
    ensures '\n' !in FormatCop(n)
  {
    var v := n.GetOr(0);
    var a: nat := if v < 0 then -v else v;
    var digits := Digits(a);
    var g := Grouped(digits);
    GroupedShape(digits);
    UngroupedGrouped(digits);
    ValueOfDigits(a);
    assert FormatCop(n) == (if v < 0 then "-" else "") + g + " COP";
    RenderingMeaning(v < 0, g, digits);
  }

  /** Everything a rendering built from a sign, grouped digits and " COP" shows. */
  lemma RenderingMeaning(negative: bool, g: string, digits: string)
    requires GroupedInThrees(g) && Ungrouped(g) == digits && |digits| >= 1 && AllDigits(digits)
    ensures var s := (if negative then "-" else "") + g + " COP";
      var body := s[..|s| - 4];
      CopValue(s) == Some(if negative then -(ValueOf(digits) as int) else ValueOf(digits))
      && s[|s| - 4..] == " COP" && |body| >= 1 && (negative <==> body[0] == '-')
      && GroupedInThrees(if negative then body[1..] else body)
      && Ungrouped(if negative then body[1..] else body) == digits
      && '\n' !in s
  {
    var sign := if negative then "-" else "";
    CopValueOfRendering(negative, g, digits);
    NoNewlineInRendering(sign, g);
    RenderingBody(negative, g);
  }

  /** 700000 in and 300000 out leaves "Total Ganancias = 400.000 COP". */
  lemma NetLineExample(title: string, dr: DateRange)
    requires InRange(dr.start) && InRange(dr.end)
    ensures ReportLines(title, dr, 700000, 300000)[4] == "Total Ganancias = 400.000 COP"
  {
    FormatHundredsOfThousands();
  }

  lemma FormatCopExamples()
    ensures FormatCop(None) == "0 COP"
    ensures FormatCop(Some(1234567)) == "1.234.567 COP"
    ensures FormatCop(Some(400000)) == "400.000 COP"
    ensures FormatCop(Some(-150000)) == "-150.000 COP"
  {
    assert Digits(0) == "0";
    FormatMillions();
    FormatHundredsOfThousands();
    FormatNegative();
  }

  lemma FormatMillions()
    ensures FormatCop(Some(1234567)) == "1.234.567 COP"
  {
    DigitsOfMillions();
    GroupedMillions();
  }

  lemma DigitsOfMillions()
    ensures Digits(1234567) == "1234567"
  {
    assert Digits(1) == "1";
    assert Digits(12) == "12";
    assert Digits(123) == "123";
    assert Digits(1234) == "1234";
    assert Digits(12345) == "12345";
    assert Digits(123456) == "123456";
  }

  lemma GroupedMillions()
    ensures Grouped("1234567") == "1.234.567"
  {
    var s := "1234567";
    assert s[..4] == "1234" && s[4..] == "567";
    assert Grouped("1234") == "1.234" by {
      assert "1234"[..1] == "1" && "1234"[1..] == "234";
    }
  }

  lemma FormatHundredsOfThousands()
    ensures FormatCop(Some(400000)) == "400.000 COP"
  {
    DigitsOfHundredsOfThousands();
    GroupedHundredsOfThousands();
  }

  lemma DigitsOfHundredsOfThousands()
    ensures Digits(400000) == "400000"
  {
    assert Digits(4) == "4";
    assert Digits(40) == "40";
    assert Digits(400) == "400";
    assert Digits(4000) == "4000";
    assert Digits(40000) == "40000";
  }

  lemma GroupedHundredsOfThousands()
    ensures Grouped("400000") == "400.000"
  {
    var s := "400000";
    assert s[..3] == "400" && s[3..] == "000";
  }

  lemma FormatNegative()
    ensures FormatCop(Some(-150000)) == "-150.000 COP"
  {
    DigitsOfNegative();
    GroupedNegative();
  }

  lemma DigitsOfNegative()
    ensures Digits(150000) == "150000"
  {
    assert Digits(1) == "1";
    assert Digits(15) == "15";
    assert Digits(150) == "150";
    assert Digits(1500) == "1500";
    assert Digits(15000) == "15000";
  }

  lemma GroupedNegative()
    ensures Grouped("150000") == "150.000"
  {
    var s := "150000";
    assert s[..3] == "150" && s[3..] == "000";
  }

  // ---------------------------------------------------------------- totals

  /** The rows `_sum_by_type` selects for type `t`: the farm's, dated inside the range. */
  predicate Selected(tx: Transaction, farm: Uuid, dr: DateRange, t: TxnType) {
    tx.farmId == farm && Within(tx.date, dr) && tx.txnType == t
  }

  /**
   * `coalesce(sum(total_value), 0)` over the selected rows: SQL's `sum`
   * skips a missing total, and a type with no rows (or only missing
   * totals) sums to 0.
   */
  function SumOf(rows: seq<Transaction>, farm: Uuid, dr: DateRange, t: TxnType): int
  {
    if rows == [] then 0
    else
      var last := rows[|rows| - 1];
      SumOf(rows[..|rows| - 1], farm, dr, t) + (if Selected(last, farm, dr, t) then last.totalValue.GetOr(0) else 0)
  }

  /** Summing over two batches of rows is summing over each. */
  lemma {:induction false} SumOfAppend(a: seq<Transaction>, b: seq<Transaction>, farm: Uuid, dr: DateRange, t: TxnType)
    ensures SumOf(a + b, farm, dr, t) == SumOf(a, farm, dr, t) + SumOf(b, farm, dr, t)
    decreases |b|
  {
    if b == [] {
      assert a + b == a;
    } else {
      var c := a + b;
      assert c[..|c| - 1] == a + b[..|b| - 1];
      assert c[|c| - 1] == b[|b| - 1];
      SumOfAppend(a, b[..|b| - 1], farm, dr, t);
    }
  }

  /** A row of another farm, another type or a day outside the range changes no total, wherever it stands. */
  lemma UnselectedRowIgnored(a: seq<Transaction>, x: Transaction, b: seq<Transaction>, farm: Uuid, dr: DateRange, t: TxnType)
    requires !Selected(x, farm, dr, t)
    ensures SumOf(a + [x] + b, farm, dr, t) == SumOf(a + b, farm, dr, t)
  {
    SumOfAppend(a + [x], b, farm, dr, t);
    SumOfAppend(a, b, farm, dr, t);
    assert (a + [x])[..|a|] == a;
  }

  /** With no selected row the total is 0. */
  lemma {:induction false} SumOfNoneSelected(rows: seq<Transaction>, farm: Uuid, dr: DateRange, t: TxnType)
    requires forall i :: 0 <= i < |rows| ==> !Selected(rows[i], farm, dr, t)
    ensures SumOf(rows, farm, dr, t) == 0
  {
    if rows != [] {
      SumOfNoneSelected(rows[..|rows| - 1], farm, dr, t);
    }
  }

  /** `_sum_by_type`: the income and expense totals of `farm` over `dr`, from the stored rows. */
  method SumByType(rows: seq<Transaction>, farm: Uuid, dr: DateRange) returns (ingresos: int, gastos: int)
    ensures ingresos == SumOf(rows, farm, dr, Ingreso)
    ensures gastos == SumOf(rows, farm, dr, Gasto)
  {
    ingresos, gastos := 0, 0;
    for i := 0 to |rows|
      invariant ingresos == SumOf(rows[..i], farm, dr, Ingreso)
      invariant gastos == SumOf(rows[..i], farm, dr, Gasto)
    {
      var tx := rows[i];
      assert rows[..i + 1][..i] == rows[..i];
      if tx.farmId == farm && Within(tx.date, dr) {
        match tx.txnType
        case Ingreso =>
          ingresos := ingresos + tx.totalValue.GetOr(0);
        case Gasto =>
          gastos := gastos + tx.totalValue.GetOr(0);
      }
    }
    assert rows[..|rows|] == rows;
  }

  // ---------------------------------------------------------------- report

  /** The five lines of the report, in order. */
  function ReportLines(title: string, dr: DateRange, ingresos: int, gastos: int): seq<string>
    requires InRange(dr.start) && InRange(dr.end)
  {
    [ "[ " + title + " ]",
      "Rango: " + Iso(dr.start) + " - " + Iso(dr.end),
      "Ingresos = " + FormatCop(Some(ingresos)),
      "Gastos = " + FormatCop(Some(gastos)),
      "Total Ganancias = " + FormatCop(Some(ingresos - gastos)) ]
  }

  /** The report text: its lines joined by line breaks. */
  function RenderReport(title: string, dr: DateRange, ingresos: int, gastos: int): string
    requires InRange(dr.start) && InRange(dr.end)
  {
    Join(ReportLines(title, dr, ingresos, gastos), '\n')
  }

  lemma NoNewlineInIso(d: Date)
    requires InRange(d)
    ensures '\n' !in Iso(d)
  {
    var s := Iso(d);
    forall i | 0 <= i < |s| ensures s[i] != '\n' {
      assert s[i] == '-' || IsDigit(s[i]);
    }
  }

  /** No line of the report holds a line break of its own. */
  lemma NoNewlineInLines(title: string, dr: DateRange, ingresos: int, gastos: int)
    requires InRange(dr.start) && InRange(dr.end) && '\n' !in title
    ensures forall k :: 0 <= k < 5 ==> '\n' !in ReportLines(title, dr, ingresos, gastos)[k]
  {
    var l := ReportLines(title, dr, ingresos, gastos);
    assert '\n' !in l[0];
    RangeLineIsOneLine(dr);
    AmountLineIsOneLine("Ingresos = ", ingresos);
    AmountLineIsOneLine("Gastos = ", gastos);
    AmountLineIsOneLine("Total Ganancias = ", ingresos - gastos);
  }

  lemma RangeLineIsOneLine(dr: DateRange)
    requires InRange(dr.start) && InRange(dr.end)
    ensures '\n' !in "Rango: " + Iso(dr.start) + " - " + Iso(dr.end)
  {
    NoNewlineInIso(dr.start);
    NoNewlineInIso(dr.end);
  }

  lemma AmountLineIsOneLine(prefix: string, n: int)
    requires '\n' !in prefix
    ensures '\n' !in prefix + FormatCop(Some(n))
  {
    FormatCopMeaning(Some(n));
  }

  /** The report splits at its line breaks into exactly its five lines. */
  lemma ReportSplits(title: string, dr: DateRange, ingresos: int, gastos: int)
    requires InRange(dr.start) && InRange(dr.end) && '\n' !in title
    ensures Split(RenderReport(title, dr, ingresos, gastos), '\n') == ReportLines(title, dr, ingresos, gastos)
  {
    NoNewlineInLines(title, dr, ingresos, gastos);
    SplitJoin(ReportLines(title, dr, ingresos, gastos), '\n');
  }

  /** The amounts on the last three lines read back as income, expenses and their difference. */
  lemma ReportAmounts(title: string, dr: DateRange, ingresos: int, gastos: int)
    requires InRange(dr.start) && InRange(dr.end)
    ensures var l := ReportLines(title, dr, ingresos, gastos);
      CopValue(l[2][|"Ingresos = "|..]) == Some(ingresos)
      && CopValue(l[3][|"Gastos = "|..]) == Some(gastos)
      && CopValue(l[4][|"Total Ganancias = "|..]) == Some(ingresos - gastos)
  {
    var l := ReportLines(title, dr, ingresos, gastos);
    FormatCopMeaning(Some(ingresos));
    FormatCopMeaning(Some(gastos));
    FormatCopMeaning(Some(ingresos - gastos));
    assert l[2][|"Ingresos = "|..] == FormatCop(Some(ingresos));
    assert l[3][|"Gastos = "|..] == FormatCop(Some(gastos));
    assert l[4][|"Total Ganancias = "|..] == FormatCop(Some(ingresos - gastos));
  }

  /**
   * `build_text_report`: the range of the labelled period, the farm's totals
   * over it, and the five-line report; an unknown label is refused.
   */
  method BuildTextReport(rows: seq<Transaction>, farm: Uuid, period: string, ref: Date) returns (r: Result<string, ReportError>)
    requires InRange(ref)
    ensures r.Err? <==> GetRange(period, ref).Err?
    ensures r.Err? ==> r.error == GetRange(period, ref).error
    ensures r.Ok? ==>
      var dr := GetRange(period, ref).value;
      var ingresos := SumOf(rows, farm, dr, Ingreso);
      var gastos := SumOf(rows, farm, dr, Gasto);
      Split(r.value, '\n') == ReportLines(Title(period), dr, ingresos, gastos)
  {
    var range := GetRange(period, ref);
    match range
    case Err(e) =>
      return Err(e);
    case Ok(dr) =>
      var ingresos, gastos := SumByType(rows, farm, dr);
      var title := Title(period);
      TitleIsOneLine(period);
      var text := RenderReport(title, dr, ingresos, gastos);
      ReportSplits(title, dr, ingresos, gastos);
      return Ok(text);
  }
}
