/**
 * Civil-date arithmetic behind the leaderboard periods: Python's `date`
 * (proleptic Gregorian calendar, `toordinal()`, `weekday()`, adding and
 * subtracting whole days) and the local-midnight boundaries of a day, a
 * Monday-start week and a month. Turning a local midnight into a UTC instant
 * is left to the caller.
 */
module Calendar {

  datatype Date = Date(year: int, month: int, day: int)

  predicate IsLeap(y: int) {
    y % 4 == 0 && (y % 100 != 0 || y % 400 == 0)
  }

  function DaysInMonth(y: int, m: int): int
    requires 1 <= m <= 12
  {
    if m == 2 then (if IsLeap(y) then 29 else 28)
    else if m == 4 || m == 6 || m == 9 || m == 11 then 30
    else 31
  }

  function DaysInYear(y: int): int {
    if IsLeap(y) then 366 else 365
  }

  /** A date Python's `date` accepts (years from 1 on; the upper limit of year 9999 is not modelled). */
  predicate Valid(d: Date) {
    d.year >= 1 && 1 <= d.month <= 12 && 1 <= d.day <= DaysInMonth(d.year, d.month)
  }

  /** Days in the years before `y`, counted from 1 January of year 1. */
  function DaysBeforeYear(y: int): nat
    requires y >= 1
  {
    if y == 1 then 0 else DaysBeforeYear(y - 1) + DaysInYear(y - 1)
  }

  /** Days in the months of year `y` before month `m`. */
  function DaysBeforeMonth(y: int, m: int): int
    requires 1 <= m <= 12
  {
    var leap := if IsLeap(y) && m > 2 then 1 else 0;
    [0, 31, 59, 90, 120, 151, 181, 212, 243, 273, 304, 334][m - 1] + leap
  }

  /** `date.toordinal()`: 1 January of year 1 is day 1. */
  function Ordinal(d: Date): int
    requires Valid(d)
  {
    DaysBeforeYear(d.year) + DaysBeforeMonth(d.year, d.month) + d.day
  }

  /** `date.weekday()`: Monday is 0 and Sunday 6 (1 January of year 1 was a Monday). */
  function Weekday(d: Date): int
    requires Valid(d)
  {
    (Ordinal(d) + 6) % 7
  }

  lemma YearStep(y: int)
    requires y >= 1
    ensures DaysBeforeYear(y + 1) == DaysBeforeYear(y) + DaysInYear(y)
  {
  }

  lemma MonthStep(y: int, m: int)
    requires 1 <= m < 12
    ensures DaysBeforeMonth(y, m + 1) == DaysBeforeMonth(y, m) + DaysInMonth(y, m)
  {
  }

  /** `d + timedelta(days=1)` */
  function NextDay(d: Date): (r: Date)
    requires Valid(d)
    ensures Valid(r) && Ordinal(r) == Ordinal(d) + 1
  {
    if d.day < DaysInMonth(d.year, d.month) then d.(day := d.day + 1)
    else if d.month < 12 then MonthStep(d.year, d.month); Date(d.year, d.month + 1, 1)
    else YearStep(d.year); Date(d.year + 1, 1, 1)
  }

  /** `d - timedelta(days=1)`, defined for every date but 1 January of year 1. */
  function PrevDay(d: Date): (r: Date)
    requires Valid(d) && Ordinal(d) > 1
    ensures Valid(r) && Ordinal(r) == Ordinal(d) - 1
  {
    if d.day > 1 then d.(day := d.day - 1)
    else if d.month > 1 then MonthStep(d.year, d.month - 1); Date(d.year, d.month - 1, DaysInMonth(d.year, d.month - 1))
    else YearStep(d.year - 1); Date(d.year - 1, 12, 31)
  }

  /** `d + timedelta(days=k)` */
  function AddDays(d: Date, k: nat): (r: Date)
    requires Valid(d)
    ensures Valid(r) && Ordinal(r) == Ordinal(d) + k
    decreases k
  {
    if k == 0 then d else AddDays(NextDay(d), k - 1)
  }

  /** `d - timedelta(days=k)` */
  function SubDays(d: Date, k: nat): (r: Date)
    requires Valid(d) && Ordinal(d) > k
    ensures Valid(r) && Ordinal(r) == Ordinal(d) - k
    decreases k
  {
    if k == 0 then d else SubDays(PrevDay(d), k - 1)
  }

  /** The Monday on or before `d`: `d - timedelta(days=d.weekday())`. */
  function MondayOf(d: Date): (r: Date)
    requires Valid(d)
    ensures Valid(r) && Ordinal(r) == Ordinal(d) - Weekday(d)
  {
    WeekdayBelow(Ordinal(d));
    SubDays(d, Weekday(d))
  }

  lemma WeekdayBelow(o: int)
    requires o >= 1
    ensures 0 <= (o + 6) % 7 < o
  {
    if o < 7 {
      assert (o + 6) % 7 == o - 1;
    }
  }

  /** Two day numbers share their Monday exactly when the second lies in the seven days from the first one's Monday. */
  lemma SameMondayArith(ox: int, od: int, wx: int, wd: int)
    requires wx == (ox + 6) % 7 && wd == (od + 6) % 7
    requires od - wd <= ox < od - wd + 7
    ensures ox - wx == od - wd
  {
    var q := (od + 6) / 7;
    assert od - wd + 6 == 7 * q;
    var t := ox - (od - wd);
    assert ox + 6 == 7 * q + t;
    assert (ox + 6) % 7 == t;
  }

  /** The periods a leaderboard covers. */
  datatype Kind = Day | Week | Month

  /** An instant in UTC, as a number of time units; only its order matters. */
  type Instant = int

  /**
   * What `_period_bounds` returns: the period's local midnights, the same
   * two moments in UTC, and the title the leaderboard gives the period.
   */
  datatype Window = Window(startUtc: Instant, endUtc: Instant, startLocal: Date, endLocal: Date, title: string)

  /** A half-open range of local dates `[start, end)`: from midnight at the start of `start` to midnight at the start of `end`. */
  datatype Period = Period(start: Date, end: Date)

  predicate InPeriod(x: Date, p: Period)
    requires Valid(x) && Valid(p.start) && Valid(p.end)
  {
    Ordinal(p.start) <= Ordinal(x) < Ordinal(p.end)
  }

  /**
   * The local dates of `_period_bounds`: the day of `d` and the next one; the
   * Monday on or before `d` and seven days later; the first of `d`'s month
   * and the first of the next month, December rolling over into January of
   * the next year.
   */
  function Bounds(kind: Kind, d: Date): (p: Period)
    requires Valid(d)
    ensures Valid(p.start) && Valid(p.end)
    ensures InPeriod(d, p)
  {
    match kind
    case Day => Period(d, NextDay(d))
    case Week =>
      var monday := MondayOf(d);
      Period(monday, AddDays(monday, 7))
    case Month =>
      var first := Date(d.year, d.month, 1);
      if d.month == 12 then
        YearStep(d.year);
        Period(first, Date(d.year + 1, 1, 1))
      else
        MonthStep(d.year, d.month);
        Period(first, Date(d.year, d.month + 1, 1))
  }

  /** A day runs from `d` to the next day. */
  lemma DayBounds(d: Date)
    requires Valid(d)
    ensures Bounds(Day, d).start == d
    ensures Ordinal(Bounds(Day, d).end) == Ordinal(d) + 1
  {
  }

  /** A week starts on a Monday no later than `d` and lasts seven days. */
  lemma WeekBounds(d: Date)
    requires Valid(d)
    ensures Weekday(Bounds(Week, d).start) == 0
    ensures Ordinal(d) - 6 <= Ordinal(Bounds(Week, d).start) <= Ordinal(d)
    ensures Ordinal(Bounds(Week, d).end) == Ordinal(Bounds(Week, d).start) + 7
  {
    MondayIsMonday(d);
    assert Bounds(Week, d).start == MondayOf(d);
    WeekStart(d);
  }

  lemma MondayIsMonday(d: Date)
    requires Valid(d)
    ensures Weekday(MondayOf(d)) == 0
    ensures Ordinal(d) - 6 <= Ordinal(MondayOf(d)) <= Ordinal(d)
  {
    var monday := MondayOf(d);
    MondayArith(Ordinal(d), Weekday(d), Ordinal(monday), Weekday(monday));
  }

  /** The day number of a Monday leaves remainder 0 in `weekday()`'s arithmetic, at most six days back. */
  lemma MondayArith(o: int, w: int, m: int, wm: int)
    requires w == (o + 6) % 7 && m == o - w && wm == (m + 6) % 7
    ensures wm == 0 && o - 6 <= m <= o
  {
  }

  /** A month runs from its first day to the first day of the next month, across the year end in December. */
  lemma MonthBounds(d: Date)
    requires Valid(d)
    ensures Bounds(Month, d).start == Date(d.year, d.month, 1)
    ensures Bounds(Month, d).end == if d.month == 12 then Date(d.year + 1, 1, 1) else Date(d.year, d.month + 1, 1)
    ensures Ordinal(Bounds(Month, d).end) == Ordinal(Bounds(Month, d).start) + DaysInMonth(d.year, d.month)
  {
    if d.month == 12 { YearStep(d.year); } else { MonthStep(d.year, d.month); }
  }

  /** `a` comes before `b` in calendar order (year, then month, then day). */
  predicate Before(a: Date, b: Date) {
    a.year < b.year || (a.year == b.year && (a.month < b.month || (a.month == b.month && a.day < b.day)))
  }

  lemma {:induction false} YearsMonotone(a: int, b: int)
    requires 1 <= a < b
    ensures DaysBeforeYear(a) + DaysInYear(a) <= DaysBeforeYear(b)
    decreases b - a
  {
    YearStep(a);
    if a + 1 < b {
      YearsMonotone(a + 1, b);
    }
  }

  lemma MonthsMonotone(y: int, a: int, b: int)
    requires 1 <= a < b <= 12
    ensures DaysBeforeMonth(y, a) + DaysInMonth(y, a) <= DaysBeforeMonth(y, b)
  {
  }

  lemma MonthFitsYear(y: int, m: int)
    requires 1 <= m <= 12
    ensures DaysBeforeMonth(y, m) + DaysInMonth(y, m) <= DaysInYear(y)
  {
  }

  /** Ordinals follow calendar order, so different dates have different ordinals. */
  lemma OrdinalOrder(a: Date, b: Date)
    requires Valid(a) && Valid(b)
    ensures Before(a, b) ==> Ordinal(a) < Ordinal(b)
    ensures Ordinal(a) == Ordinal(b) ==> a == b
  {
    if a.year < b.year {
      MonthFitsYear(a.year, a.month);
      YearsMonotone(a.year, b.year);
    } else if a.year == b.year && a.month < b.month {
      MonthsMonotone(a.year, a.month, b.month);
    }
    if b.year < a.year {
      MonthFitsYear(b.year, b.month);
      YearsMonotone(b.year, a.year);
    } else if a.year == b.year && b.month < a.month {
      MonthsMonotone(a.year, b.month, a.month);
    }
  }

  /**
   * The periods of one kind tile the calendar: a date lies in the period of
   * `d` exactly when its own period is the period of `d`.
   */
  lemma SamePeriod(kind: Kind, d: Date, x: Date)
    requires Valid(d) && Valid(x)
    ensures InPeriod(x, Bounds(kind, d)) <==> Bounds(kind, x) == Bounds(kind, d)
  {
    match kind
    case Day => OrdinalOrder(x, d);
    case Week => SameWeek(d, x);
    case Month => SameMonth(d, x);
  }

  lemma SameWeek(d: Date, x: Date)
    requires Valid(d) && Valid(x)
    ensures InPeriod(x, Bounds(Week, d)) <==> Bounds(Week, x) == Bounds(Week, d)
  {
    if InPeriod(x, Bounds(Week, d)) {
      SameMonday(d, x);
    }
  }

  lemma SameMonday(d: Date, x: Date)
    requires Valid(d) && Valid(x)
    requires InPeriod(x, Bounds(Week, d))
    ensures MondayOf(x) == MondayOf(d)
  {
    MondayWindow(d, x);
    MondayShared(d, x);
    OrdinalOrder(MondayOf(x), MondayOf(d));
  }

  lemma MondayWindow(d: Date, x: Date)
    requires Valid(d) && Valid(x)
    requires InPeriod(x, Bounds(Week, d))
    ensures Ordinal(MondayOf(d)) <= Ordinal(x) < Ordinal(MondayOf(d)) + 7
  {
    WeekStart(d);
    assert Bounds(Week, d).start == MondayOf(d);
  }

  lemma MondayShared(d: Date, x: Date)
    requires Valid(d) && Valid(x)
    requires Ordinal(MondayOf(d)) <= Ordinal(x) < Ordinal(MondayOf(d)) + 7
    ensures Ordinal(MondayOf(x)) == Ordinal(MondayOf(d))
  {
    SameMondayArith(Ordinal(x), Ordinal(d), Weekday(x), Weekday(d));
  }

  lemma WeekStart(d: Date)
    requires Valid(d)
    ensures Ordinal(Bounds(Week, d).start) == Ordinal(d) - (Ordinal(d) + 6) % 7
    ensures Ordinal(Bounds(Week, d).end) == Ordinal(Bounds(Week, d).start) + 7
  {
    var monday := MondayOf(d);
    assert Bounds(Week, d) == Period(monday, AddDays(monday, 7));
  }

  lemma SameMonth(d: Date, x: Date)
    requires Valid(d) && Valid(x)
    ensures InPeriod(x, Bounds(Month, d)) <==> Bounds(Month, x) == Bounds(Month, d)
  {
    var p := Bounds(Month, d);
    MonthBounds(d);
    MonthBounds(x);
    OrdinalOrder(x, p.start);
    OrdinalOrder(p.start, x);
    OrdinalOrder(x, p.end);
    OrdinalOrder(p.end, x);
  }
}
