/**
 * The proleptic Gregorian calendar of Python's `datetime.date`, limited to
 * what the menu page needs: valid dates, the day number of a date
 * (`date.toordinal()`), and the day before and after a date
 * (`d - timedelta(days=1)` and `d + timedelta(days=1)`).
 */
module Calendar {

  /** `datetime.MINYEAR` and `datetime.MAXYEAR`. */
  const MinYear := 1
  const MaxYear := 9999

  /** The day number of 9999-12-31, the last date `datetime.date` can hold. */
  const MaxOrdinal := 3652059

  datatype Date = Date(year: int, month: int, day: int)

  const MinDate := Date(MinYear, 1, 1)
  const MaxDate := Date(MaxYear, 12, 31)

  /** Leap years: every fourth year, except century years not divisible by 400. */
  predicate IsLeap(y: int) {
    y % 4 == 0 && (y % 100 != 0 || y % 400 == 0)
  }

  function DaysInMonth(y: int, m: int): (n: int)
    requires 1 <= m <= 12
    ensures 28 <= n <= 31
    ensures m == 2 ==> n == (if IsLeap(y) then 29 else 28)
    ensures m != 2 ==> n == (if m == 4 || m == 6 || m == 9 || m == 11 then 30 else 31)
  {
    if m == 2 then (if IsLeap(y) then 29 else 28)
    else if m == 4 || m == 6 || m == 9 || m == 11 then 30
    else 31
  }

  function DaysInYear(y: int): int {
    if IsLeap(y) then 366 else 365
  }

  /** A date `datetime.date` can represent. */
  predicate Valid(d: Date) {
    && MinYear <= d.year <= MaxYear
    && 1 <= d.month <= 12
    && 1 <= d.day <= DaysInMonth(d.year, d.month)
  }

  /** The number of days in the years before `y`, counted from year 1. */
  function DaysBeforeYear(y: int): int
    requires y >= 1
  {
    var p := y - 1;
    p * 365 + p / 4 - p / 100 + p / 400
  }

  /** The number of days in the months of year `y` before month `m`. */
  function DaysBeforeMonth(y: int, m: int): int
    requires 1 <= m <= 12
  {
    var common := [0, 31, 59, 90, 120, 151, 181, 212, 243, 273, 304, 334][m - 1];
    common + (if m > 2 && IsLeap(y) then 1 else 0)
  }

  /** `date.toordinal()`: 0001-01-01 is day 1. */
  function Ordinal(d: Date): int
    requires Valid(d)
  {
    DaysBeforeYear(d.year) + DaysBeforeMonth(d.year, d.month) + d.day
  }

  /** A month's days follow on from the months before it. */
  lemma DaysBeforeNextMonth(y: int, m: int)
    requires 1 <= m < 12
    ensures DaysBeforeMonth(y, m + 1) == DaysBeforeMonth(y, m) + DaysInMonth(y, m)
  {
  }

  /** December ends the year. */
  lemma DaysBeforeDecember(y: int)
    ensures DaysBeforeMonth(y, 12) + DaysInMonth(y, 12) == DaysInYear(y)
  {
  }

  /** The leap rule repeats every 400 years, and 400 years hold 146097 days. */
  lemma LeapCycle(y: int)
    requires y >= 1
    ensures IsLeap(y + 400) == IsLeap(y)
    ensures DaysBeforeYear(y + 400) == DaysBeforeYear(y) + 146097
  {
    var p := y - 1;
    assert (p + 400) / 4 == p / 4 + 100;
    assert (p + 400) / 100 == p / 100 + 4;
    assert (p + 400) / 400 == p / 400 + 1;
  }

  /** A year's days follow on from the years before it. */
  lemma DaysBeforeNextYear(y: int)
    requires y >= 1
    ensures DaysBeforeYear(y + 1) == DaysBeforeYear(y) + DaysInYear(y)
  {
    var p := y - 1;
    var a := if y % 4 == 0 then 1 else 0;
    var b := if y % 100 == 0 then 1 else 0;
    var c := if y % 400 == 0 then 1 else 0;
    assert (p + 1) / 4 == p / 4 + a;
    assert (p + 1) / 100 == p / 100 + b;
    assert (p + 1) / 400 == p / 400 + c;
    assert DaysInYear(y) == 365 + a - b + c by {
      if y % 400 == 0 {
        assert y == 4 * (100 * (y / 400)) && y == 100 * (4 * (y / 400));
      } else if y % 100 == 0 {
        assert y == 4 * (25 * (y / 100));
      }
    }
    assert DaysBeforeYear(y + 1) == (p + 1) * 365 + (p + 1) / 4 - (p + 1) / 100 + (p + 1) / 400;
  }

  /** Later years start later: year `a` is over before year `b` begins. */
  lemma {:induction false} DaysBeforeYearGrows(a: int, b: int)
    requires 1 <= a < b
    ensures DaysBeforeYear(a) + DaysInYear(a) <= DaysBeforeYear(b)
    decreases b - a
  {
    DaysBeforeNextYear(a);
    if a + 1 < b {
      DaysBeforeYearGrows(a + 1, b);
    }
  }

  /** Later months start later: month `a` is over before month `b` begins. */
  lemma {:induction false} DaysBeforeMonthGrows(y: int, a: int, b: int)
    requires 1 <= a < b <= 12
    ensures DaysBeforeMonth(y, a) + DaysInMonth(y, a) <= DaysBeforeMonth(y, b)
    decreases b - a
  {
    DaysBeforeNextMonth(y, a);
    if a + 1 < b {
      DaysBeforeMonthGrows(y, a + 1, b);
    }
  }

  /** The day number of a date lies within its year's days. */
  lemma OrdinalInYear(d: Date)
    requires Valid(d)
    ensures DaysBeforeYear(d.year) < Ordinal(d) <= DaysBeforeYear(d.year) + DaysInYear(d.year)
  {
    DaysBeforeDecember(d.year);
    if d.month < 12 {
      DaysBeforeMonthGrows(d.year, d.month, 12);
    }
  }

  /** Different valid dates have different day numbers. */
  lemma OrdinalInjective(a: Date, b: Date)
    requires Valid(a) && Valid(b)
    ensures Ordinal(a) == Ordinal(b) ==> a == b
  {
    OrdinalInYear(a);
    OrdinalInYear(b);
    if a.year < b.year {
      DaysBeforeYearGrows(a.year, b.year);
    } else if b.year < a.year {
      DaysBeforeYearGrows(b.year, a.year);
    } else if a.month < b.month {
      DaysBeforeMonthGrows(a.year, a.month, b.month);
    } else if b.month < a.month {
      DaysBeforeMonthGrows(a.year, b.month, a.month);
    }
  }

  /** The first representable date is day 1. */
  lemma MinDateOrdinal()
    ensures Valid(MinDate) && Ordinal(MinDate) == 1
  {
  }

  /** The last representable date is day `MaxOrdinal`, the last day of its year. */
  lemma MaxDateOrdinal()
    ensures Valid(MaxDate) && Ordinal(MaxDate) == MaxOrdinal
    ensures DaysBeforeYear(MaxYear) + DaysInYear(MaxYear) == MaxOrdinal
  {
    assert 9998 / 4 == 2499 && 9998 / 100 == 99 && 9998 / 400 == 24;
  }

  /** The valid dates have the day numbers 1 through `MaxOrdinal`. */
  lemma OrdinalRange(d: Date)
    requires Valid(d)
    ensures 1 <= Ordinal(d) <= MaxOrdinal
  {
    OrdinalInYear(d);
    MaxDateOrdinal();
    if d.year < MaxYear {
      DaysBeforeYearGrows(d.year, MaxYear);
    }
  }

  /** Only `MinDate` has no day before it: `d - timedelta(days=1)` stays in
      range exactly when `d` is not `MinDate`. */
  lemma FirstDate(d: Date)
    requires Valid(d)
    ensures d != MinDate <==> Ordinal(d) > 1
  {
    OrdinalInYear(d);
    if d.year > 1 {
      DaysBeforeYearGrows(1, d.year);
    }
  }

  /** Only `MaxDate` has no day after it: `d + timedelta(days=1)` stays in
      range exactly when `d` is not `MaxDate`. */
  lemma LastDate(d: Date)
    requires Valid(d)
    ensures d != MaxDate <==> Ordinal(d) < MaxOrdinal
  {
    OrdinalRange(d);
    MaxDateOrdinal();
    OrdinalInjective(d, MaxDate);
  }

  /** `d - timedelta(days=1)`: the valid date whose day number is one less. */
  function Pred(d: Date): (r: Date)
    requires Valid(d) && d != MinDate
    ensures Valid(r) && Ordinal(r) == Ordinal(d) - 1
  {
    if d.day > 1 then Date(d.year, d.month, d.day - 1)
    else if d.month > 1 then
      DaysBeforeNextMonth(d.year, d.month - 1);
      Date(d.year, d.month - 1, DaysInMonth(d.year, d.month - 1))
    else
      DaysBeforeNextYear(d.year - 1);
      DaysBeforeDecember(d.year - 1);
      Date(d.year - 1, 12, 31)
  }

  /** `d + timedelta(days=1)`: the valid date whose day number is one more. */
  function Succ(d: Date): (r: Date)
    requires Valid(d) && d != MaxDate
    ensures Valid(r) && Ordinal(r) == Ordinal(d) + 1
  {
    if d.day < DaysInMonth(d.year, d.month) then Date(d.year, d.month, d.day + 1)
    else if d.month < 12 then
      DaysBeforeNextMonth(d.year, d.month);
      Date(d.year, d.month + 1, 1)
    else
      DaysBeforeNextYear(d.year);
      DaysBeforeDecember(d.year);
      Date(d.year + 1, 1, 1)
  }

  /** The day before is the only valid date one day number earlier, and the
      day after the only one a day number later. */
  lemma PredSuccUnique(d: Date, e: Date)
    requires Valid(d) && Valid(e)
    ensures d != MinDate && Ordinal(e) == Ordinal(d) - 1 ==> e == Pred(d)
    ensures d != MaxDate && Ordinal(e) == Ordinal(d) + 1 ==> e == Succ(d)
  {
    if d != MinDate {
      OrdinalInjective(e, Pred(d));
    }
    if d != MaxDate {
      OrdinalInjective(e, Succ(d));
    }
  }

  /** Going back a day and forward again, or forward and back, returns to the date. */
  lemma SuccPredInverse(d: Date)
    requires Valid(d)
    ensures d != MinDate ==> Pred(d) != MaxDate && Succ(Pred(d)) == d
    ensures d != MaxDate ==> Succ(d) != MinDate && Pred(Succ(d)) == d
  {
    if d != MinDate {
      FirstDate(d);
      LastDate(Pred(d));
      OrdinalInjective(Succ(Pred(d)), d);
    }
    if d != MaxDate {
      LastDate(d);
      FirstDate(Succ(d));
      OrdinalInjective(Pred(Succ(d)), d);
    }
  }

  /** The day before the first of a month is the last day of the month
      before, and the day before New Year's Day is December 31. */
  lemma PredOfFirstDay(d: Date)
    requires Valid(d) && d != MinDate && d.day == 1
    ensures d.month > 1 ==> Pred(d) == Date(d.year, d.month - 1, DaysInMonth(d.year, d.month - 1))
    ensures d.month == 1 ==> Pred(d) == Date(d.year - 1, 12, 31)
  {
  }

  /** The day before March 1 is February 29 exactly in leap years. */
  lemma PredOfMarchFirst(y: int)
    requires MinYear <= y <= MaxYear
    ensures Pred(Date(y, 3, 1)) == (if IsLeap(y) then Date(y, 2, 29) else Date(y, 2, 28))
  {
  }
}
