/**
 * Calendar arithmetic behind the dashboard's date helpers (app.js:175-284).
 *
 * A JavaScript `Date` at local midnight is modelled as a calendar triple
 * `Date(year, month0, day)` with a zero-based month, exactly what
 * `getFullYear()`, `getMonth()` and `getDate()` return.  Every date is tied
 * to a Gregorian day number (day 0 is 0000-01-01 of the proleptic calendar),
 * and `new Date(y, m, d)` is modelled by `JsDate`, which normalises month and
 * day overflow the way ECMAScript's MakeDay does (`d == 0` is the last day of
 * the previous month, month 12 is January of the next year) and applies the
 * constructor's rule that a year in 0..99 means 1900 + year.
 */
module Calendar {

  datatype Date = Date(year: int, month0: int, day: int)

  predicate IsLeap(y: int) {
    y % 4 == 0 && (y % 100 != 0 || y % 400 == 0)
  }

  function YearLength(y: int): int {
    if IsLeap(y) then 366 else 365
  }

  function DaysInMonth(y: int, m: int): int
    requires 0 <= m < 12
  {
    if m == 1 then (if IsLeap(y) then 29 else 28)
    else if m == 3 || m == 5 || m == 8 || m == 10 then 30
    else 31
  }

  /** Days of year `y` that lie before the first of month `m` (0 <= m <= 12). */
  function DaysBeforeMonth(y: int, m: int): int
    requires 0 <= m <= 12
  {
    var base := [0, 31, 59, 90, 120, 151, 181, 212, 243, 273, 304, 334, 365][m];
    if IsLeap(y) && m >= 2 then base + 1 else base
  }

  /**
   * Days from 0000-01-01 to the first of January of year `y`, counted year
   * by year (negative for years before 0).
   */
  function DaysBeforeYear(y: int): int
    decreases if y < 0 then -y else y
  {
    if y == 0 then 0
    else if y > 0 then DaysBeforeYear(y - 1) + YearLength(y - 1)
    else DaysBeforeYear(y + 1) - YearLength(y)
  }

  predicate Valid(d: Date) {
    0 <= d.month0 < 12 && 1 <= d.day <= DaysInMonth(d.year, d.month0)
  }

  /** The Gregorian day number of a (valid) calendar date. */
  function DayNumber(d: Date): int
    requires 0 <= d.month0 < 12
  {
    DaysBeforeYear(d.year) + DaysBeforeMonth(d.year, d.month0) + d.day - 1
  }

  /**
   * Day number of the first of month `m` of year `y`, for any integer `m`:
   * a month past December carries into the next year, one before January
   * into the previous year.
   */
  function MonthStart(y: int, m: int): int
    decreases if m < 0 then -m else 0, if m >= 12 then m else 0
  {
    if m < 0 then MonthStart(y - 1, m + 12)
    else if m < 12 then DaysBeforeYear(y) + DaysBeforeMonth(y, m)
    else MonthStart(y + 1, m - 12)
  }

  // ------------------------------------------------------------------
  // Facts about year and month lengths
  // ------------------------------------------------------------------

  lemma YearStep(y: int)
    ensures DaysBeforeYear(y + 1) == DaysBeforeYear(y) + YearLength(y)
  {
  }

  lemma YearStepMonotone(y: int, z: int)
    requires y <= z
    ensures DaysBeforeYear(y) + 365 * (z - y) <= DaysBeforeYear(z) <= DaysBeforeYear(y) + 366 * (z - y)
    decreases z - y
  {
    if y < z {
      YearStepMonotone(y + 1, z);
      YearStep(y);
    }
  }

  lemma MonthBounds(y: int, m: int)
    requires 0 <= m < 12
    ensures DaysBeforeMonth(y, m + 1) == DaysBeforeMonth(y, m) + DaysInMonth(y, m)
    ensures 28 <= DaysInMonth(y, m) <= 31
    ensures DaysBeforeMonth(y, 12) == YearLength(y)
    ensures DaysBeforeMonth(y, 0) == 0
  {
  }

  lemma MonthStrict(y: int, m: int, n: int)
    requires 0 <= m < n <= 12
    ensures DaysBeforeMonth(y, m) + DaysInMonth(y, m) <= DaysBeforeMonth(y, n)
  {
  }

  /** Within a year, the next month starts one month length after this one. */
  lemma MonthStartNext(y: int, m: int)
    requires 0 <= m < 12
    ensures MonthStart(y, m + 1) == MonthStart(y, m) + DaysInMonth(y, m)
  {
    MonthBounds(y, m);
    if m == 11 {
      YearStep(y);
      assert MonthStart(y, 12) == MonthStart(y + 1, 0);
    }
  }

  lemma MonthLengthRange(y: int, m: int)
    requires 0 <= m < 12
    ensures 28 <= DaysInMonth(y, m) <= 31
  {
  }

  lemma MonthStartNormal(y: int, m: int)
    requires 0 <= m < 12
    ensures MonthStart(y, m) == DaysBeforeYear(y) + DaysBeforeMonth(y, m)
  {
  }

  lemma {:induction false} MonthStartDelta(y: int, p: int)
    ensures 28 <= MonthStart(y, p + 1) - MonthStart(y, p) <= 31
    decreases if p < 0 then -p else 0, if p >= 12 then p else 0
  {
    if p < 0 {
      assert MonthStart(y, p) == MonthStart(y - 1, p + 12);
      if p == -1 {
        MonthStartNext(y - 1, 11);
        MonthLengthRange(y - 1, 11);
        assert MonthStart(y - 1, 12) == MonthStart(y, 0);
      } else {
        MonthStartDelta(y - 1, p + 12);
        assert MonthStart(y, p + 1) == MonthStart(y - 1, p + 13);
      }
    } else if p < 12 {
      MonthStartNext(y, p);
      MonthLengthRange(y, p);
    } else {
      MonthStartDelta(y + 1, p - 12);
      assert MonthStart(y, p) == MonthStart(y + 1, p - 12);
      assert MonthStart(y, p + 1) == MonthStart(y + 1, p - 11);
    }
  }

  lemma MonthStartMonotone(y: int, m: int, k: nat)
    ensures MonthStart(y, m) + 28 * k <= MonthStart(y, m + k) <= MonthStart(y, m) + 31 * k
    decreases k
  {
    if k > 0 {
      MonthStartMonotone(y, m, k - 1);
      MonthStartDelta(y, m + k - 1);
    }
  }

  lemma MonthStartYear(y: int, m: int)
    ensures MonthStart(y, m + 12) == MonthStart(y + 1, m)
    decreases if m < 0 then -m else 0, if m >= 12 then m else 0
  {
    if m < -12 {
      MonthStartYear(y - 1, m + 12);
    } else if m < 0 {
      assert MonthStart(y + 1, m) == MonthStart(y, m + 12);
    } else if m >= 12 {
      MonthStartYear(y + 1, m - 12);
    }
  }

  // ------------------------------------------------------------------
  // From day numbers back to calendar dates
  // ------------------------------------------------------------------

  /** The year (counting from `k`) that holds day number `n`. */
  function FindYear(n: int, k: int): (y: int)
    requires DaysBeforeYear(k) <= n
    ensures k <= y && DaysBeforeYear(y) <= n < DaysBeforeYear(y + 1)
    decreases n - DaysBeforeYear(k)
  {
    YearStep(k);
    if n < DaysBeforeYear(k + 1) then k else FindYear(n, k + 1)
  }

  /** A year that starts no later than day number `n`. */
  lemma StartYearBelow(n: int)
    ensures DaysBeforeYear(if n >= 0 then n / 366 else n / 365 - 1) <= n
  {
    if n >= 0 {
      YearStepMonotone(0, n / 366);
    } else {
      YearStepMonotone(n / 365 - 1, 0);
    }
  }

  /** The month of year `y` (counting from `m`) that holds day-of-year `r`. */
  function FindMonth(y: int, r: int, m: int): (n: int)
    requires 0 <= m < 12 && DaysBeforeMonth(y, m) <= r < YearLength(y)
    ensures m <= n < 12 && DaysBeforeMonth(y, n) <= r < DaysBeforeMonth(y, n + 1)
    decreases 12 - m
  {
    if r < DaysBeforeMonth(y, m + 1) then m else FindMonth(y, r, m + 1)
  }

  /** The year whose days include day number `n`. */
  function YearContaining(n: int): (y: int)
    ensures DaysBeforeYear(y) <= n < DaysBeforeYear(y + 1)
  {
    StartYearBelow(n);
    FindYear(n, if n >= 0 then n / 366 else n / 365 - 1)
  }

  /** The calendar date with Gregorian day number `n`. */
  function FromDayNumber(n: int): (d: Date)
    ensures Valid(d) && DayNumber(d) == n
  {
    DayNumberOnto(n);
    DayNumbersIdentify();
    var d :| Valid(d) && DayNumber(d) == n; d
  }

  /** A witness: the year holding day `n`, the month holding its day of the year, and the day. */
  lemma DayNumberOnto(n: int)
    ensures exists d :: Valid(d) && DayNumber(d) == n
  {
    var y := YearContaining(n);
    YearStep(y);
    var doy := n - DaysBeforeYear(y);
    var m := FindMonth(y, doy, 0);
    MonthBounds(y, m);
    var d := Date(y, m, doy - DaysBeforeMonth(y, m) + 1);
    assert Valid(d) && DayNumber(d) == n;
  }

  lemma DayNumbersIdentify()
    ensures forall d: Date, e: Date {:trigger DayNumber(d), DayNumber(e)} ::
      Valid(d) && Valid(e) && DayNumber(d) == DayNumber(e) ==> d == e
  {
    forall d: Date, e: Date | Valid(d) && Valid(e) && DayNumber(d) == DayNumber(e) ensures d == e {
      DayNumberInjective(d, e);
    }
  }

  lemma YearOfDayNumber(d: Date)
    requires Valid(d)
    ensures DaysBeforeYear(d.year) <= DayNumber(d) < DaysBeforeYear(d.year + 1)
  {
    MonthBounds(d.year, d.month0);
    MonthStrict(d.year, d.month0, 12);
    YearStep(d.year);
  }

  lemma YearUnique(y: int, z: int, n: int)
    requires DaysBeforeYear(y) <= n < DaysBeforeYear(y + 1)
    requires DaysBeforeYear(z) <= n < DaysBeforeYear(z + 1)
    ensures y == z
  {
    if y < z {
      YearStepMonotone(y + 1, z);
    } else if z < y {
      YearStepMonotone(z + 1, y);
    }
  }

  lemma MonthUnique(y: int, m: int, n: int, r: int)
    requires 0 <= m < 12 && 0 <= n < 12
    requires DaysBeforeMonth(y, m) <= r < DaysBeforeMonth(y, m + 1)
    requires DaysBeforeMonth(y, n) <= r < DaysBeforeMonth(y, n + 1)
    ensures m == n
  {
    if m < n {
      MonthStrict(y, m + 1, n);
    } else if n < m {
      MonthStrict(y, n + 1, m);
    }
  }

  /** Day numbers identify valid dates: the numbering is a bijection. */
  lemma DayNumberInjective(d: Date, e: Date)
    requires Valid(d) && Valid(e) && DayNumber(d) == DayNumber(e)
    ensures d == e
  {
    YearOfDayNumber(d);
    YearOfDayNumber(e);
    YearUnique(d.year, e.year, DayNumber(d));
    var r := DayNumber(d) - DaysBeforeYear(d.year);
    MonthBounds(d.year, d.month0);
    MonthBounds(d.year, e.month0);
    MonthUnique(d.year, d.month0, e.month0, r);
  }

  lemma {:induction false} FromDayNumberOf(d: Date)
    requires Valid(d)
    ensures FromDayNumber(DayNumber(d)) == d
  {
    DayNumberInjective(FromDayNumber(DayNumber(d)), d);
  }

  // ------------------------------------------------------------------
  // The JavaScript Date constructor and setters
  // ------------------------------------------------------------------

  /** ECMAScript MakeDay on whole numbers: month and day overflow normalised. */
  function MakeDay(y: int, m: int, d: int): (r: Date)
    ensures Valid(r) && DayNumber(r) == MonthStart(y, m) + d - 1
  {
    FromDayNumber(MonthStart(y, m) + d - 1)
  }

  /** The year `new Date(y, m, d)` uses: 0..99 are read as 1900..1999. */
  function ConstructorYear(y: int): int {
    if 0 <= y <= 99 then 1900 + y else y
  }

  /** `new Date(y, m, d)` (local midnight). */
  function JsDate(y: int, m: int, d: int): (r: Date)
    ensures Valid(r) && DayNumber(r) == MonthStart(ConstructorYear(y), m) + d - 1
  {
    MakeDay(ConstructorYear(y), m, d)
  }

  /** For an in-range triple, MakeDay is the identity. */
  lemma MakeDayOfValid(d: Date)
    requires Valid(d)
    ensures MakeDay(d.year, d.month0, d.day) == d
  {
    MonthStartNormal(d.year, d.month0);
    DayNumberInjective(MakeDay(d.year, d.month0, d.day), d);
  }

  /** The constructor keeps a valid triple unless its year is 0..99. */
  lemma JsDateOfValid(d: Date)
    requires Valid(d) && !(0 <= d.year <= 99)
    ensures JsDate(d.year, d.month0, d.day) == d
  {
    MakeDayOfValid(d);
  }

  /** `startOfDay` (app.js:191-193): rebuilds the date through the constructor. */
  function StartOfDay(d: Date): (r: Date)
    requires Valid(d)
    ensures !(0 <= d.year <= 99) ==> r == d
  {
    if !(0 <= d.year <= 99) then JsDateOfValid(d); JsDate(d.year, d.month0, d.day)
    else JsDate(d.year, d.month0, d.day)
  }

  /** `addDays` (app.js:195-199): `setDate(getDate() + days)`. */
  function AddDays(d: Date, days: int): (r: Date)
    requires Valid(d)
    ensures Valid(r) && DayNumber(r) == DayNumber(d) + days
  {
    MonthStartNormal(d.year, d.month0);
    MakeDay(d.year, d.month0, d.day + days)
  }

  /** `addMonths` (app.js:201-205): `setMonth(getMonth() + months)`, keeping the day. */
  function AddMonths(d: Date, months: int): (r: Date)
    requires Valid(d)
    ensures Valid(r) && DayNumber(r) == MonthStart(d.year, d.month0 + months) + d.day - 1
  {
    MakeDay(d.year, d.month0 + months, d.day)
  }

  /** `getDay()`: 0 = Sunday, ..., 6 = Saturday; 0000-01-01 was a Saturday. */
  function Weekday(d: Date): (w: int)
    requires Valid(d)
    ensures 0 <= w < 7
  {
    WeekdayOf(DayNumber(d))
  }

  /** The weekday of a day number: 0 is Sunday; day 0 (0000-01-01) was a Saturday. */
  function WeekdayOf(n: int): (w: int)
    ensures 0 <= w < 7
  {
    (n + 6) % 7
  }

  /** Days from a date with weekday `w` back to the Monday of its week. */
  function MondayOffset(w: int): int {
    (if w == 0 then -6 else 1) - w
  }

  lemma MondayOffsetArith(n: int)
    ensures -6 <= MondayOffset((n + 6) % 7) <= 0
    ensures (n + MondayOffset((n + 6) % 7) + 6) % 7 == 1
    ensures (n + MondayOffset((n + 6) % 7) + 6 + 6) % 7 == 0
  {
    var w := (n + 6) % 7;
    assert n + 6 == 7 * ((n + 6) / 7) + w;
    if w == 0 {
      assert n + MondayOffset(w) + 6 == 7 * ((n + 6) / 7 - 1) + 1;
    } else {
      assert n + MondayOffset(w) + 6 == 7 * ((n + 6) / 7) + 1;
    }
  }

  /** `startOfWeekMonday` (app.js:207-212). */
  function StartOfWeekMonday(d: Date): (r: Date)
    requires Valid(d)
    ensures Valid(r)
    ensures DayNumber(r) == DayNumber(StartOfDay(d)) + MondayOffset(Weekday(StartOfDay(d)))
  {
    var s := StartOfDay(d);
    var day := Weekday(s);
    var diff := (if day == 0 then -6 else 1) - day;
    AddDays(s, diff)
  }

  /** `endOfWeekSunday` (app.js:214-217). */
  function EndOfWeekSunday(d: Date): (r: Date)
    requires Valid(d)
    ensures Valid(r) && DayNumber(r) == DayNumber(StartOfWeekMonday(d)) + 6
  {
    AddDays(StartOfWeekMonday(d), 6)
  }

  /** The week starts on a Monday, not after `d` and at most six days before it. */
  lemma {:induction false} WeekStartIsMonday(d: Date)
    requires Valid(d) && !(0 <= d.year <= 99)
    ensures Weekday(StartOfWeekMonday(d)) == 1
    ensures DayNumber(d) - 6 <= DayNumber(StartOfWeekMonday(d)) <= DayNumber(d)
    ensures DayNumber(EndOfWeekSunday(d)) == DayNumber(StartOfWeekMonday(d)) + 6
    ensures Weekday(EndOfWeekSunday(d)) == 0
  {
    MondayNumber(d);
    WeekArith(DayNumber(d), DayNumber(StartOfWeekMonday(d)), DayNumber(EndOfWeekSunday(d)));
  }

  lemma MondayNumber(d: Date)
    requires Valid(d) && !(0 <= d.year <= 99)
    ensures DayNumber(StartOfWeekMonday(d)) == DayNumber(d) + MondayOffset(WeekdayOf(DayNumber(d)))
  {
    assert StartOfDay(d) == d;
  }

  /** The day numbers of a date, its Monday and its Sunday, as plain integers. */
  lemma WeekArith(n: int, s: int, e: int)
    requires s == n + MondayOffset(WeekdayOf(n)) && e == s + 6
    ensures WeekdayOf(s) == 1 && WeekdayOf(e) == 0
    ensures n - 6 <= s <= n
  {
    MondayOffsetArith(n);
  }

  /** `startOfMonth` (app.js:219-221). */
  function StartOfMonth(d: Date): Date {
    JsDate(d.year, d.month0, 1)
  }

  /** `endOfMonth` (app.js:223-225): day 0 of the next month. */
  function EndOfMonth(d: Date): Date {
    JsDate(d.year, d.month0 + 1, 0)
  }

  /** `getQuarter` (app.js:227-229). */
  function GetQuarter(d: Date): (q: int)
    requires Valid(d)
    ensures 0 <= q < 4 && 3 * q <= d.month0 < 3 * q + 3
  {
    d.month0 / 3
  }

  /** `startOfQuarter` (app.js:231-235). */
  function StartOfQuarter(d: Date): Date
    requires Valid(d)
  {
    JsDate(d.year, GetQuarter(d) * 3, 1)
  }

  /** `endOfQuarter` (app.js:237-241). */
  function EndOfQuarter(d: Date): Date
    requires Valid(d)
  {
    JsDate(d.year, GetQuarter(d) * 3 + 2 + 1, 0)
  }

  /** `startOfYear` (app.js:243-245). */
  function StartOfYear(d: Date): Date {
    JsDate(d.year, 0, 1)
  }

  /** `endOfYear` (app.js:247-249). */
  function EndOfYear(d: Date): Date {
    JsDate(d.year, 11, 31)
  }

  /** Day 0 of month m + 1 is the last day of month m. */
  lemma DayZeroIsMonthEnd(y: int, m: int)
    requires 0 <= m < 12 && !(0 <= y <= 99)
    ensures JsDate(y, m + 1, 0) == Date(y, m, DaysInMonth(y, m))
  {
    var e := Date(y, m, DaysInMonth(y, m));
    var r := JsDate(y, m + 1, 0);
    assert ConstructorYear(y) == y;
    MonthEndNumber(y, m);
    MonthLengthRange(y, m);
    DayNumberInjective(r, e);
  }

  /** The day before the first of the next month is the last day of the month. */
  lemma MonthEndNumber(y: int, m: int)
    requires 0 <= m < 12
    ensures MonthStart(y, m + 1) - 1 == DayNumber(Date(y, m, DaysInMonth(y, m)))
  {
    MonthStartNext(y, m);
    MonthStartNormal(y, m);
  }

  lemma FirstOfMonth(y: int, m: int)
    requires 0 <= m < 12 && !(0 <= y <= 99)
    ensures JsDate(y, m, 1) == Date(y, m, 1)
  {
    MonthBounds(y, m);
    JsDateOfValid(Date(y, m, 1));
  }

  /** The month bounds are the first and last day of the month holding `d`. */
  lemma {:induction false} MonthPeriod(d: Date)
    requires Valid(d) && !(0 <= d.year <= 99)
    ensures StartOfMonth(d) == Date(d.year, d.month0, 1)
    ensures EndOfMonth(d) == Date(d.year, d.month0, DaysInMonth(d.year, d.month0))
    ensures DayNumber(StartOfMonth(d)) <= DayNumber(d) <= DayNumber(EndOfMonth(d))
  {
    var first, last := StartOfMonth(d), EndOfMonth(d);
    FirstOfMonth(d.year, d.month0);
    assert first == Date(d.year, d.month0, 1);
    DayZeroIsMonthEnd(d.year, d.month0);
    assert last == Date(d.year, d.month0, DaysInMonth(d.year, d.month0));
    InMonth(d);
  }

  /** A valid date lies between the first and the last day of its month. */
  lemma InMonth(d: Date)
    requires Valid(d)
    ensures DayNumber(Date(d.year, d.month0, 1)) <= DayNumber(d)
    ensures DayNumber(d) <= DayNumber(Date(d.year, d.month0, DaysInMonth(d.year, d.month0)))
  {
  }

  /** The quarter bounds are the first day of its first month and the last day of its third. */
  lemma {:induction false} QuarterPeriod(d: Date)
    requires Valid(d) && !(0 <= d.year <= 99)
    ensures StartOfQuarter(d) == Date(d.year, 3 * (d.month0 / 3), 1)
    ensures EndOfQuarter(d) == Date(d.year, 3 * (d.month0 / 3) + 2, DaysInMonth(d.year, 3 * (d.month0 / 3) + 2))
    ensures DayNumber(StartOfQuarter(d)) <= DayNumber(d) <= DayNumber(EndOfQuarter(d))
  {
    var y, m, q := d.year, d.month0, 3 * (d.month0 / 3);
    assert 0 <= q <= m <= q + 2 < 12;
    FirstOfMonth(y, q);
    DayZeroIsMonthEnd(y, q + 2);
    if q < m {
      MonthStrict(y, q, m);
    }
    if m < q + 2 {
      MonthStrict(y, m, q + 2);
    }
  }

  /** The year bounds are 1 January and 31 December of the year of `d`. */
  lemma {:induction false} YearPeriod(d: Date)
    requires Valid(d) && !(0 <= d.year <= 99)
    ensures StartOfYear(d) == Date(d.year, 0, 1)
    ensures EndOfYear(d) == Date(d.year, 11, 31)
    ensures DayNumber(StartOfYear(d)) <= DayNumber(d) <= DayNumber(EndOfYear(d))
  {
    FirstOfMonth(d.year, 0);
    LastOfYear(d.year);
    InYear(d);
  }

  /** A valid date lies between 1 January and 31 December of its year. */
  lemma InYear(d: Date)
    requires Valid(d)
    ensures DayNumber(Date(d.year, 0, 1)) <= DayNumber(d) <= DayNumber(Date(d.year, 11, 31))
  {
    var y := d.year;
    DayOfYearBound(y, d.month0, d.day);
    assert DaysBeforeMonth(y, 0) == 0;
    assert DayNumber(Date(y, 0, 1)) == DaysBeforeYear(y);
    assert DayNumber(Date(y, 11, 31)) == DaysBeforeYear(y) + DaysBeforeMonth(y, 11) + 30;
  }

  /** The days of the year before a valid date are at most those before 31 December. */
  lemma DayOfYearBound(y: int, m: int, day: int)
    requires 0 <= m < 12 && 1 <= day <= DaysInMonth(y, m)
    ensures 0 <= DaysBeforeMonth(y, m) + day - 1 <= DaysBeforeMonth(y, 11) + 30
  {
    if m < 11 {
      MonthStrict(y, m, 11);
    }
  }

  lemma LastOfYear(y: int)
    requires !(0 <= y <= 99)
    ensures JsDate(y, 11, 31) == Date(y, 11, 31)
  {
    assert Valid(Date(y, 11, 31));
    JsDateOfValid(Date(y, 11, 31));
  }

  /** The day before the first of a month is the last day of the month before. */
  lemma DayBeforeFirst(y: int, m: int)
    requires 0 <= m < 12
    ensures AddDays(Date(y, m, 1), -1)
         == if m == 0 then Date(y - 1, 11, 31) else Date(y, m - 1, DaysInMonth(y, m - 1))
  {
    var r := AddDays(Date(y, m, 1), -1);
    var e := if m == 0 then Date(y - 1, 11, 31) else Date(y, m - 1, DaysInMonth(y, m - 1));
    if m == 0 {
      YearStep(y - 1);
      MonthBounds(y - 1, 11);
    } else {
      MonthBounds(y, m - 1);
    }
    assert DayNumber(r) == DayNumber(e);
    DayNumberInjective(r, e);
  }

  /** A date on or after the first day of year `z` lies in year `z` or later. */
  lemma YearAtLeast(d: Date, z: int)
    requires Valid(d) && DaysBeforeYear(z) <= DayNumber(d)
    ensures d.year >= z
  {
    YearOfDayNumber(d);
    if d.year < z {
      YearStepMonotone(d.year + 1, z);
    }
  }

  /** `daysBetweenInclusive` (app.js:251-254) on calendar days. */
  function DaysBetweenInclusive(from: Date, to: Date): int
    requires Valid(from) && Valid(to)
  {
    DayNumber(StartOfDay(to)) - DayNumber(StartOfDay(from)) + 1
  }

  lemma DaysBetweenSame(d: Date)
    requires Valid(d)
    ensures DaysBetweenInclusive(d, d) == 1
  {
  }
}
