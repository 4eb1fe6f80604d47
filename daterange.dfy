/**
 * Dashboard period resolution (app.js:256-397) and the stored date filter
 * it reads (`state.dateFilter`, updated by the period dropdown at
 * app.js:733-750 and the custom-range inputs at app.js:779-794).
 *
 * The clock read `new Date()` is the parameter `now`; `today` is
 * `startOfDay(now)`. A bound that `parseISODate` cannot read is `None`
 * (an `Invalid Date`), and a `null` or `NaN` month count is `None`.
 */
module DateRange {
  import opened Wrappers
  import opened Text
  import opened Calendar
  import opened IsoDate

  datatype Range = Range(first: Option<Date>, last: Option<Date>, title: string, monthsInRange: Option<real>)

  /** What `resolveDateRange` returns, with the mode it leaves in `state.dateFilter.mode`. */
  datatype Resolution = Resolution(range: Range, mode: string)

  predicate IsMonthMode(mode: string) {
    mode == "thisMonth" || mode == "lastMonth" || mode == "rollingMonth"
  }

  predicate IsQuarterMode(mode: string) {
    mode == "thisQuarter" || mode == "lastQuarter" || mode == "rollingQuarter"
  }

  predicate IsYearMode(mode: string) {
    mode == "thisYear" || mode == "lastYear" || mode == "rollingYear"
  }

  predicate IsWeekMode(mode: string) {
    mode == "thisWeek" || mode == "lastWeek" || mode == "rollingWeek"
  }

  predicate IsRollingMode(mode: string) {
    mode == "rollingWeek" || mode == "rollingMonth" || mode == "rollingQuarter" || mode == "rollingYear"
  }

  /** The modes `resolveDateRange` has a case for. */
  predicate IsKnownMode(mode: string) {
    IsMonthMode(mode) || IsQuarterMode(mode) || IsYearMode(mode) || IsWeekMode(mode) || mode == "custom"
  }

  /** `daysBetweenInclusive` (app.js:251-254); an `Invalid Date` gives `NaN`, here `None`. */
  function DaysBetween(first: Option<Date>, last: Option<Date>): (r: Option<int>)
    ensures r.Some? <==> first.Some? && last.Some? && Valid(first.value) && Valid(last.value)
  {
    if first.Some? && last.Some? && Valid(first.value) && Valid(last.value)
    then Some(DaysBetweenInclusive(first.value, last.value))
    else None
  }

  /** `monthsInRangeForMode` (app.js:256-284). */
  function MonthsInRange(mode: string, first: Option<Date>, last: Option<Date>): (r: Option<real>)
    ensures IsMonthMode(mode) ==> r == Some(1.0)
    ensures IsQuarterMode(mode) ==> r == Some(3.0)
    ensures IsYearMode(mode) ==> r == Some(12.0)
    ensures mode == "custom" ==> r.Some? && r.value >= 1.0
    ensures IsWeekMode(mode) ==> (r.Some? <==> DaysBetween(first, last).Some?)
    ensures IsWeekMode(mode) && r.Some? ==> r.value * 30.4375 == DaysBetween(first, last).value as real
    ensures !IsKnownMode(mode) ==> r == None
  {
    if IsMonthMode(mode) then Some(1.0)
    else if IsQuarterMode(mode) then Some(3.0)
    else if IsYearMode(mode) then Some(12.0)
    else if mode == "custom" then
      if first.Some? && last.Some? then
        var months := (last.value.year - first.value.year) * 12 + (last.value.month0 - first.value.month0) + 1;
        Some(if months > 0 then months as real else 1.0)
      else
        // NaN > 0 is false, so an unreadable bound gives 1
        Some(1.0)
    else if IsWeekMode(mode) then
      var days := DaysBetween(first, last);
      if days.Some? then Some(days.value as real / 30.4375) else None
    else None
  }

  /** A custom range counts the calendar months it touches, both ends included. */
  lemma CustomMonthsCount(first: Date, last: Date)
    requires Valid(first) && Valid(last) && DayNumber(first) <= DayNumber(last)
    ensures MonthsInRange("custom", Some(first), Some(last))
         == Some(((last.year - first.year) * 12 + last.month0 - first.month0 + 1) as real)
  {
    DayNumberOrder(last, first);
    if last.year > first.year {
      assert (last.year - first.year) * 12 >= 12;
    }
  }

  lemma DaysBetweenSameDay(d: Date)
    requires Valid(d)
    ensures DaysBetween(Some(d), Some(d)) == Some(1)
  {
    DaysBetweenSame(d);
  }

  // ------------------------------------------------------------------
  // The periods
  // ------------------------------------------------------------------

  function LastWeek(today: Date): (r: (Date, Date))
    requires Valid(today)
    ensures Valid(r.0) && Valid(r.1)
  {
    var last := AddDays(StartOfWeekMonday(today), -1);
    (AddDays(last, -6), last)
  }

  function LastMonth(today: Date): (r: (Date, Date))
    requires Valid(today)
    ensures Valid(r.1)
  {
    var last := AddDays(StartOfMonth(today), -1);
    (JsDate(last.year, last.month0, 1), last)
  }

  function LastQuarter(today: Date): (r: (Date, Date))
    requires Valid(today)
    ensures Valid(r.1)
  {
    var last := AddDays(StartOfQuarter(today), -1);
    (StartOfQuarter(last), last)
  }

  function LastYear(today: Date): (r: (Date, Date))
    requires Valid(today)
    ensures Valid(r.1)
  {
    var last := AddDays(StartOfYear(today), -1);
    (StartOfYear(last), last)
  }

  /** The rolling window ending today that reaches back `months` months. */
  function Rolling(today: Date, months: int): (r: (Date, Date))
    requires Valid(today)
    ensures Valid(r.0) && r.1 == today
  {
    (AddDays(AddMonths(today, -months), 1), today)
  }

  function MakeRange(mode: string, first: Date, last: Date, title: string): (r: Range)
    requires Valid(first) && Valid(last)
    ensures r.first == Some(first) && r.last == Some(last) && r.title == title
  {
    Range(Some(first), Some(last), title, MonthsInRange(mode, Some(first), Some(last)))
  }

  /** `formatISODate(from) + " → " + formatISODate(to)`. */
  function CustomLabel(first: Option<Date>, last: Option<Date>): string {
    FormatParsed(first) + " → " + FormatParsed(last)
  }

  /** The first and last day of every mode's period but "custom" (app.js:294-367). */
  function Period(mode: string, today: Date): (p: (Date, Date))
    requires Valid(today) && IsKnownMode(mode) && mode != "custom"
    ensures Valid(p.0) && Valid(p.1)
  {
    if mode == "thisWeek" then (StartOfWeekMonday(today), EndOfWeekSunday(today))
    else if mode == "thisMonth" then (StartOfMonth(today), EndOfMonth(today))
    else if mode == "thisQuarter" then (StartOfQuarter(today), EndOfQuarter(today))
    else if mode == "thisYear" then (StartOfYear(today), EndOfYear(today))
    else if mode == "lastWeek" then LastWeek(today)
    else if mode == "lastMonth" then LastMonth(today)
    else if mode == "lastQuarter" then LastQuarter(today)
    else if mode == "lastYear" then LastYear(today)
    else if mode == "rollingWeek" then (AddDays(today, -6), today)
    else if mode == "rollingMonth" then Rolling(today, 1)
    else if mode == "rollingQuarter" then Rolling(today, 3)
    else Rolling(today, 12)
  }

  function PeriodTitle(mode: string): string {
    if mode == "thisWeek" then "This week"
    else if mode == "thisMonth" then "This month"
    else if mode == "thisQuarter" then "This quarter"
    else if mode == "thisYear" then "This year"
    else if mode == "lastWeek" then "Last week"
    else if mode == "lastMonth" then "Last month"
    else if mode == "lastQuarter" then "Last quarter"
    else if mode == "lastYear" then "Last year"
    else if mode == "rollingWeek" then "Rolling week"
    else if mode == "rollingMonth" then "Rolling month"
    else if mode == "rollingQuarter" then "Rolling quarter"
    else "Rolling year"
  }

  /**
   * `resolveDateRange` (app.js:289-397) for the stored `mode`, `from` and
   * `to` (the empty string is `null`) at clock time `now`.
   */
  function Resolve(mode: string, fromIso: string, toIso: string, now: Date): (res: Resolution)
    requires Valid(now)
    ensures mode != res.mode ==> !IsKnownMode(mode) && res.mode == "thisMonth"
  {
    var today := StartOfDay(now);
    if mode == "custom" then
      if fromIso != "" && toIso != "" then
        var f, t := ParseISODate(fromIso), ParseISODate(toIso);
        Resolution(Range(f, t, CustomLabel(f, t), MonthsInRange(mode, f, t)), mode)
      else
        Resolution(MakeRange(mode, StartOfMonth(today), EndOfMonth(today), "Custom range"), mode)
    else if IsKnownMode(mode) then
      var p := Period(mode, today);
      Resolution(MakeRange(mode, p.0, p.1, PeriodTitle(mode)), mode)
    else
      var p := Period("thisMonth", today);
      Resolution(MakeRange("thisMonth", p.0, p.1, "This month"), "thisMonth")
  }

  // ------------------------------------------------------------------
  // Properties of the resolved periods
  // ------------------------------------------------------------------

  /** A clock reading the dashboard treats as today: a valid date from year 101 on. */
  predicate Modern(now: Date) {
    Valid(now) && now.year >= 101
  }

  lemma TodayIsNow(now: Date)
    requires Modern(now)
    ensures StartOfDay(now) == now
  {
  }

  /** Last week ends the day before this week's Monday and is seven days long. */
  lemma LastWeekBounds(today: Date)
    requires Modern(today)
    ensures DayNumber(LastWeek(today).1) + 1 == DayNumber(StartOfWeekMonday(today))
    ensures DayNumber(LastWeek(today).0) + 6 == DayNumber(LastWeek(today).1)
    ensures Weekday(LastWeek(today).0) == 1
  {
    var monday := StartOfWeekMonday(today);
    var last := AddDays(monday, -1);
    var first := AddDays(last, -6);
    assert LastWeek(today) == (first, last);
    WeekStartIsMonday(today);
    WeekdayWeekBack(DayNumber(monday), DayNumber(first));
  }

  /** Seven days back is the same weekday. */
  lemma WeekdayWeekBack(n: int, m: int)
    requires m == n - 1 - 6
    ensures WeekdayOf(m) == WeekdayOf(n)
  {
    assert m + 6 == (n + 6) - 7;
  }

  /** Last month runs from the first to the last day of the month before today's. */
  lemma LastMonthBounds(today: Date)
    requires Modern(today)
    ensures LastMonth(today).1 == EndOfMonth(LastMonth(today).1)
    ensures LastMonth(today).0 == StartOfMonth(LastMonth(today).1)
    ensures DayNumber(LastMonth(today).1) + 1 == DayNumber(StartOfMonth(today))
    ensures Valid(LastMonth(today).0)
    ensures DayNumber(LastMonth(today).0) <= DayNumber(LastMonth(today).1)
  {
    var y, m := today.year, today.month0;
    FirstOfMonth(y, m);
    DayBeforeFirst(y, m);
    var toIso := LastMonth(today).1;
    MonthPeriod(toIso);
  }

  /** Last quarter runs from the first day of the previous quarter to its last day. */
  lemma LastQuarterBounds(today: Date)
    requires Modern(today)
    ensures LastQuarter(today).1 == EndOfQuarter(LastQuarter(today).1)
    ensures LastQuarter(today).0 == StartOfQuarter(LastQuarter(today).1)
    ensures DayNumber(LastQuarter(today).1) + 1 == DayNumber(StartOfQuarter(today))
    ensures Valid(LastQuarter(today).0)
    ensures DayNumber(LastQuarter(today).0) <= DayNumber(LastQuarter(today).1)
  {
    var y, q := today.year, 3 * (today.month0 / 3);
    QuarterPeriod(today);
    QuarterFirstMonths(today.month0);
    QuarterBefore(y, q);
  }

  /** The day before a quarter's first day closes the previous quarter. */
  lemma QuarterBefore(y: int, q: int)
    requires y >= 101 && (q == 0 || q == 3 || q == 6 || q == 9)
    ensures var last := AddDays(Date(y, q, 1), -1);
      Valid(last) && last == EndOfQuarter(last) && last.year >= 100
      && StartOfQuarter(last) == Date(last.year, last.month0 - 2, 1)
      && DayNumber(StartOfQuarter(last)) <= DayNumber(last)
  {
    DayBeforeFirst(y, q);
    var last := AddDays(Date(y, q, 1), -1);
    if q == 0 {
      assert last == Date(y - 1, 11, 31);
    } else {
      assert last == Date(y, q - 1, DaysInMonth(y, q - 1));
    }
    QuarterEnd(last);
  }

  lemma QuarterFirstMonths(m: int)
    requires 0 <= m < 12
    ensures var q := 3 * (m / 3); q == 0 || q == 3 || q == 6 || q == 9
  {
    if m < 3 {
      assert m / 3 == 0;
    } else if m < 6 {
      assert m / 3 == 1;
    } else if m < 9 {
      assert m / 3 == 2;
    } else {
      assert m / 3 == 3;
    }
  }

  /** The last day of a quarter's third month is its own quarter end. */
  lemma QuarterEnd(d: Date)
    requires Valid(d) && d.month0 % 3 == 2 && d.day == DaysInMonth(d.year, d.month0) && d.year >= 100
    ensures d == EndOfQuarter(d)
    ensures StartOfQuarter(d) == Date(d.year, d.month0 - 2, 1)
    ensures DayNumber(StartOfQuarter(d)) <= DayNumber(d)
  {
    QuarterPeriod(d);
    assert 3 * (d.month0 / 3) + 2 == d.month0;
  }

  /** Last year runs from 1 January to 31 December of the year before today's. */
  lemma LastYearBounds(today: Date)
    requires Modern(today)
    ensures LastYear(today) == (Date(today.year - 1, 0, 1), Date(today.year - 1, 11, 31))
    ensures DayNumber(LastYear(today).1) + 1 == DayNumber(StartOfYear(today))
  {
    var y := today.year;
    var start := StartOfYear(today);
    FirstOfMonth(y, 0);
    assert start == Date(y, 0, 1);
    var last := AddDays(start, -1);
    DayBeforeFirst(y, 0);
    assert last == Date(y - 1, 11, 31);
    FirstOfMonth(y - 1, 0);
    assert StartOfYear(last) == Date(y - 1, 0, 1);
    assert LastYear(today) == (StartOfYear(last), last);
  }

  /** A rolling window of `k >= 1` months starts after the same day `k` months back and not after today. */
  lemma RollingBounds(today: Date, k: nat)
    requires Valid(today) && k >= 1
    ensures DayNumber(Rolling(today, k).0) == MonthStart(today.year, today.month0 - k) + today.day
    ensures DayNumber(Rolling(today, k).0) <= DayNumber(today)
  {
    RollingFirst(today, k);
    MonthsBackEarlier(today.year, today.month0, k);
    MonthStartNormal(today.year, today.month0);
  }

  /** The window's first day is the day after the same day `k` months back. */
  lemma RollingFirst(today: Date, k: nat)
    requires Valid(today)
    ensures DayNumber(Rolling(today, k).0) == MonthStart(today.year, today.month0 - k) + today.day
  {
    var back := AddMonths(today, -(k as int));
    assert DayNumber(back) == MonthStart(today.year, today.month0 + -(k as int)) + today.day - 1;
    SameMonthStart(today.year, today.month0 + -(k as int), today.month0 - k);
  }

  lemma SameMonthStart(y: int, a: int, b: int)
    requires a == b
    ensures MonthStart(y, a) == MonthStart(y, b)
  {
  }

  /** The first of a month `k >= 1` months back starts at least 28 days earlier. */
  lemma MonthsBackEarlier(y: int, m: int, k: nat)
    requires k >= 1
    ensures MonthStart(y, m - k) + 28 <= MonthStart(y, m)
  {
    MonthStartMonotone(y, m - k, k);
    assert m - k + k == m;
  }

  /** Every period but "custom" runs forward: its first day is not after its last. */
  lemma PeriodOrdered(mode: string, today: Date)
    requires Modern(today) && IsKnownMode(mode) && mode != "custom"
    ensures DayNumber(Period(mode, today).0) <= DayNumber(Period(mode, today).1)
  {
    if mode == "thisWeek" {
      WeekStartIsMonday(today);
    } else if mode == "thisMonth" {
      MonthPeriod(today);
    } else if mode == "thisQuarter" {
      QuarterPeriod(today);
    } else if mode == "thisYear" {
      YearPeriod(today);
    } else if mode == "lastWeek" {
      LastWeekBounds(today);
    } else if mode == "lastMonth" {
      LastMonthBounds(today);
    } else if mode == "lastQuarter" {
      LastQuarterBounds(today);
    } else if mode == "lastYear" {
      LastYearBounds(today);
    } else if mode == "rollingMonth" {
      RollingBounds(today, 1);
    } else if mode == "rollingQuarter" {
      RollingBounds(today, 3);
    } else if mode == "rollingYear" {
      RollingBounds(today, 12);
    }
  }

  /** Every mode but "custom" resolves to two valid dates in order. */
  lemma NonCustomOrdered(mode: string, fromIso: string, toIso: string, now: Date)
    requires Modern(now) && mode != "custom"
    ensures var r := Resolve(mode, fromIso, toIso, now).range;
      r.first.Some? && r.last.Some? && Valid(r.first.value) && Valid(r.last.value)
      && DayNumber(r.first.value) <= DayNumber(r.last.value)
  {
    TodayIsNow(now);
    if IsKnownMode(mode) {
      PeriodOrdered(mode, now);
    } else {
      PeriodOrdered("thisMonth", now);
    }
  }

  /** The rolling modes end today; the rolling week covers seven days. */
  lemma RollingEndsToday(mode: string, fromIso: string, toIso: string, now: Date)
    requires Modern(now) && IsRollingMode(mode)
    ensures Resolve(mode, fromIso, toIso, now).range.last == Some(now)
    ensures mode == "rollingWeek" ==>
      DaysBetween(Resolve(mode, fromIso, toIso, now).range.first, Resolve(mode, fromIso, toIso, now).range.last) == Some(7)
  {
    TodayIsNow(now);
    assert IsKnownMode(mode) && mode != "custom";
    var p := Period(mode, now);
    assert p.1 == now;
    var r := Resolve(mode, fromIso, toIso, now).range;
    assert r == MakeRange(mode, p.0, p.1, PeriodTitle(mode));
    if mode == "rollingWeek" {
      assert p.0 == AddDays(now, -6);
      YearOfDayNumber(now);
      YearStepMonotone(100, now.year);
      YearAtLeast(p.0, 100);
      assert DaysBetween(r.first, r.last) == Some(DaysBetweenInclusive(p.0, now));
    }
  }

  /** The kinds of the presets the averages are stated for. */
  lemma PresetKinds()
    ensures IsMonthMode("thisMonth") && IsMonthMode("lastMonth")
    ensures IsQuarterMode("lastQuarter") && IsYearMode("thisYear")
  {
  }

  /** A month, quarter or year preset counts the months its kind promises, whatever the stored custom bounds. */
  lemma ResolvedMonths(mode: string, fromIso: string, toIso: string, now: Date)
    requires Valid(now) && (IsMonthMode(mode) || IsQuarterMode(mode) || IsYearMode(mode))
    ensures Resolve(mode, fromIso, toIso, now).range.monthsInRange == MonthsInRange(mode, None, None)
  {
    var p := Period(mode, StartOfDay(now));
    assert Resolve(mode, fromIso, toIso, now).range == MakeRange(mode, p.0, p.1, PeriodTitle(mode));
  }

  /** An unknown mode shows this month and is rewritten to "thisMonth". */
  lemma UnknownModeFallsBack(mode: string, fromIso: string, toIso: string, now: Date)
    requires Modern(now) && !IsKnownMode(mode)
    ensures Resolve(mode, fromIso, toIso, now).mode == "thisMonth"
    ensures Resolve(mode, fromIso, toIso, now).range == Resolve("thisMonth", fromIso, toIso, now).range
    ensures Resolve(mode, fromIso, toIso, now).range.first == Some(Date(now.year, now.month0, 1))
    ensures Resolve(mode, fromIso, toIso, now).range.last == Some(Date(now.year, now.month0, DaysInMonth(now.year, now.month0)))
  {
    TodayIsNow(now);
    MonthPeriod(now);
  }

  /** Custom mode without both stored bounds shows this month, under its own label. */
  lemma CustomWithoutBounds(fromIso: string, toIso: string, now: Date)
    requires Modern(now) && (fromIso == "" || toIso == "")
    ensures Resolve("custom", fromIso, toIso, now).mode == "custom"
    ensures Resolve("custom", fromIso, toIso, now).range.first == Resolve("thisMonth", fromIso, toIso, now).range.first
    ensures Resolve("custom", fromIso, toIso, now).range.last == Resolve("thisMonth", fromIso, toIso, now).range.last
    ensures Resolve("custom", fromIso, toIso, now).range.title == "Custom range"
  {
  }

  /** Custom bounds written by `formatISODate` come back as the same dates. */
  lemma CustomBoundsRoundTrip(a: Date, b: Date, now: Date)
    requires Valid(now) && Valid(a) && Valid(b) && a.year >= 100 && b.year >= 100
    ensures Resolve("custom", FormatISODate(a), FormatISODate(b), now).range.first == Some(a)
    ensures Resolve("custom", FormatISODate(a), FormatISODate(b), now).range.last == Some(b)
  {
    ParseFormat(a);
    ParseFormat(b);
    assert |FormatISODate(a)| > 0;
    assert |FormatISODate(b)| > 0;
  }

  // ------------------------------------------------------------------
  // The stored filter
  // ------------------------------------------------------------------

  /** The message the custom-range inputs show when "From" is after "To". */
  const OrderError := "From must be ≤ To"

  /** `state.dateFilter`: the mode and the custom bounds ("" stands for `null`). */
  class DateFilter {
    var mode: string
    var fromIso: string
    var toIso: string

    /** The custom bounds are stored together or not at all. */
    predicate Valid()
      reads this
    {
      (fromIso == "") == (toIso == "")
    }

    constructor ()
      ensures Valid() && mode == "thisMonth" && fromIso == "" && toIso == ""
    {
      mode := "thisMonth";
      fromIso := "";
      toIso := "";
    }

    /** `resolveDateRange`: resolves the stored filter, rewriting an unknown mode. */
    method ResolveDateRange(now: Calendar.Date) returns (r: Range)
      requires Calendar.Valid(now)
      modifies this`mode
      ensures r == Resolve(old(mode), fromIso, toIso, now).range
      ensures mode == Resolve(old(mode), fromIso, toIso, now).mode
      ensures IsKnownMode(old(mode)) ==> mode == old(mode)
    {
      var res := Resolve(mode, fromIso, toIso, now);
      mode := res.mode;
      r := res.range;
    }

    /**
     * The period dropdown's change handler (app.js:733-750): switching to
     * "custom" seeds missing bounds from the range on screen; any other
     * mode clears them.
     */
    method SelectMode(newMode: string, current: Range)
      requires Valid()
      modifies this
      ensures Valid() && mode == newMode
      ensures newMode != "custom" ==> fromIso == "" && toIso == ""
      ensures newMode == "custom" && old(fromIso) != "" ==> fromIso == old(fromIso) && toIso == old(toIso)
      ensures newMode == "custom" && old(fromIso) == "" ==>
        fromIso == FormatParsed(current.first) && toIso == FormatParsed(current.last)
    {
      mode := newMode;
      if newMode == "custom" {
        if fromIso == "" || toIso == "" {
          fromIso := FormatParsed(current.first);
          toIso := FormatParsed(current.last);
        }
      } else {
        fromIso := "";
        toIso := "";
      }
    }

    /**
     * The custom-range inputs' `validateAndApply` (app.js:779-794): both
     * values must be present and "From" must not sort after "To".
     */
    method ApplyCustomBounds(f: string, t: string) returns (message: string)
      requires Valid()
      modifies this`fromIso, this`toIso
      ensures Valid()
      ensures f != "" && t != "" && !Less(t, f) ==> fromIso == f && toIso == t && message == ""
      ensures f == "" || t == "" ==> fromIso == old(fromIso) && toIso == old(toIso) && message == ""
      ensures f != "" && t != "" && Less(t, f) ==> fromIso == old(fromIso) && toIso == old(toIso) && message == OrderError
    {
      if f == "" || t == "" {
        message := "";
        return;
      }
      if Less(t, f) {
        message := OrderError;
        return;
      }
      message := "";
      fromIso := f;
      toIso := t;
    }
  }

  /** Bounds accepted by the custom-range guard resolve to an ordered range. */
  lemma AcceptedCustomRangeOrdered(a: Date, b: Date, now: Date)
    requires Valid(now) && Valid(a) && Valid(b) && 1000 <= a.year <= 9999 && 1000 <= b.year <= 9999
    requires !Less(FormatISODate(b), FormatISODate(a))
    ensures var r := Resolve("custom", FormatISODate(a), FormatISODate(b), now).range;
      r.first == Some(a) && r.last == Some(b) && DayNumber(a) <= DayNumber(b)
  {
    CustomBoundsRoundTrip(a, b, now);
    StringOrderIsDateOrder(b, a);
  }
}
