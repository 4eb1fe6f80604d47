/**
 * `parseISODate` and `formatISODate` (app.js:175-189): the "YYYY-MM-DD"
 * strings the dashboard stores in transactions and in the custom range.
 * An `Invalid Date` (any part that `parseInt` reads as `NaN`) is `None`.
 */
module IsoDate {
  import opened Wrappers
  import opened Text
  import opened Calendar

  /** `parseISODate`: split on "-", read three integers, `new Date(y, m - 1, d)`. */
  function ParseISODate(s: string): (r: Option<Date>)
    ensures r.Some? ==> Valid(r.value)
  {
    var parts := Split(s, '-');
    if |parts| < 3 then None
    else
      var y, m, d := ParseInt(parts[0]), ParseInt(parts[1]), ParseInt(parts[2]);
      if y.None? || m.None? || d.None? then None
      else Some(JsDate(y.value, m.value - 1, d.value))
  }

  /** `formatISODate`: `String(year)`, then month and day padded to two digits. */
  function FormatISODate(d: Date): string
    requires Valid(d)
  {
    IntToString(d.year) + "-" + Pad2(NatToString(d.month0 + 1)) + "-" + Pad2(NatToString(d.day))
  }

  /** `formatISODate` of what `parseISODate` returned; an `Invalid Date` prints as "NaN-NaN-NaN". */
  function FormatParsed(o: Option<Date>): string {
    if o.None? then "NaN-NaN-NaN" else if Valid(o.value) then FormatISODate(o.value) else "NaN-NaN-NaN"
  }

  /** A year without a sign is printed by its digits alone. */
  lemma FormatNonNegative(d: Date)
    requires Valid(d) && d.year >= 0
    ensures FormatISODate(d) == NatToString(d.year) + "-" + Pad2(NatToString(d.month0 + 1)) + "-" + Pad2(NatToString(d.day))
  {
  }

  /** Three dash-free fields joined by dashes split back into the three. */
  lemma SplitTriple(y: string, m: string, dd: string)
    requires '-' !in y && '-' !in m && '-' !in dd
    ensures Split(y + "-" + m + "-" + dd, '-') == [y, m, dd]
  {
    assert y + "-" + m + "-" + dd == y + ['-'] + (m + ['-'] + dd);
    SplitCons(y, '-', m + ['-'] + dd);
    SplitCons(m, '-', dd);
    SplitNoSep(dd, '-');
  }

  /** The three fields of a formatted date, for a year without a sign. */
  lemma FormatFields(d: Date)
    requires Valid(d) && d.year >= 0
    ensures Split(FormatISODate(d), '-')
         == [NatToString(d.year), Pad2(NatToString(d.month0 + 1)), Pad2(NatToString(d.day))]
  {
    FormatNonNegative(d);
    Pad2Value(NatToString(d.month0 + 1));
    Pad2Value(NatToString(d.day));
    SplitTriple(NatToString(d.year), Pad2(NatToString(d.month0 + 1)), Pad2(NatToString(d.day)));
  }

  lemma ParsePadded(n: nat)
    ensures ParseInt(Pad2(NatToString(n))) == Some(n)
  {
    var s := NatToString(n);
    Pad2Value(s);
    ParseIntDigits(Pad2(s));
    NatToStringValue(n);
  }

  /**
   * Parsing a formatted date gives the date back, for years from 100 on
   * (the constructor reads 0..99 as 1900..1999, and a negative year's sign
   * is taken for a separator).
   */
  lemma ParseFormat(d: Date)
    requires Valid(d) && d.year >= 100
    ensures ParseISODate(FormatISODate(d)) == Some(d)
  {
    FormatFields(d);
    ParseIntOfNat(d.year);
    ParsePadded(d.month0 + 1);
    ParsePadded(d.day);
    JsDateOfValid(d);
  }

  /** Formatting is one-to-one on the dates it round-trips. */
  lemma FormatInjective(a: Date, b: Date)
    requires Valid(a) && a.year >= 100 && Valid(b) && b.year >= 100
    requires FormatISODate(a) == FormatISODate(b)
    ensures a == b
  {
    ParseFormat(a);
    ParseFormat(b);
  }

  /** Calendar order of valid dates is the order of (year, month, day). */
  lemma DayNumberOrder(a: Date, b: Date)
    requires Valid(a) && Valid(b)
    ensures DayNumber(a) < DayNumber(b) <==>
      a.year < b.year || (a.year == b.year && (a.month0 < b.month0 || (a.month0 == b.month0 && a.day < b.day)))
  {
    YearOfDayNumber(a);
    YearOfDayNumber(b);
    if a.year < b.year {
      YearStepMonotone(a.year + 1, b.year);
    } else if b.year < a.year {
      YearStepMonotone(b.year + 1, a.year);
    } else if a.month0 < b.month0 {
      MonthStrict(a.year, a.month0, b.month0);
    } else if b.month0 < a.month0 {
      MonthStrict(a.year, b.month0, a.month0);
    }
  }

  lemma FourDigits(n: nat)
    requires 1000 <= n <= 9999
    ensures |NatToString(n)| == 4
  {
    assert |NatToString(n / 10 / 10 / 10)| == 1;
    assert |NatToString(n / 10 / 10)| == 2;
    assert |NatToString(n / 10)| == 3;
  }

  lemma TwoDigits(n: nat)
    requires 1 <= n <= 99
    ensures |Pad2(NatToString(n))| == 2 && AllDigits(Pad2(NatToString(n)))
    ensures DigitsValue(Pad2(NatToString(n))) == n
  {
    NatToStringValue(n);
    Pad2Value(NatToString(n));
    if n >= 10 {
      assert 1 <= n / 10 <= 9;
    }
  }

  /** Dash-joined triples with fields of equal widths compare field by field. */
  lemma {:induction false} TripleLess(ya: string, ma: string, da: string, yb: string, mb: string, db: string)
    requires |ya| == |yb| && |ma| == |mb|
    ensures Less(ya + "-" + ma + "-" + da, yb + "-" + mb + "-" + db) <==>
      Less(ya, yb) || (ya == yb && (Less(ma, mb) || (ma == mb && Less(da, db))))
  {
    assert ya + "-" + ma + "-" + da == ya + ("-" + ma + ("-" + da));
    assert yb + "-" + mb + "-" + db == yb + ("-" + mb + ("-" + db));
    LessAppend(ya, "-" + ma + ("-" + da), yb, "-" + mb + ("-" + db));
    LessAppend("-" + ma, "-" + da, "-" + mb, "-" + db);
    LessAppend("-", ma, "-", mb);
    LessAppend("-", da, "-", db);
    LessIrreflexive("-");
    if "-" + ma == "-" + mb {
      assert ma == ("-" + ma)[1..];
    }
  }

  lemma YearField(x: nat, y: nat)
    requires 1000 <= x <= 9999 && 1000 <= y <= 9999
    ensures |NatToString(x)| == |NatToString(y)|
    ensures Less(NatToString(x), NatToString(y)) <==> x < y
    ensures NatToString(x) == NatToString(y) <==> x == y
  {
    FourDigits(x);
    FourDigits(y);
    NatToStringValue(x);
    NatToStringValue(y);
    LessDigits(NatToString(x), NatToString(y));
  }

  lemma PaddedField(x: nat, y: nat)
    requires 1 <= x <= 99 && 1 <= y <= 99
    ensures |Pad2(NatToString(x))| == |Pad2(NatToString(y))|
    ensures Less(Pad2(NatToString(x)), Pad2(NatToString(y))) <==> x < y
    ensures Pad2(NatToString(x)) == Pad2(NatToString(y)) <==> x == y
  {
    TwoDigits(x);
    TwoDigits(y);
    LessDigits(Pad2(NatToString(x)), Pad2(NatToString(y)));
  }

  /** Dash-joined fields whose orders agree with numbers compare as the number triples. */
  lemma TripleLex(sy: string, sm: string, sd: string, ty: string, tm: string, td: string,
                  ya: int, ma: int, da: int, yb: int, mb: int, db: int)
    requires |sy| == |ty| && |sm| == |tm|
    requires (Less(sy, ty) <==> ya < yb) && (sy == ty <==> ya == yb)
    requires (Less(sm, tm) <==> ma < mb) && (sm == tm <==> ma == mb) && (Less(sd, td) <==> da < db)
    ensures Less(sy + "-" + sm + "-" + sd, ty + "-" + tm + "-" + td)
      <==> ya < yb || (ya == yb && (ma < mb || (ma == mb && da < db)))
  {
    TripleLess(sy, sm, sd, ty, tm, td);
  }

  /** Padded month and day fields after year fields of equal width compare as (year, month, day). */
  lemma PaddedTripleOrder(sy: string, ty: string, ya: int, ma: nat, da: nat, yb: int, mb: nat, db: nat)
    requires |sy| == |ty|
    requires (Less(sy, ty) <==> ya < yb) && (sy == ty <==> ya == yb)
    requires 1 <= ma <= 12 && 1 <= mb <= 12 && 1 <= da <= 31 && 1 <= db <= 31
    ensures Less(sy + "-" + Pad2(NatToString(ma)) + "-" + Pad2(NatToString(da)),
                 ty + "-" + Pad2(NatToString(mb)) + "-" + Pad2(NatToString(db)))
      <==> ya < yb || (ya == yb && (ma < mb || (ma == mb && da < db)))
  {
    PaddedField(ma, mb);
    PaddedField(da, db);
    TripleLex(sy, Pad2(NatToString(ma)), Pad2(NatToString(da)), ty, Pad2(NatToString(mb)), Pad2(NatToString(db)),
              ya, ma, da, yb, mb, db);
  }

  /** For four-digit years, formatted dates compare as strings like their (year, month, day) triples. */
  lemma FormatOrder(a: Date, b: Date)
    requires Valid(a) && Valid(b) && 1000 <= a.year <= 9999 && 1000 <= b.year <= 9999
    ensures Less(FormatISODate(a), FormatISODate(b))
      <==> a.year < b.year || (a.year == b.year && (a.month0 + 1 < b.month0 + 1 || (a.month0 + 1 == b.month0 + 1 && a.day < b.day)))
  {
    FormatNonNegative(a);
    FormatNonNegative(b);
    MonthLengthRange(a.year, a.month0);
    MonthLengthRange(b.year, b.month0);
    YearField(a.year, b.year);
    PaddedTripleOrder(NatToString(a.year), NatToString(b.year), a.year, a.month0 + 1, a.day, b.year, b.month0 + 1, b.day);
  }

  /**
   * For four-digit years, comparing formatted dates as strings (what the
   * custom-range guard and the transaction date filter do) is comparing
   * the dates.
   */
  lemma StringOrderIsDateOrder(a: Date, b: Date)
    requires Valid(a) && Valid(b) && 1000 <= a.year <= 9999 && 1000 <= b.year <= 9999
    ensures Less(FormatISODate(a), FormatISODate(b)) <==> DayNumber(a) < DayNumber(b)
  {
    FormatOrder(a, b);
    DayNumberOrder(a, b);
  }
}
