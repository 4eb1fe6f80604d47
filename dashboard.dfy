/**
 * The dashboard statement of app.js: keep the transactions of the resolved
 * range (app.js:402-412), classify each as income or expense
 * (app.js:426-432), group them by category in insertion order
 * (app.js:434-454), and total the groups (app.js:506-536).
 */
module Dashboard {
  import opened Wrappers
  import opened Seqs
  import opened Calendar
  import opened IsoDate
  import opened DateRange
  import opened Records

  // ------------------------------------------------------------------
  // Filtering by range
  // ------------------------------------------------------------------

  /**
   * The filter of `getFilteredTransactionsForDashboard`: the transaction's
   * date, read with `parseISODate` and taken to the start of its day, lies
   * between the range's bounds. Every comparison with an `Invalid Date` is
   * false, so an unreadable date or bound keeps nothing.
   */
  predicate InRange(tx: Transaction, first: Option<Date>, last: Option<Date>) {
    var d := ParseISODate(tx.date);
    d.Some? && first.Some? && last.Some? && Valid(first.value) && Valid(last.value)
    && DayNumber(StartOfDay(first.value)) <= DayNumber(StartOfDay(d.value))
    && DayNumber(StartOfDay(d.value)) <= DayNumber(StartOfDay(last.value))
  }

  /** `getFilteredTransactionsForDashboard` for a resolved range. */
  function FilterForDashboard(txs: seq<Transaction>, r: Range): seq<Transaction> {
    Filter(txs, tx => InRange(tx, r.first, r.last))
  }

  /** The dashboard keeps every copy of a transaction in the range, and nothing else. */
  lemma DashboardFilterKeeps(txs: seq<Transaction>, r: Range, tx: Transaction)
    ensures tx in FilterForDashboard(txs, r) <==> tx in txs && InRange(tx, r.first, r.last)
    ensures multiset(FilterForDashboard(txs, r))[tx] == if InRange(tx, r.first, r.last) then multiset(txs)[tx] else 0
  {
    FilterCounts(txs, tx => InRange(tx, r.first, r.last), tx);
  }

  /** A transaction dated on a bound of the range is kept. */
  lemma BoundsIncluded(tx: Transaction, a: Date, b: Date)
    requires Valid(a) && Valid(b) && a.year >= 100 && b.year >= 100
    requires DayNumber(a) <= DayNumber(b)
    requires tx.date == FormatISODate(a) || tx.date == FormatISODate(b)
    ensures InRange(tx, Some(a), Some(b))
  {
    ParseFormat(a);
    ParseFormat(b);
  }

  /** A range with an unreadable bound shows no transactions at all. */
  lemma InvalidBoundKeepsNothing(txs: seq<Transaction>, r: Range)
    requires r.first.None? || r.last.None?
    ensures FilterForDashboard(txs, r) == []
  {
    var out := FilterForDashboard(txs, r);
    if out != [] {
      DashboardFilterKeeps(txs, r, out[0]);
    }
  }

  // ------------------------------------------------------------------
  // Classification
  // ------------------------------------------------------------------

  /**
   * `getCategoryTypeForTx`: the category's type when it is exactly "income"
   * or "expense", otherwise the sign of the amount (zero counts as income).
   */
  function CategoryTypeForTx(cats: seq<Category>, tx: Transaction): (kind: string)
    ensures kind == "income" || kind == "expense"
  {
    var cat := GetCategoryById(cats, tx.categoryId);
    if cat.Some? && (cat.value.kind == "income" || cat.value.kind == "expense") then cat.value.kind
    else if tx.amount >= 0.0 then "income"
    else "expense"
  }

  /** A typed category decides; anything else falls back on the sign. */
  lemma CategoryTypeCases(cats: seq<Category>, tx: Transaction)
    ensures var cat := GetCategoryById(cats, tx.categoryId);
      if cat.Some? && (cat.value.kind == "income" || cat.value.kind == "expense")
      then CategoryTypeForTx(cats, tx) == cat.value.kind
      else (CategoryTypeForTx(cats, tx) == "income" <==> tx.amount >= 0.0)
  {
  }

  /** The bucket a transaction is added to: its category, or the unmapped bucket of its kind. */
  function BucketKey(cats: seq<Category>, tx: Transaction): (key: string)
    ensures tx.categoryId != "" ==> key == tx.categoryId
    ensures tx.categoryId == "" ==>
      key == (if CategoryTypeForTx(cats, tx) == "income" then "unmapped-income" else "unmapped-expense")
  {
    if tx.categoryId != "" then tx.categoryId
    else if CategoryTypeForTx(cats, tx) == "income" then "unmapped-income"
    else "unmapped-expense"
  }

  // ------------------------------------------------------------------
  // Aggregation
  // ------------------------------------------------------------------

  /** One entry of the object `aggregateByCategory` builds. */
  datatype Bucket = Bucket(categoryId: string, kind: string, amount: real)

  /** The keys in the order they are first met (the order `Object.keys` reports them). */
  function Keys(cats: seq<Category>, txs: seq<Transaction>): (ks: seq<string>)
    ensures Distinct(ks)
  {
    if txs == [] then []
    else
      var ks := Keys(cats, txs[..|txs| - 1]);
      var k := BucketKey(cats, txs[|txs| - 1]);
      if k in ks then ks else ks + [k]
  }

  /** The keys are exactly the buckets some transaction is filed under. */
  lemma {:induction false} KeysMembers(cats: seq<Category>, txs: seq<Transaction>, key: string)
    ensures key in Keys(cats, txs) <==> exists i :: 0 <= i < |txs| && BucketKey(cats, txs[i]) == key
  {
    if txs != [] {
      var prefix := txs[..|txs| - 1];
      KeysMembers(cats, prefix, key);
      if key in Keys(cats, prefix) {
        var i :| 0 <= i < |prefix| && BucketKey(cats, prefix[i]) == key;
        assert txs[i] == prefix[i];
      }
      if exists i :: 0 <= i < |txs| && BucketKey(cats, txs[i]) == key {
        var i :| 0 <= i < |txs| && BucketKey(cats, txs[i]) == key;
        if i < |prefix| {
          assert prefix[i] == txs[i];
        }
      }
    }
  }

  /** The total amount of the transactions filed under `key`. */
  function SumFor(cats: seq<Category>, txs: seq<Transaction>, key: string): real {
    if txs == [] then 0.0
    else
      var t := txs[|txs| - 1];
      SumFor(cats, txs[..|txs| - 1], key) + (if BucketKey(cats, t) == key then t.amount else 0.0)
  }

  /** The kind the bucket `key` was created with: that of its first transaction. */
  function FirstKind(cats: seq<Category>, txs: seq<Transaction>, key: string): string {
    if txs == [] then ""
    else
      var prefix := txs[..|txs| - 1];
      if key in Keys(cats, prefix) then FirstKind(cats, prefix, key)
      else CategoryTypeForTx(cats, txs[|txs| - 1])
  }

  /** The result of `aggregateByCategory`, as a value. */
  function Aggregate(cats: seq<Category>, txs: seq<Transaction>): (rows: seq<Bucket>)
    ensures |rows| == |Keys(cats, txs)|
    ensures forall j :: 0 <= j < |rows| ==> rows[j].categoryId == Keys(cats, txs)[j]
  {
    var ks := Keys(cats, txs);
    seq(|ks|, j requires 0 <= j < |ks| => Bucket(ks[j], FirstKind(cats, txs, ks[j]), SumFor(cats, txs, ks[j])))
  }

  /** The object built so far holds, in key order, the buckets of `done`. */
  ghost predicate Accumulated(cats: seq<Category>, done: seq<Transaction>, order: seq<string>, buckets: map<string, Bucket>) {
    && order == Keys(cats, done)
    && (forall k :: k in buckets <==> k in order)
    && forall k :: k in buckets ==> buckets[k] == Bucket(k, FirstKind(cats, done, k), SumFor(cats, done, k))
  }

  /** The bucket `tx` lands in after it is added. */
  ghost function Added(cats: seq<Category>, buckets: map<string, Bucket>, tx: Transaction): Bucket {
    var id := BucketKey(cats, tx);
    var b := if id in buckets then buckets[id] else Bucket(id, CategoryTypeForTx(cats, tx), 0.0);
    b.(amount := b.amount + tx.amount)
  }

  /**
   * `aggregateByCategory`: one pass over the transactions, creating a
   * bucket the first time a key is met and adding each amount to it.
   */
  method AggregateByCategory(cats: seq<Category>, txs: seq<Transaction>) returns (rows: seq<Bucket>)
    ensures rows == Aggregate(cats, txs)
  {
    var order: seq<string> := [];
    var buckets: map<string, Bucket> := map[];
    for i := 0 to |txs|
      invariant Accumulated(cats, txs[..i], order, buckets)
    {
      assert txs[..i + 1] == txs[..i] + [txs[i]];
      AccumulateStep(cats, txs[..i], txs[i], order, buckets);
      ghost var buckets0 := buckets;
      var tx := txs[i];
      var kind := CategoryTypeForTx(cats, tx);
      var id := BucketKey(cats, tx);
      var b := if id in buckets then buckets[id] else Bucket(id, kind, 0.0);
      if id !in buckets {
        order := order + [id];
      }
      assert b.(amount := b.amount + tx.amount) == Added(cats, buckets0, tx);
      buckets := buckets[id := b.(amount := b.amount + tx.amount)];
    }
    assert txs[..|txs|] == txs;
    rows := seq(|order|, j requires 0 <= j < |order| => buckets[order[j]]);
    assert forall j :: 0 <= j < |rows| ==> rows[j] == Aggregate(cats, txs)[j];
  }

  lemma AccumulateStep(cats: seq<Category>, done: seq<Transaction>, tx: Transaction, order: seq<string>, buckets: map<string, Bucket>)
    requires Accumulated(cats, done, order, buckets)
    ensures var id := BucketKey(cats, tx);
      Accumulated(cats, done + [tx], if id in buckets then order else order + [id], buckets[id := Added(cats, buckets, tx)])
  {
    var next := done + [tx];
    var id := BucketKey(cats, tx);
    var buckets' := buckets[id := Added(cats, buckets, tx)];
    AppendStep(cats, done, tx);
    forall k | k in buckets' ensures buckets'[k] == Bucket(k, FirstKind(cats, next, k), SumFor(cats, next, k)) {
      if k == id && id !in buckets {
        SumForAbsent(cats, done, id);
      }
    }
  }

  /** What one more transaction does to the keys, the sums and the kinds. */
  lemma AppendStep(cats: seq<Category>, done: seq<Transaction>, tx: Transaction)
    ensures var key := BucketKey(cats, tx);
      && Keys(cats, done + [tx]) == (if key in Keys(cats, done) then Keys(cats, done) else Keys(cats, done) + [key])
      && (forall k :: SumFor(cats, done + [tx], k) == SumFor(cats, done, k) + (if key == k then tx.amount else 0.0))
      && (forall k :: FirstKind(cats, done + [tx], k)
            == if k in Keys(cats, done) then FirstKind(cats, done, k) else CategoryTypeForTx(cats, tx))
  {
    assert (done + [tx])[..|done|] == done;
  }

  /** A key that no transaction is filed under sums to nothing. */
  lemma {:induction false} SumForAbsent(cats: seq<Category>, txs: seq<Transaction>, key: string)
    requires key !in Keys(cats, txs)
    ensures SumFor(cats, txs, key) == 0.0
  {
    if txs != [] {
      var prefix := txs[..|txs| - 1];
      assert forall k :: k in Keys(cats, prefix) ==> k in Keys(cats, txs);
      SumForAbsent(cats, prefix, key);
    }
  }

  /** The kind a bucket is created with is that of the first transaction filed under it. */
  lemma {:induction false} FirstKindIsFirst(cats: seq<Category>, txs: seq<Transaction>, i: nat)
    requires i < |txs|
    requires forall j :: 0 <= j < i ==> BucketKey(cats, txs[j]) != BucketKey(cats, txs[i])
    ensures FirstKind(cats, txs, BucketKey(cats, txs[i])) == CategoryTypeForTx(cats, txs[i])
  {
    var key := BucketKey(cats, txs[i]);
    var prefix := txs[..|txs| - 1];
    KeysMembers(cats, prefix, key);
    if i == |txs| - 1 {
      forall j | 0 <= j < |prefix| ensures BucketKey(cats, prefix[j]) != key {
        assert prefix[j] == txs[j];
      }
    } else {
      assert prefix[i] == txs[i];
      forall j | 0 <= j < i ensures BucketKey(cats, prefix[j]) != key {
        assert prefix[j] == txs[j];
      }
      FirstKindIsFirst(cats, prefix, i);
    }
  }

  /** Sum of the amounts of some buckets. */
  function SumRows(rows: seq<Bucket>): real {
    if rows == [] then 0.0 else rows[0].amount + SumRows(rows[1..])
  }

  /** Sum of the amounts of some transactions. */
  function SumTx(txs: seq<Transaction>): real {
    if txs == [] then 0.0 else SumTx(txs[..|txs| - 1]) + txs[|txs| - 1].amount
  }

  /** Sum over the keys `ks` of what each key collects. */
  function SumOverKeys(cats: seq<Category>, txs: seq<Transaction>, ks: seq<string>): real {
    if ks == [] then 0.0 else SumFor(cats, txs, ks[0]) + SumOverKeys(cats, txs, ks[1..])
  }

  /** Over distinct keys, an amount filed under `key` is counted once if `key` is listed. */
  lemma {:induction false} SumOverKeysStep(cats: seq<Category>, txs: seq<Transaction>, ks: seq<string>)
    requires txs != [] && Distinct(ks)
    ensures var t := txs[|txs| - 1];
      SumOverKeys(cats, txs, ks)
      == SumOverKeys(cats, txs[..|txs| - 1], ks) + (if BucketKey(cats, t) in ks then t.amount else 0.0)
  {
    if ks != [] {
      assert Distinct(ks[1..]) by {
        forall i, j | 0 <= i < j < |ks[1..]| ensures ks[1..][i] != ks[1..][j] {
          assert ks[1..][i] == ks[i + 1] && ks[1..][j] == ks[j + 1];
        }
      }
      SumOverKeysStep(cats, txs, ks[1..]);
      var key := BucketKey(cats, txs[|txs| - 1]);
      if key in ks && key != ks[0] {
        assert key in ks[1..];
      }
    }
  }

  lemma {:induction false} SumOverKeysAppend(cats: seq<Category>, txs: seq<Transaction>, ks: seq<string>, k: string)
    ensures SumOverKeys(cats, txs, ks + [k]) == SumOverKeys(cats, txs, ks) + SumFor(cats, txs, k)
  {
    if ks == [] {
      assert ks + [k] == [k];
    } else {
      assert (ks + [k])[1..] == ks[1..] + [k];
      SumOverKeysAppend(cats, txs, ks[1..], k);
    }
  }

  /** Every transaction is counted in exactly one bucket: the buckets add up to the total. */
  lemma {:induction false} KeysConserve(cats: seq<Category>, txs: seq<Transaction>)
    ensures SumOverKeys(cats, txs, Keys(cats, txs)) == SumTx(txs)
  {
    if txs != [] {
      var prefix := txs[..|txs| - 1];
      var t := txs[|txs| - 1];
      var ks := Keys(cats, prefix);
      KeysConserve(cats, prefix);
      var key := BucketKey(cats, t);
      if key in ks {
        SumOverKeysStep(cats, txs, ks);
      } else {
        SumOverKeysStep(cats, txs, ks);
        SumOverKeysAppend(cats, txs, ks, key);
        SumForAbsent(cats, prefix, key);
      }
    }
  }

  lemma {:induction false} SumRowsAggregate(cats: seq<Category>, txs: seq<Transaction>, ks: seq<string>)
    ensures SumRows(seq(|ks|, j requires 0 <= j < |ks| => Bucket(ks[j], FirstKind(cats, txs, ks[j]), SumFor(cats, txs, ks[j]))))
         == SumOverKeys(cats, txs, ks)
  {
    if ks != [] {
      var rows := seq(|ks|, j requires 0 <= j < |ks| => Bucket(ks[j], FirstKind(cats, txs, ks[j]), SumFor(cats, txs, ks[j])));
      var tail := ks[1..];
      assert rows[1..] == seq(|tail|, j requires 0 <= j < |tail| => Bucket(tail[j], FirstKind(cats, txs, tail[j]), SumFor(cats, txs, tail[j])));
      SumRowsAggregate(cats, txs, tail);
    }
  }

  /** Aggregation neither loses nor invents money. */
  lemma AggregateConserves(cats: seq<Category>, txs: seq<Transaction>)
    ensures SumRows(Aggregate(cats, txs)) == SumTx(txs)
  {
    SumRowsAggregate(cats, txs, Keys(cats, txs));
    KeysConserve(cats, txs);
  }

  /**
   * Each bucket collects exactly the transactions filed under its key, and
   * takes its kind from the first transaction filed under it.
   */
  lemma AggregateRows(cats: seq<Category>, txs: seq<Transaction>)
    ensures Distinct(Keys(cats, txs))
    ensures forall row :: row in Aggregate(cats, txs) ==>
      row.amount == SumFor(cats, txs, row.categoryId)
      && row.kind == FirstKind(cats, txs, row.categoryId)
      && (row.kind == "income" || row.kind == "expense")
      && exists i :: 0 <= i < |txs| && BucketKey(cats, txs[i]) == row.categoryId
    ensures forall i :: 0 <= i < |txs| && (forall j :: 0 <= j < i ==> BucketKey(cats, txs[j]) != BucketKey(cats, txs[i])) ==>
      FirstKind(cats, txs, BucketKey(cats, txs[i])) == CategoryTypeForTx(cats, txs[i])
  {
    forall i | 0 <= i < |txs| && (forall j :: 0 <= j < i ==> BucketKey(cats, txs[j]) != BucketKey(cats, txs[i]))
      ensures FirstKind(cats, txs, BucketKey(cats, txs[i])) == CategoryTypeForTx(cats, txs[i])
    {
      FirstKindIsFirst(cats, txs, i);
    }
    forall row | row in Aggregate(cats, txs)
      ensures row.kind == "income" || row.kind == "expense"
      ensures exists i :: 0 <= i < |txs| && BucketKey(cats, txs[i]) == row.categoryId
    {
      var rows := Aggregate(cats, txs);
      var j :| 0 <= j < |rows| && rows[j] == row;
      FirstKindRange(cats, txs, Keys(cats, txs)[j]);
      KeysMembers(cats, txs, row.categoryId);
    }
  }

  lemma {:induction false} FirstKindRange(cats: seq<Category>, txs: seq<Transaction>, key: string)
    requires key in Keys(cats, txs)
    ensures FirstKind(cats, txs, key) == "income" || FirstKind(cats, txs, key) == "expense"
  {
    var prefix := txs[..|txs| - 1];
    if key in Keys(cats, prefix) {
      FirstKindRange(cats, prefix, key);
    }
  }

  // ------------------------------------------------------------------
  // Totals
  // ------------------------------------------------------------------

  /** The figures `renderDashboard` shows above and in its two tables. */
  datatype Statement = Statement(
    incomeRows: seq<Bucket>,
    expenseRows: seq<Bucket>,
    totalIncome: real,
    totalExpenses: real,
    net: real,
    savingRate: real,
    totalAbsExpenses: real)

  function Abs(x: real): real {
    if x < 0.0 then -x else x
  }

  /** Sum of absolute amounts of some buckets. */
  function SumAbs(rows: seq<Bucket>): (s: real)
    ensures s >= 0.0
  {
    if rows == [] then 0.0 else Abs(rows[0].amount) + SumAbs(rows[1..])
  }

  predicate IsIncomeRow(r: Bucket) {
    r.kind == "income" && r.amount != 0.0
  }

  predicate IsExpenseRow(r: Bucket) {
    r.kind == "expense" && r.amount != 0.0
  }

  /**
   * The totals of `renderDashboard`: buckets with a zero amount are dropped,
   * net is income plus (negative) expenses, and the saving rate is net over
   * income, or 0 when there is no income.
   */
  function Summarise(rows: seq<Bucket>): (s: Statement)
    ensures s.incomeRows == Filter(rows, IsIncomeRow) && s.expenseRows == Filter(rows, IsExpenseRow)
    ensures s.totalIncome == SumRows(s.incomeRows) && s.totalExpenses == SumRows(s.expenseRows)
    ensures s.totalAbsExpenses == SumAbs(s.expenseRows)
    ensures s.net == s.totalIncome + s.totalExpenses
    ensures s.totalIncome == 0.0 ==> s.savingRate == 0.0
    ensures s.totalIncome != 0.0 ==> s.savingRate * s.totalIncome == s.net
    ensures s.totalAbsExpenses >= 0.0
  {
    var incomeRows := Filter(rows, IsIncomeRow);
    var expenseRows := Filter(rows, IsExpenseRow);
    var totalIncome := SumRows(incomeRows);
    var totalExpenses := SumRows(expenseRows);
    var net := totalIncome + totalExpenses;
    Statement(incomeRows, expenseRows, totalIncome, totalExpenses, net, SavingRate(net, totalIncome), SumAbs(expenseRows))
  }

  /** `totalIncome === 0 ? 0 : net / totalIncome`. */
  function SavingRate(net: real, totalIncome: real): (rate: real)
    ensures totalIncome == 0.0 ==> rate == 0.0
    ensures totalIncome != 0.0 ==> rate * totalIncome == net
  {
    if totalIncome == 0.0 then 0.0 else net / totalIncome
  }

  /** Dropping zero rows and splitting by kind keeps every amount of a two-kind list. */
  lemma SumRowsFront(x: Bucket, rest: seq<Bucket>, keep: bool)
    ensures SumRows((if keep then [x] else []) + rest) == (if keep then x.amount else 0.0) + SumRows(rest)
  {
    if keep {
      assert ([x] + rest)[1..] == rest;
    } else {
      assert [] + rest == rest;
    }
  }

  lemma {:induction false} SplitConserves(rows: seq<Bucket>)
    requires forall r :: r in rows ==> r.kind == "income" || r.kind == "expense"
    ensures SumRows(Filter(rows, IsIncomeRow)) + SumRows(Filter(rows, IsExpenseRow)) == SumRows(rows)
  {
    if rows != [] {
      var x, rest := rows[0], rows[1..];
      assert forall r :: r in rest ==> r in rows;
      SplitConserves(rest);
      SumRowsFront(x, Filter(rest, IsIncomeRow), IsIncomeRow(x));
      SumRowsFront(x, Filter(rest, IsExpenseRow), IsExpenseRow(x));
    }
  }

  /** The dashboard statement of a list of transactions. */
  function DashboardStatement(cats: seq<Category>, txs: seq<Transaction>, r: Range): Statement {
    Summarise(Aggregate(cats, FilterForDashboard(txs, r)))
  }

  /** The statement's income and expense totals add up to every amount in the range. */
  lemma StatementConserves(cats: seq<Category>, txs: seq<Transaction>, r: Range)
    ensures var s := DashboardStatement(cats, txs, r);
      s.totalIncome + s.totalExpenses == SumTx(FilterForDashboard(txs, r))
  {
    var kept := FilterForDashboard(txs, r);
    AggregateRows(cats, kept);
    SplitConserves(Aggregate(cats, kept));
    AggregateConserves(cats, kept);
  }

  /** Each expense row's share of the absolute expenses, as the percentage column computes it. */
  function ExpenseShares(rows: seq<Bucket>, total: real): (shares: seq<real>)
    requires total > 0.0
    ensures |shares| == |rows|
    ensures forall i :: 0 <= i < |rows| ==> shares[i] * total == Abs(rows[i].amount)
  {
    seq(|rows|, i requires 0 <= i < |rows| => Abs(rows[i].amount) / total)
  }

  function SumReals(xs: seq<real>): real {
    if xs == [] then 0.0 else xs[0] + SumReals(xs[1..])
  }

  lemma {:induction false} SharesSum(rows: seq<Bucket>, total: real)
    requires total > 0.0
    ensures SumReals(ExpenseShares(rows, total)) == SumAbs(rows) / total
  {
    if rows != [] {
      SharesSum(rows[1..], total);
      assert ExpenseShares(rows, total)[1..] == ExpenseShares(rows[1..], total);
      DivAdd(Abs(rows[0].amount), SumAbs(rows[1..]), total);
    }
  }

  lemma DivAdd(a: real, b: real, t: real)
    requires t > 0.0
    ensures a / t + b / t == (a + b) / t
  {
  }

  /** The "% of expenses" column adds up to 100% whenever there are expenses. */
  lemma ExpenseSharesTotal(rows: seq<Bucket>)
    requires SumAbs(Filter(rows, IsExpenseRow)) > 0.0
    ensures var s := Summarise(rows);
      SumReals(ExpenseShares(s.expenseRows, s.totalAbsExpenses)) == 1.0
  {
    var s := Summarise(rows);
    SharesSum(s.expenseRows, s.totalAbsExpenses);
    DivSelf(s.totalAbsExpenses);
  }

  lemma DivSelf(t: real)
    requires t > 0.0
    ensures t / t == 1.0
  {
  }

  // ------------------------------------------------------------------
  // Averages
  // ------------------------------------------------------------------

  /** `range.monthsInRange || null`: a zero month count is as good as none. */
  function MonthsOrNull(months: Option<real>): (r: Option<real>)
    ensures r.Some? <==> months.Some? && months.value != 0.0
    ensures r.Some? ==> r == months
  {
    if months.Some? && months.value != 0.0 then months else None
  }

  /**
   * The factor every figure of the tables is multiplied by: per day, per
   * month or per year of the range, and 1 when the divisor is missing or
   * not positive, or the mode is "total".
   */
  function ScaleFactor(averageMode: string, days: Option<int>, months: Option<real>): (f: real)
    ensures f > 0.0
    ensures averageMode == "perDay" && days.Some? && days.value > 0 ==> f * days.value as real == 1.0
    ensures averageMode == "perDay" && !(days.Some? && days.value > 0) ==> f == 1.0
    ensures averageMode == "perMonth" && months.Some? && months.value > 0.0 ==> f * months.value == 1.0
    ensures averageMode == "perYear" && months.Some? && months.value > 0.0 ==> f * months.value == 12.0
    ensures averageMode in {"perMonth", "perYear"} && !(months.Some? && months.value > 0.0) ==> f == 1.0
    ensures averageMode !in {"perDay", "perMonth", "perYear"} ==> f == 1.0
  {
    var m := MonthsOrNull(months);
    if averageMode == "perDay" then
      if days.Some? && days.value > 0 then 1.0 / days.value as real else 1.0
    else if averageMode == "perMonth" then
      if m.Some? && m.value > 0.0 then 1.0 / m.value else 1.0
    else if averageMode == "perYear" then
      if m.Some? && m.value > 0.0 then 12.0 / m.value else 1.0
    else 1.0
  }

  /** The factor of a resolved range. */
  function RangeFactor(averageMode: string, r: Range): (f: real)
    ensures f > 0.0
  {
    ScaleFactor(averageMode, DaysBetween(r.first, r.last), r.monthsInRange)
  }

  /** Over a range of a known positive number of months, the factor undoes that count. */
  lemma FactorOfMonths(averageMode: string, r: Range, months: real)
    requires r.monthsInRange == Some(months) && months > 0.0
    ensures averageMode == "perMonth" ==> RangeFactor(averageMode, r) * months == 1.0
    ensures averageMode == "perYear" ==> RangeFactor(averageMode, r) * months == 12.0
  {
  }

  /** Whatever custom bounds are stored, monthly averages of a calendar month show its totals unchanged. */
  lemma MonthlyAverageOfMonth(fromIso: string, toIso: string, now: Date)
    requires Valid(now)
    ensures RangeFactor("perMonth", Resolve("thisMonth", fromIso, toIso, now).range) == 1.0
  {
    PresetKinds();
    ResolvedMonths("thisMonth", fromIso, toIso, now);
    FactorOfMonths("perMonth", Resolve("thisMonth", fromIso, toIso, now).range, 1.0);
  }

  /** Monthly averages of last quarter are a third of its totals. */
  lemma MonthlyAverageOfQuarter(fromIso: string, toIso: string, now: Date)
    requires Valid(now)
    ensures RangeFactor("perMonth", Resolve("lastQuarter", fromIso, toIso, now).range) * 3.0 == 1.0
  {
    PresetKinds();
    ResolvedMonths("lastQuarter", fromIso, toIso, now);
    FactorOfMonths("perMonth", Resolve("lastQuarter", fromIso, toIso, now).range, 3.0);
  }

  /** Yearly averages of a calendar year show its totals unchanged. */
  lemma YearlyAverageOfYear(fromIso: string, toIso: string, now: Date)
    requires Valid(now)
    ensures RangeFactor("perYear", Resolve("thisYear", fromIso, toIso, now).range) == 1.0
  {
    PresetKinds();
    ResolvedMonths("thisYear", fromIso, toIso, now);
    FactorOfMonths("perYear", Resolve("thisYear", fromIso, toIso, now).range, 12.0);
  }

  /** Yearly averages of last month are twelve times its totals. */
  lemma YearlyAverageOfMonth(fromIso: string, toIso: string, now: Date)
    requires Valid(now)
    ensures RangeFactor("perYear", Resolve("lastMonth", fromIso, toIso, now).range) == 12.0
  {
    PresetKinds();
    ResolvedMonths("lastMonth", fromIso, toIso, now);
    FactorOfMonths("perYear", Resolve("lastMonth", fromIso, toIso, now).range, 1.0);
  }
}
