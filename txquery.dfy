/**
 * The list of the Transactions tab (`getVisibleTransactions`,
 * app.js:890-1041): six filters applied one after the other, then a sort
 * on one column, ascending or descending.
 */
module TxQuery {
  import opened Wrappers
  import opened Seqs
  import opened Text
  import opened IsoDate
  import opened Records
  import opened Sorting

  /**
   * An amount bound as the amount filter reads it: `null` for a field left
   * blank, else `Number(text)`, which is either a number or `NaN`.
   */
  datatype Bound = Blank | Num(x: real) | NaN

  /**
   * The filter bar (`state.txUI.filters`). An empty string stands for a
   * field left blank or `null`; the amount bounds are what `Number(amountMin)`
   * and `Number(amountMax)` give.
   */
  datatype Filters = Filters(
    search: string,
    dateMode: string,
    dateFrom: string,
    dateTo: string,
    categoryId: string,
    labelTerm: string,
    account: string,
    amountMode: string,
    amountMin: Bound,
    amountMax: Bound)

  /** The text the global search looks in: description, note, category, account and labels. */
  function Haystack(cats: seq<Category>, tx: Transaction): string {
    tx.description + " " + tx.note + " " + CategoryNameById(cats, tx.categoryId) + " "
      + tx.account + " " + Join(tx.labels, ", ")
  }

  /** 1) Global search: the trimmed, lower-cased term occurs in the lower-cased haystack. */
  predicate MatchesSearch(cats: seq<Category>, f: Filters, tx: Transaction) {
    var term := Lower(Trim(f.search));
    term == "" || Contains(Lower(Haystack(cats, tx)), term)
  }

  /**
   * 2) Date filter: the transaction's date, re-formatted through
   * `parseISODate`/`formatISODate`, compared as a string with the bounds;
   * a missing bound lets everything through.
   */
  predicate MatchesDate(f: Filters, tx: Transaction) {
    var iso := FormatParsed(ParseISODate(tx.date));
    if f.dateMode == "on" then f.dateFrom == "" || iso == f.dateFrom
    else if f.dateMode == "before" then f.dateFrom == "" || LessEq(iso, f.dateFrom)
    else if f.dateMode == "after" then f.dateFrom == "" || LessEq(f.dateFrom, iso)
    else if f.dateMode == "between" then
      f.dateFrom == "" || f.dateTo == "" || (LessEq(f.dateFrom, iso) && LessEq(iso, f.dateTo))
    else true
  }

  /** 3) Category filter: exact match on the category id. */
  predicate MatchesCategory(f: Filters, tx: Transaction) {
    f.categoryId == "" || tx.categoryId == f.categoryId
  }

  /** 4) Label filter: some label contains the trimmed term, ignoring case. */
  predicate MatchesLabel(f: Filters, tx: Transaction) {
    var term := Lower(Trim(f.labelTerm));
    term == "" || exists i :: 0 <= i < |tx.labels| && Contains(Lower(tx.labels[i]), term)
  }

  /** 5) Account filter: exact match. */
  predicate MatchesAccount(f: Filters, tx: Transaction) {
    f.account == "" || tx.account == f.account
  }

  /**
   * 6) Amount filter: above `min`, below `max`, equal to `min`, or between
   * both, inclusive. A blank bound the mode reads lets everything through;
   * every comparison with `NaN` is false.
   */
  predicate MatchesAmount(f: Filters, tx: Transaction) {
    var a := tx.amount;
    var min, max := f.amountMin, f.amountMax;
    if f.amountMode == "gt" then min.Blank? || (min.Num? && a > min.x)
    else if f.amountMode == "lt" then max.Blank? || (max.Num? && a < max.x)
    else if f.amountMode == "eq" then min.Blank? || (min.Num? && a == min.x)
    else if f.amountMode == "between" then
      min.Blank? || max.Blank? || (min.Num? && max.Num? && min.x <= a && a <= max.x)
    else true
  }

  /**
   * A bound that is not a number hides every transaction in the modes that
   * compare against it: `gt` and `eq` read `min`, `lt` reads `max`, and
   * `between` compares once neither bound is blank.
   */
  lemma NaNBoundHidesAll(f: Filters, tx: Transaction)
    ensures f.amountMode in {"gt", "eq"} && f.amountMin.NaN? ==> !MatchesAmount(f, tx)
    ensures f.amountMode == "lt" && f.amountMax.NaN? ==> !MatchesAmount(f, tx)
    ensures (f.amountMode == "between" && !f.amountMin.Blank? && !f.amountMax.Blank?
             && (f.amountMin.NaN? || f.amountMax.NaN?)) ==> !MatchesAmount(f, tx)
  {
  }

  /** A transaction passes all six filters. */
  predicate Matches(cats: seq<Category>, f: Filters, tx: Transaction) {
    MatchesSearch(cats, f, tx) && MatchesDate(f, tx) && MatchesCategory(f, tx)
    && MatchesLabel(f, tx) && MatchesAccount(f, tx) && MatchesAmount(f, tx)
  }

  /** The six filters, applied in the order the tab applies them. */
  function ApplyFilters(cats: seq<Category>, f: Filters, txs: seq<Transaction>): seq<Transaction> {
    var t1 := Filter(txs, tx => MatchesSearch(cats, f, tx));
    var t2 := Filter(t1, tx => MatchesDate(f, tx));
    var t3 := Filter(t2, tx => MatchesCategory(f, tx));
    var t4 := Filter(t3, tx => MatchesLabel(f, tx));
    var t5 := Filter(t4, tx => MatchesAccount(f, tx));
    Filter(t5, tx => MatchesAmount(f, tx))
  }

  /** Filtering one after the other keeps exactly what passes all six filters, copies included. */
  lemma ApplyFiltersKeeps(cats: seq<Category>, f: Filters, txs: seq<Transaction>, tx: Transaction)
    ensures multiset(ApplyFilters(cats, f, txs))[tx] == if Matches(cats, f, tx) then multiset(txs)[tx] else 0
    ensures tx in ApplyFilters(cats, f, txs) <==> tx in txs && Matches(cats, f, tx)
  {
    var t1 := Filter(txs, tx => MatchesSearch(cats, f, tx));
    var t2 := Filter(t1, tx => MatchesDate(f, tx));
    var t3 := Filter(t2, tx => MatchesCategory(f, tx));
    var t4 := Filter(t3, tx => MatchesLabel(f, tx));
    var t5 := Filter(t4, tx => MatchesAccount(f, tx));
    FilterCounts(txs, tx => MatchesSearch(cats, f, tx), tx);
    FilterCounts(t1, tx => MatchesDate(f, tx), tx);
    FilterCounts(t2, tx => MatchesCategory(f, tx), tx);
    FilterCounts(t3, tx => MatchesLabel(f, tx), tx);
    FilterCounts(t4, tx => MatchesAccount(f, tx), tx);
    FilterCounts(t5, tx => MatchesAmount(f, tx), tx);
  }

  /** The filter bar with nothing entered: blank fields and both modes "any". */
  predicate Inactive(f: Filters) {
    Lower(Trim(f.search)) == "" && f.dateMode !in {"on", "before", "after", "between"}
    && f.categoryId == "" && Lower(Trim(f.labelTerm)) == "" && f.account == ""
    && f.amountMode !in {"gt", "lt", "eq", "between"}
  }

  /** With nothing entered in the filter bar, every transaction is shown, in its order. */
  lemma InactiveKeepsAll(cats: seq<Category>, f: Filters, txs: seq<Transaction>)
    requires Inactive(f)
    ensures ApplyFilters(cats, f, txs) == txs
  {
    FilterAll(txs, tx => MatchesSearch(cats, f, tx));
    FilterAll(txs, tx => MatchesDate(f, tx));
    FilterAll(txs, tx => MatchesCategory(f, tx));
    FilterAll(txs, tx => MatchesLabel(f, tx));
    FilterAll(txs, tx => MatchesAccount(f, tx));
    FilterAll(txs, tx => MatchesAmount(f, tx));
  }

  /**
   * The key the comparator reads for a sort field: the raw date string,
   * the lower-cased description, category name or account, or the amount;
   * an unknown field compares everything as equal.
   */
  function SortKey(cats: seq<Category>, field: string, tx: Transaction): (k: Key)
    ensures field in {"date", "description", "category", "account"} ==> k.TextKey?
    ensures field == "amount" ==> k == AmountKey(tx.amount)
    ensures field !in {"date", "description", "amount", "category", "account"} ==> k == NoKey
  {
    if field == "date" then TextKey(tx.date)
    else if field == "description" then TextKey(Lower(tx.description))
    else if field == "amount" then AmountKey(tx.amount)
    else if field == "category" then TextKey(Lower(CategoryNameById(cats, tx.categoryId)))
    else if field == "account" then TextKey(Lower(tx.account))
    else NoKey
  }

  /** The comparator's key for a sort field, as a function of the transaction. */
  function SortKeyOf(cats: seq<Category>, field: string): Transaction -> Key {
    tx => SortKey(cats, field, tx)
  }

  /** `getVisibleTransactions`: the filtered list, sorted on `sortField`, "asc" or otherwise descending. */
  function Visible(cats: seq<Category>, f: Filters, sortField: string, sortDir: string, txs: seq<Transaction>)
    : (out: seq<Transaction>)
    ensures multiset(out) == multiset(ApplyFilters(cats, f, txs))
    ensures SortedBy(out, SortKeyOf(cats, sortField), sortDir == "asc")
  {
    SortBy(ApplyFilters(cats, f, txs), SortKeyOf(cats, sortField), sortDir == "asc")
  }

  /** Sorted on a date ascending, no earlier row has a later date string. */
  lemma DateSortAscending(cats: seq<Category>, f: Filters, txs: seq<Transaction>, i: int, j: int)
    requires var out := Visible(cats, f, "date", "asc", txs); 0 <= i < j < |out|
    ensures var out := Visible(cats, f, "date", "asc", txs); LessEq(out[i].date, out[j].date)
  {
    var out := Visible(cats, f, "date", "asc", txs);
    assert !Before(SortKeyOf(cats, "date"), true, out[j], out[i]);
    LessTotal(out[i].date, out[j].date);
  }

  /** Sorted on the amount descending, no earlier row has a smaller amount. */
  lemma AmountSortDescending(cats: seq<Category>, f: Filters, txs: seq<Transaction>, i: int, j: int)
    requires var out := Visible(cats, f, "amount", "desc", txs); 0 <= i < j < |out|
    ensures var out := Visible(cats, f, "amount", "desc", txs); out[i].amount >= out[j].amount
  {
    var out := Visible(cats, f, "amount", "desc", txs);
    assert !Before(SortKeyOf(cats, "amount"), false, out[j], out[i]);
  }

  /** An unknown sort field leaves the filtered list in its stored order. */
  lemma UnknownFieldKeepsOrder(cats: seq<Category>, f: Filters, field: string, dir: string, txs: seq<Transaction>)
    requires field !in {"date", "description", "amount", "category", "account"}
    ensures Visible(cats, f, field, dir, txs) == ApplyFilters(cats, f, txs)
  {
    NoKeyKeepsOrder(ApplyFilters(cats, f, txs), SortKeyOf(cats, field), dir == "asc");
  }
}
