/**
 * The income statement of the two later drafts (`renderIncomeStatement`,
 * src/app.js:378-401 and src/js/app.js:366-385, with `getCategoryName`
 * and `sumValues`): each filtered transaction is added to one line of the
 * Income or the Expense group, keyed by its category's name, and the two
 * group totals and the net are summed from the lines.
 */
module IncomeStatement {
  import opened Wrappers
  import opened Seqs
  import opened Records
  import Dashboard

  /** One own property of a group object: a line of the statement and its running total. */
  datatype Line = Line(key: string, value: real)

  /** Does the group have an own property `key`? */
  predicate HasKey(g: seq<Line>, key: string) {
    g != [] && (g[0].key == key || HasKey(g[1..], key))
  }

  /** No key twice, as in any object. */
  predicate DistinctKeys(g: seq<Line>) {
    g == [] || (!HasKey(g[1..], g[0].key) && DistinctKeys(g[1..]))
  }

  /** `group[key] || 0`: the line's total, or 0 for a key the group does not have. */
  function ValueOf(g: seq<Line>, key: string): real {
    if g == [] then 0.0 else if g[0].key == key then g[0].value else ValueOf(g[1..], key)
  }

  /** Sum of the lines' totals. */
  function SumLines(g: seq<Line>): real {
    if g == [] then 0.0 else g[0].value + SumLines(g[1..])
  }

  /**
   * `if (!group[key]) group[key] = 0; group[key] += amount`: the line for
   * `key` grows by `amount`, a new key becomes the last line, every other
   * line stays as it was, and the sum of the lines grows by `amount`
   * (the order of the keys is `AddToKeys`).
   */
  function AddTo(g: seq<Line>, key: string, amount: real): (r: seq<Line>)
    ensures ValueOf(r, key) == ValueOf(g, key) + amount
    ensures forall k :: k != key ==> ValueOf(r, k) == ValueOf(g, k)
    ensures SumLines(r) == SumLines(g) + amount
  {
    if g == [] then [Line(key, amount)]
    else if g[0].key == key then [Line(key, g[0].value + amount)] + g[1..]
    else
      var rest := AddTo(g[1..], key, amount);
      ConsLine(g[0], rest);
      ConsLine(g[0], g[1..]);
      [g[0]] + rest
  }

  /** A new key becomes the last line; a known one keeps its place. No key is repeated. */
  lemma {:induction false} AddToKeys(g: seq<Line>, key: string, amount: real)
    ensures forall k :: HasKey(AddTo(g, key, amount), k) <==> HasKey(g, k) || k == key
    ensures !HasKey(g, key) ==> AddTo(g, key, amount) == g + [Line(key, amount)]
    ensures HasKey(g, key) ==>
      |AddTo(g, key, amount)| == |g| && forall i :: 0 <= i < |g| ==> AddTo(g, key, amount)[i].key == g[i].key
    ensures DistinctKeys(g) ==> DistinctKeys(AddTo(g, key, amount))
  {
    if g != [] {
      var r := AddTo(g, key, amount);
      assert g == [g[0]] + g[1..];
      if g[0].key == key {
        assert r[1..] == g[1..];
      } else {
        AddToKeys(g[1..], key, amount);
        assert r[1..] == AddTo(g[1..], key, amount);
        if !HasKey(g, key) {
          assert g + [Line(key, amount)] == [g[0]] + (g[1..] + [Line(key, amount)]);
        }
      }
    }
  }

  /** A line in front of others answers for its key and adds to the sum. */
  lemma ConsLine(x: Line, rest: seq<Line>)
    ensures forall k :: ValueOf([x] + rest, k) == if x.key == k then x.value else ValueOf(rest, k)
    ensures SumLines([x] + rest) == x.value + SumLines(rest)
  {
    assert ([x] + rest)[1..] == rest;
  }

  /** The sum of a prefix grows by the next line's total. */
  lemma {:induction false} SumLinesSnoc(g: seq<Line>, k: int)
    requires 0 <= k < |g|
    ensures SumLines(g[..k + 1]) == SumLines(g[..k]) + g[k].value
  {
    if k > 0 {
      SumLinesSnoc(g[1..], k - 1);
      assert g[1..][..k] == g[..k + 1][1..];
      assert g[1..][..k - 1] == g[..k][1..];
    }
  }

  /** `sumValues`: the sum of the group's own properties. */
  method SumValues(g: seq<Line>) returns (sum: real)
    ensures sum == SumLines(g)
  {
    sum := 0.0;
    for k := 0 to |g|
      invariant sum == SumLines(g[..k])
    {
      SumLinesSnoc(g, k);
      sum := sum + g[k].value;
    }
    SliceAll(g);
  }

  // ------------------------------------------------------------------
  // Grouping
  // ------------------------------------------------------------------

  /** `getCategoryName`: the name of the first category with the id, else "Uncategorised". */
  function GetCategoryName(cats: seq<Category>, id: string): (name: string)
    ensures FindCategory(cats, id).Some? ==> name == FindCategory(cats, id).value.name
    ensures FindCategory(cats, id).None? ==> name == "Uncategorised"
  {
    var cat := FindCategory(cats, id);
    if cat.Some? then cat.value.name else "Uncategorised"
  }

  /**
   * `cat && cat.type ? cat.type : (amount >= 0 ? "Income" : "Expense")`:
   * a category with a type decides, and anything else goes by the sign.
   */
  function TxType(cats: seq<Category>, tx: Transaction): (kind: string)
    ensures kind != ""
    ensures (FindCategory(cats, tx.categoryId).None? || FindCategory(cats, tx.categoryId).value.kind == "") ==>
      (kind == "Income" <==> tx.amount >= 0.0) && (kind == "Income" || kind == "Expense")
    ensures FindCategory(cats, tx.categoryId).Some? && FindCategory(cats, tx.categoryId).value.kind != "" ==>
      kind == FindCategory(cats, tx.categoryId).value.kind
  {
    var cat := FindCategory(cats, tx.categoryId);
    if cat.Some? && cat.value.kind != "" then cat.value.kind
    else if tx.amount >= 0.0 then "Income"
    else "Expense"
  }

  /** Does the transaction go to the Income group? Any type other than exactly "Income" goes to Expense. */
  predicate InIncome(cats: seq<Category>, tx: Transaction) {
    TxType(cats, tx) == "Income"
  }

  /** Is the transaction added to the line `key` of the Income (`income`) or the Expense group? */
  predicate InLine(cats: seq<Category>, income: bool, key: string, tx: Transaction) {
    InIncome(cats, tx) == income && GetCategoryName(cats, tx.categoryId) == key
  }

  /** `groups`: the Income and the Expense object. */
  datatype Groups = Groups(income: seq<Line>, expense: seq<Line>)

  function GroupOf(gs: Groups, income: bool): seq<Line> {
    if income then gs.income else gs.expense
  }

  /** The groups after the `forEach` over the transactions. */
  function Grouped(cats: seq<Category>, txs: seq<Transaction>): Groups {
    if txs == [] then Groups([], [])
    else
      var gs := Grouped(cats, txs[..|txs| - 1]);
      var tx := txs[|txs| - 1];
      var key := GetCategoryName(cats, tx.categoryId);
      if InIncome(cats, tx) then gs.(income := AddTo(gs.income, key, tx.amount))
      else gs.(expense := AddTo(gs.expense, key, tx.amount))
  }

  /** Sum of the amounts of the transactions on one line. */
  function SumOnLine(cats: seq<Category>, income: bool, key: string, txs: seq<Transaction>): real {
    if txs == [] then 0.0
    else
      var tx := txs[|txs| - 1];
      SumOnLine(cats, income, key, txs[..|txs| - 1]) + (if InLine(cats, income, key, tx) then tx.amount else 0.0)
  }

  /**
   * What one group holds after some transactions: one line per key, a key
   * exactly when some transaction belongs on it, and each line's total the
   * sum of the amounts of the transactions on it.
   */
  ghost predicate Tallies(cats: seq<Category>, txs: seq<Transaction>, income: bool, g: seq<Line>) {
    && DistinctKeys(g)
    && (forall key :: ValueOf(g, key) == SumOnLine(cats, income, key, txs))
    && (forall key :: HasKey(g, key) <==> exists tx :: tx in txs && InLine(cats, income, key, tx))
  }

  lemma SumOnLineSnoc(cats: seq<Category>, income: bool, key: string, txs: seq<Transaction>, tx: Transaction)
    ensures SumOnLine(cats, income, key, txs + [tx])
      == SumOnLine(cats, income, key, txs) + (if InLine(cats, income, key, tx) then tx.amount else 0.0)
  {
    assert (txs + [tx])[..|txs|] == txs;
  }

  /** One more transaction keeps each group tallied. */
  lemma TallyStep(cats: seq<Category>, txs: seq<Transaction>, tx: Transaction, income: bool, g: seq<Line>)
    requires Tallies(cats, txs, income, g)
    ensures Tallies(cats, txs + [tx], income,
      if InIncome(cats, tx) == income then AddTo(g, GetCategoryName(cats, tx.categoryId), tx.amount) else g)
  {
    if InIncome(cats, tx) == income {
      TallyAdd(cats, txs, tx, income, g);
    } else {
      TallySkip(cats, txs, tx, income, g);
    }
  }

  /** A transaction of this group adds to its line. */
  lemma TallyAdd(cats: seq<Category>, txs: seq<Transaction>, tx: Transaction, income: bool, g: seq<Line>)
    requires Tallies(cats, txs, income, g) && InIncome(cats, tx) == income
    ensures Tallies(cats, txs + [tx], income, AddTo(g, GetCategoryName(cats, tx.categoryId), tx.amount))
  {
    var key := GetCategoryName(cats, tx.categoryId);
    var r := AddTo(g, key, tx.amount);
    var all := txs + [tx];
    AddToKeys(g, key, tx.amount);
    forall k ensures ValueOf(r, k) == SumOnLine(cats, income, k, all) {
      SumOnLineSnoc(cats, income, k, txs, tx);
    }
    forall k ensures HasKey(r, k) <==> exists t :: t in all && InLine(cats, income, k, t) {
      OnLineSnoc(cats, income, k, txs, tx);
    }
  }

  /** A transaction of the other group leaves this one as it was. */
  lemma TallySkip(cats: seq<Category>, txs: seq<Transaction>, tx: Transaction, income: bool, g: seq<Line>)
    requires Tallies(cats, txs, income, g) && InIncome(cats, tx) != income
    ensures Tallies(cats, txs + [tx], income, g)
  {
    var all := txs + [tx];
    forall k ensures ValueOf(g, k) == SumOnLine(cats, income, k, all) {
      SumOnLineSnoc(cats, income, k, txs, tx);
    }
    forall k ensures HasKey(g, k) <==> exists t :: t in all && InLine(cats, income, k, t) {
      OnLineSnoc(cats, income, k, txs, tx);
    }
  }

  lemma OnLineSnoc(cats: seq<Category>, income: bool, key: string, txs: seq<Transaction>, tx: Transaction)
    ensures (exists t :: t in txs + [tx] && InLine(cats, income, key, t))
      <==> (exists t :: t in txs && InLine(cats, income, key, t)) || InLine(cats, income, key, tx)
  {
    if exists t :: t in txs + [tx] && InLine(cats, income, key, t) {
      var t :| t in txs + [tx] && InLine(cats, income, key, t);
      if t != tx {
        assert t in txs;
      }
    }
  }

  /** Each group of `Grouped` is tallied. */
  lemma {:induction false} GroupedTallies(cats: seq<Category>, txs: seq<Transaction>, income: bool)
    ensures Tallies(cats, txs, income, GroupOf(Grouped(cats, txs), income))
  {
    if txs != [] {
      var n := |txs| - 1;
      GroupedTallies(cats, txs[..n], income);
      TallyStep(cats, txs[..n], txs[n], income, GroupOf(Grouped(cats, txs[..n]), income));
      GroupedStep(cats, txs, income);
    }
  }

  /** The last transaction adds to its own group and leaves the other as it was. */
  lemma GroupedStep(cats: seq<Category>, txs: seq<Transaction>, income: bool)
    requires txs != []
    ensures var n := |txs| - 1;
      txs[..n] + [txs[n]] == txs
      && GroupOf(Grouped(cats, txs), income)
        == if InIncome(cats, txs[n]) == income
           then AddTo(GroupOf(Grouped(cats, txs[..n]), income), GetCategoryName(cats, txs[n].categoryId), txs[n].amount)
           else GroupOf(Grouped(cats, txs[..n]), income)
  {
  }

  /**
   * Every transaction lands on exactly one line: the line named after its
   * category in the group of its type. A group's line for `key` totals the
   * amounts of the transactions that belong on it, and the group has a
   * line for `key` exactly when one such transaction exists.
   */
  lemma GroupLines(cats: seq<Category>, txs: seq<Transaction>, income: bool, key: string)
    ensures var g := GroupOf(Grouped(cats, txs), income);
      && DistinctKeys(g)
      && ValueOf(g, key) == SumOnLine(cats, income, key, txs)
      && (HasKey(g, key) <==> exists tx :: tx in txs && InLine(cats, income, key, tx))
  {
    GroupedTallies(cats, txs, income);
  }

  /** The two groups together total the amounts of all the transactions. */
  lemma {:induction false} GroupedConserves(cats: seq<Category>, txs: seq<Transaction>)
    ensures SumLines(Grouped(cats, txs).income) + SumLines(Grouped(cats, txs).expense) == Dashboard.SumTx(txs)
  {
    if txs != [] {
      var n := |txs| - 1;
      var gs := Grouped(cats, txs[..n]);
      var tx := txs[n];
      var key := GetCategoryName(cats, tx.categoryId);
      GroupedConserves(cats, txs[..n]);
    }
  }

  /**
   * The figures of `renderIncomeStatement` for the filtered transactions:
   * the two groups, their totals and the net, which comes to the sum of
   * all the amounts.
   */
  method RenderIncomeStatement(cats: seq<Category>, filtered: seq<Transaction>)
    returns (groups: Groups, incomeTotal: real, expenseTotal: real, net: real)
    ensures groups == Grouped(cats, filtered)
    ensures incomeTotal == SumLines(groups.income) && expenseTotal == SumLines(groups.expense)
    ensures net == incomeTotal + expenseTotal
    ensures net == Dashboard.SumTx(filtered)
  {
    var income: seq<Line> := [];
    var expense: seq<Line> := [];
    for k := 0 to |filtered|
      invariant Groups(income, expense) == Grouped(cats, filtered[..k])
    {
      var tx := filtered[k];
      var cat := FindCategory(cats, tx.categoryId);
      var kind := if cat.Some? && cat.value.kind != "" then cat.value.kind
        else if tx.amount >= 0.0 then "Income" else "Expense";
      var key := GetCategoryName(cats, tx.categoryId);
      if kind == "Income" {
        income := AddTo(income, key, tx.amount);
      } else {
        expense := AddTo(expense, key, tx.amount);
      }
      assert filtered[..k + 1][..k] == filtered[..k];
    }
    SliceAll(filtered);
    groups := Groups(income, expense);
    incomeTotal := SumValues(income);
    expenseTotal := SumValues(expense);
    net := incomeTotal + expenseTotal;
    GroupedConserves(cats, filtered);
  }
}
