/**
 * The in-memory `state` of app.js and the operations that update it in
 * place: the row selection of the Transactions tab, new transactions and
 * their ids, fresh category ids, the subtree a category deletion removes,
 * the cascade delete itself and the import of parsed rows.
 */
module Store {
  import opened Wrappers
  import opened Seqs
  import opened Text
  import Calendar
  import opened IsoDate
  import opened Records
  import opened Sorting
  import opened TxQuery

  // ------------------------------------------------------------------
  // Transaction ids
  // ------------------------------------------------------------------

  /** No two transactions share an id. */
  predicate UniqueTxIds(txs: seq<Transaction>) {
    forall i, j :: 0 <= i < j < |txs| ==> txs[i].id != txs[j].id
  }

  /**
   * `transactions.reduce((max, tx) => Math.max(max, tx.id), 0)`: the
   * largest id, or 0 when there is none larger.
   */
  function MaxId(txs: seq<Transaction>): (m: int)
    ensures m >= 0
    ensures forall tx :: tx in txs ==> tx.id <= m
    ensures m == 0 || exists tx :: tx in txs && tx.id == m
  {
    if txs == [] then 0
    else
      var prev := MaxId(txs[..|txs| - 1]);
      var last := txs[|txs| - 1];
      assert txs == txs[..|txs| - 1] + [last];
      if last.id > prev then last.id else prev
  }

  /** The row `addNewTransaction` appends: today's date and every other field blank. */
  function BlankTransaction(id: int, date: string): Transaction {
    Transaction(id, date, "", 0.0, "", [], "", "")
  }

  /** The parsed rows as the import pushes them: numbered on from `first`, in order. */
  function Renumber(rows: seq<Transaction>, first: int): (r: seq<Transaction>)
    ensures |r| == |rows|
    ensures forall k :: 0 <= k < |r| ==> r[k] == rows[k].(id := first + k)
  {
    seq(|rows|, k requires 0 <= k < |rows| => rows[k].(id := first + k))
  }

  /** Numbering one more row extends the numbered prefix by that row. */
  lemma RenumberStep(rows: seq<Transaction>, k: int, first: int)
    requires 0 <= k < |rows|
    ensures Renumber(rows[..k + 1], first) == Renumber(rows[..k], first) + [rows[k].(id := first + k)]
  {
    assert rows[..k + 1][..k] == rows[..k];
  }

  /** Ids handed out above the current maximum keep the transaction ids unique. */
  lemma RenumberKeepsIdsUnique(txs: seq<Transaction>, rows: seq<Transaction>)
    requires UniqueTxIds(txs)
    ensures UniqueTxIds(txs + Renumber(rows, MaxId(txs) + 1))
  {
    var m := MaxId(txs);
    var all := txs + Renumber(rows, m + 1);
    forall i, j | 0 <= i < j < |all| ensures all[i].id != all[j].id {
      if j >= |txs| {
        assert all[j].id == m + 1 + (j - |txs|);
        if i < |txs| {
          assert all[i] == txs[i] && txs[i] in txs;
        } else {
          assert all[i].id == m + 1 + (i - |txs|);
        }
      } else {
        assert all[i] == txs[i] && all[j] == txs[j];
      }
    }
  }

  // ------------------------------------------------------------------
  // Category ids
  // ------------------------------------------------------------------

  /** `categories.some(c => c.id === id)`. */
  predicate HasId(cats: seq<Category>, id: string) {
    exists c :: c in cats && c.id == id
  }

  /** The candidate id `"cat-" + n`. */
  function CatId(n: nat): string {
    "cat-" + NatToString(n)
  }

  /** The length of the longest category id. */
  function MaxIdLen(cats: seq<Category>): (len: nat)
    ensures forall c :: c in cats ==> |c.id| <= len
  {
    if cats == [] then 0
    else
      var rest := MaxIdLen(cats[1..]);
      if |cats[0].id| > rest then |cats[0].id| else rest
  }

  lemma {:induction false} Pow10Monotone(a: nat, b: nat)
    requires a <= b
    ensures Pow10(a) <= Pow10(b)
    decreases b
  {
    if a < b {
      Pow10Monotone(a, b - 1);
    }
  }

  /** Only finitely many candidates are taken: none at or above `10^MaxIdLen`. */
  lemma TakenBelow(cats: seq<Category>, n: nat)
    requires HasId(cats, CatId(n))
    ensures n < Pow10(MaxIdLen(cats))
  {
    var digits := NatToString(n);
    assert |CatId(n)| == 4 + |digits|;
    NatToStringValue(n);
    DigitsValueBound(digits);
    Pow10Monotone(|digits|, MaxIdLen(cats));
  }

  /**
   * The counter value `getNextCategoryId` stops at: the first `k >= n`
   * whose candidate `"cat-" + k` no category carries.
   */
  function FirstFree(cats: seq<Category>, n: nat): (k: nat)
    ensures n <= k
    ensures !HasId(cats, CatId(k))
    ensures forall j :: n <= j < k ==> HasId(cats, CatId(j))
    decreases Pow10(MaxIdLen(cats)) - n
  {
    if HasId(cats, CatId(n)) then
      TakenBelow(cats, n);
      FirstFree(cats, n + 1)
    else n
  }

  // ------------------------------------------------------------------
  // Category subtrees
  // ------------------------------------------------------------------

  /** `c.parentId === current` for a category that has a parent. */
  predicate ParentIs(c: Category, id: string) {
    c.parentId != "" && c.parentId == id
  }

  /** The ids of the categories, in order. */
  function IdsOf(cats: seq<Category>): (ids: seq<string>)
    ensures |ids| == |cats|
    ensures forall i :: 0 <= i < |cats| ==> ids[i] == cats[i].id
  {
    seq(|cats|, i requires 0 <= i < |cats| => cats[i].id)
  }

  /** The parent id of the first category carrying `id` ("" when none does). */
  function ParentOfId(cats: seq<Category>, id: string): string {
    if cats == [] then ""
    else if cats[0].id == id then cats[0].parentId
    else ParentOfId(cats[1..], id)
  }

  /**
   * `ids` lists the subtree under `id`: `id` first, no repeats, every later
   * entry a category filed under an earlier entry, and every category filed
   * under an entry listed too.
   */
  ghost predicate DescendantList(cats: seq<Category>, id: string, ids: seq<string>) {
    && |ids| >= 1 && ids[0] == id
    && Distinct(ids)
    && (forall k :: 1 <= k < |ids| ==> ids[k] in IdsOf(cats))
    && (forall k {:trigger ParentOfId(cats, ids[k])} :: 1 <= k < |ids| ==> ParentOfId(cats, ids[k]) in ids[..k])
    && (forall c :: c in cats && c.parentId != "" && c.parentId in ids ==> c.id in ids)
  }

  /** A visit list without repeats holds the start and at most every category once. */
  lemma VisitBound(cats: seq<Category>, toVisit: seq<string>)
    requires |toVisit| >= 1 && Distinct(toVisit)
    requires forall k :: 1 <= k < |toVisit| ==> toVisit[k] in IdsOf(cats)
    ensures |toVisit| <= |cats| + 1
  {
    var rest := toVisit[1..];
    assert Distinct(rest) by {
      forall a, b | 0 <= a < b < |rest| ensures rest[a] != rest[b] {
        assert rest[a] == toVisit[a + 1] && rest[b] == toVisit[b + 1];
      }
    }
    forall x | x in rest ensures x in IdsOf(cats) {
      var k :| 0 <= k < |rest| && rest[k] == x;
      assert toVisit[k + 1] == x;
    }
    DistinctBound(rest, IdsOf(cats));
  }

  /** With unique ids, a category's own id leads back to its parent. */
  lemma {:induction false} ParentOfOwnId(cats: seq<Category>, j: int)
    requires UniqueCategoryIds(cats) && 0 <= j < |cats|
    ensures ParentOfId(cats, cats[j].id) == cats[j].parentId
    ensures cats[j].id !in IdsOf(cats[..j])
  {
    if j > 0 {
      assert cats[0].id != cats[j].id;
      assert UniqueCategoryIds(cats[1..]) by {
        forall a, b | 0 <= a < b < |cats[1..]| ensures cats[1..][a].id != cats[1..][b].id {
          assert cats[1..][a] == cats[a + 1] && cats[1..][b] == cats[b + 1];
        }
      }
      ParentOfOwnId(cats[1..], j - 1);
      assert cats[1..][j - 1] == cats[j];
    }
    var ids := IdsOf(cats[..j]);
    forall q | 0 <= q < j ensures ids[q] != cats[j].id {
      assert ids[q] == cats[q].id;
    }
  }

  // ------------------------------------------------------------------
  // Cascade delete
  // ------------------------------------------------------------------

  /** `categories.filter(c => ids.indexOf(c.id) === -1)`. */
  function WithoutIds(cats: seq<Category>, ids: seq<string>): seq<Category> {
    Filter(cats, (c: Category) => c.id !in ids)
  }

  /** One transaction after the delete: its category cleared when it was removed. */
  function Cleared(tx: Transaction, ids: seq<string>): Transaction {
    if tx.categoryId in ids then tx.(categoryId := "") else tx
  }

  function ClearRefs(txs: seq<Transaction>, ids: seq<string>): (r: seq<Transaction>)
    ensures |r| == |txs|
    ensures forall k :: 0 <= k < |r| ==> r[k] == Cleared(txs[k], ids)
  {
    seq(|txs|, k requires 0 <= k < |txs| => Cleared(txs[k], ids))
  }

  lemma ClearRefsKeepsIds(txs: seq<Transaction>, ids: seq<string>)
    requires UniqueTxIds(txs)
    ensures UniqueTxIds(ClearRefs(txs, ids))
  {
    var r := ClearRefs(txs, ids);
    forall i, j | 0 <= i < j < |r| ensures r[i].id != r[j].id {
      assert r[i].id == txs[i].id && r[j].id == txs[j].id;
    }
  }

  lemma {:induction false} FilterKeepsUniqueIds(cats: seq<Category>, p: Category -> bool)
    requires UniqueCategoryIds(cats)
    ensures UniqueCategoryIds(Filter(cats, p))
  {
    if cats != [] {
      var rest := Filter(cats[1..], p);
      assert UniqueCategoryIds(cats[1..]) by {
        forall i, j | 0 <= i < j < |cats[1..]| ensures cats[1..][i].id != cats[1..][j].id {
          assert cats[1..][i] == cats[i + 1] && cats[1..][j] == cats[j + 1];
        }
      }
      FilterKeepsUniqueIds(cats[1..], p);
      if p(cats[0]) {
        var r := [cats[0]] + rest;
        forall i, j | 0 <= i < j < |r| ensures r[i].id != r[j].id {
          if i == 0 {
            FilterCounts(cats[1..], p, r[j]);
            assert r[j] == rest[j - 1];
            var q :| 0 <= q < |cats[1..]| && cats[1..][q] == r[j];
            assert cats[q + 1] == r[j];
          } else {
            assert r[i] == rest[i - 1] && r[j] == rest[j - 1];
          }
        }
      }
    }
  }

  /**
   * After removing a whole subtree, no remaining category is filed under a
   * removed one and no transaction points at a removed one; the category
   * deleted and everything directly under it are gone.
   */
  lemma DeleteLeavesNoDangling(cats: seq<Category>, txs: seq<Transaction>, id: string, ids: seq<string>)
    requires UniqueCategoryIds(cats) && DescendantList(cats, id, ids)
    ensures var kept := WithoutIds(cats, ids);
      forall c :: c in kept ==> c.parentId == "" || HasId(kept, c.parentId) || !HasId(cats, c.parentId)
    ensures var kept := WithoutIds(cats, ids);
      forall tx :: tx in ClearRefs(txs, ids) ==> tx.categoryId == "" || HasId(kept, tx.categoryId) || !HasId(cats, tx.categoryId)
    ensures var kept := WithoutIds(cats, ids);
      forall c :: c in cats ==> (c in kept <==> c.id != id && !ParentIs(c, id) && c.id !in ids)
  {
    var kept := WithoutIds(cats, ids);
    var p := (c: Category) => c.id !in ids;
    forall c | c in cats ensures c in kept <==> c.id !in ids {
      FilterCounts(cats, p, c);
    }
    forall c | c in kept ensures c.parentId == "" || HasId(kept, c.parentId) || !HasId(cats, c.parentId) {
      FilterCounts(cats, p, c);
      if c.parentId != "" && HasId(cats, c.parentId) {
        var d :| d in cats && d.id == c.parentId;
        assert d.id !in ids;
        FilterCounts(cats, p, d);
      }
    }
    var cleared := ClearRefs(txs, ids);
    forall tx | tx in cleared ensures tx.categoryId == "" || HasId(kept, tx.categoryId) || !HasId(cats, tx.categoryId) {
      if tx.categoryId != "" && HasId(cats, tx.categoryId) {
        var k :| 0 <= k < |cleared| && cleared[k] == tx;
        assert tx.categoryId !in ids;
        var d :| d in cats && d.id == tx.categoryId;
        FilterCounts(cats, p, d);
      }
    }
  }

  // ------------------------------------------------------------------
  // The state
  // ------------------------------------------------------------------

  /** The filter bar as a fresh page shows it: everything blank, both modes "any". */
  const NoFilters := Filters("", "any", "", "", "", "", "", "any", Blank, Blank)

  /** The name `addCategory` gives a new category of the given type. */
  function NewCategoryName(kind: string): string {
    if kind == "income" then "New income category" else "New expense category"
  }

  /**
   * The parts of `state` these operations touch. A JavaScript `null` in
   * `txUI.editingId` is `None`; in `catUI.editingId` it is "".
   */
  class State {
    var transactions: seq<Transaction>
    var categories: seq<Category>
    var filters: Filters
    var sortField: string
    var sortDir: string
    var selection: seq<int>
    var editingId: Option<int>
    var catEditingId: string
    var parsedRows: seq<Transaction>
    var nextCategoryId: nat

    /** Ids are unique and no transaction is selected twice. */
    predicate Valid()
      reads this
    {
      Distinct(selection) && UniqueTxIds(transactions) && UniqueCategoryIds(categories)
    }

    /** An empty ledger with the initial UI state. */
    constructor ()
      ensures Valid()
      ensures transactions == [] && categories == [] && selection == [] && parsedRows == []
      ensures filters == NoFilters && sortField == "date" && sortDir == "desc"
      ensures editingId == None && catEditingId == "" && nextCategoryId == 1
    {
      transactions := [];
      categories := [];
      filters := NoFilters;
      sortField := "date";
      sortDir := "desc";
      selection := [];
      editingId := None;
      catEditingId := "";
      parsedRows := [];
      nextCategoryId := 1;
    }

    // ---- Selection ----

    /** `isTxSelected`. */
    function IsTxSelected(id: int): (b: bool)
      reads this
      ensures b <==> id in selection
    {
      IndexOf(selection, id) >= 0
    }

    /**
     * `toggleTxSelection`: adds the id when it should be selected and is not
     * yet, removes it when it should not be and is; no other id changes.
     */
    method ToggleTxSelection(id: int, isSelected: bool)
      requires Valid()
      modifies this`selection
      ensures Valid()
      ensures id in selection <==> isSelected
      ensures forall x :: x != id ==> (x in selection <==> x in old(selection))
      ensures isSelected && id !in old(selection) ==> selection == old(selection) + [id]
      ensures isSelected == (id in old(selection)) ==> selection == old(selection)
      ensures !isSelected && id in old(selection) ==>
        |selection| == |old(selection)| - 1 && selection == old(selection)[..IndexOf(old(selection), id)] + old(selection)[IndexOf(old(selection), id) + 1..]
    {
      var idx := IndexOf(selection, id);
      if isSelected {
        if idx == -1 {
          selection := selection + [id];
        }
      } else {
        if idx >= 0 {
          RemoveAtDistinct(selection, idx);
          selection := selection[..idx] + selection[idx + 1..];
        }
      }
    }

    /** `clearTxSelection`. */
    method ClearTxSelection()
      modifies this`selection
      ensures selection == []
    {
      selection := [];
    }

    // ---- Transactions ----

    /**
     * `addNewTransaction`: appends a blank transaction dated today whose id
     * is one more than the largest id, opens it for editing and clears the
     * selection.
     */
    method AddNewTransaction(today: Calendar.Date)
      requires Valid() && Calendar.Valid(today)
      modifies this`transactions, this`editingId, this`selection
      ensures Valid()
      ensures var newId := MaxId(old(transactions)) + 1;
        && transactions == old(transactions) + [BlankTransaction(newId, FormatISODate(today))]
        && editingId == Some(newId)
        && (forall tx :: tx in old(transactions) ==> tx.id < newId)
      ensures selection == []
    {
      var date := FormatISODate(today);
      PushBlank(date);
    }

    /** The body of `addNewTransaction` once today's date is formatted. */
    method PushBlank(date: string)
      requires Valid()
      modifies this`transactions, this`editingId, this`selection
      ensures Valid()
      ensures var newId := MaxId(old(transactions)) + 1;
        && transactions == old(transactions) + [BlankTransaction(newId, date)]
        && editingId == Some(newId)
        && (forall tx :: tx in old(transactions) ==> tx.id < newId)
      ensures selection == []
    {
      var newId := MaxId(transactions) + 1;
      var tx := BlankTransaction(newId, date);
      assert UniqueTxIds(transactions + [tx]) by {
        RenumberKeepsIdsUnique(transactions, [tx]);
        assert Renumber([tx], newId) == [tx];
      }
      transactions := transactions + [tx];
      editingId := Some(newId);
      ClearTxSelection();
    }

    /**
     * The Import button: unless nothing was parsed, numbers the parsed rows
     * on from one past the largest id, appends them and empties the preview.
     */
    method ApplyImport()
      requires Valid()
      modifies this`transactions, this`parsedRows
      ensures Valid()
      ensures old(parsedRows) == [] ==> transactions == old(transactions) && parsedRows == []
      ensures old(parsedRows) != [] ==>
        transactions == old(transactions) + Renumber(old(parsedRows), MaxId(old(transactions)) + 1)
        && parsedRows == []
    {
      if |parsedRows| == 0 {
        return;
      }
      var first := MaxId(transactions) + 1;
      var nextId := first;
      ghost var base := transactions;
      var k := 0;
      while k < |parsedRows|
        invariant 0 <= k <= |parsedRows| && nextId == first + k
        invariant parsedRows == old(parsedRows) && base == old(transactions)
        invariant transactions == base + Renumber(parsedRows[..k], first)
      {
        var row := parsedRows[k].(id := nextId);
        nextId := nextId + 1;
        RenumberStep(parsedRows, k, first);
        transactions := transactions + [row];
        k := k + 1;
      }
      assert parsedRows[..k] == parsedRows;
      assert UniqueTxIds(transactions) by {
        RenumberKeepsIdsUnique(base, parsedRows);
      }
      parsedRows := [];
    }

    /**
     * `getVisibleTransactions`: the transactions passing the filter bar,
     * each as often as it is stored, sorted on the chosen column.
     */
    method GetVisibleTransactions() returns (txs: seq<Transaction>)
      ensures multiset(txs) == multiset(ApplyFilters(categories, filters, transactions))
      ensures forall tx :: tx in txs <==> tx in transactions && Matches(categories, filters, tx)
      ensures SortedBy(txs, SortKeyOf(categories, sortField), sortDir == "asc")
    {
      var filtered := ApplyFilters(categories, filters, transactions);
      txs := SortBy(filtered, SortKeyOf(categories, sortField), sortDir == "asc");
      forall tx ensures tx in txs <==> tx in transactions && Matches(categories, filters, tx) {
        ApplyFiltersKeeps(categories, filters, transactions, tx);
        assert tx in txs <==> tx in multiset(txs);
        assert tx in filtered <==> tx in multiset(filtered);
      }
    }

    // ---- Categories ----

    /**
     * `getNextCategoryId`: advances the counter past every candidate
     * `"cat-" + n` some category already carries and hands out the first
     * free one.
     */
    method GetNextCategoryId() returns (id: string)
      modifies this`nextCategoryId
      ensures id == CatId(FirstFree(categories, old(nextCategoryId)))
      ensures nextCategoryId == FirstFree(categories, old(nextCategoryId)) + 1
      ensures !HasId(categories, id)
    {
      ghost var free := FirstFree(categories, nextCategoryId);
      id := "";
      var taken := true;
      while taken
        invariant taken ==> nextCategoryId <= free
        invariant !taken ==> nextCategoryId == free + 1 && id == CatId(free)
        decreases free + 1 - nextCategoryId
      {
        id := CatId(nextCategoryId);
        nextCategoryId := nextCategoryId + 1;
        taken := HasId(categories, id);
      }
    }

    /**
     * `addCategory`: appends a category with a fresh id, the default name
     * for its type and the given parent, and opens it for editing.
     */
    method AddCategory(kind: string, parentId: string)
      requires Valid()
      modifies this`categories, this`catEditingId, this`nextCategoryId
      ensures Valid()
      ensures var newId := CatId(FirstFree(old(categories), old(nextCategoryId)));
        && categories == old(categories) + [Category(newId, NewCategoryName(kind), parentId, kind)]
        && catEditingId == newId
        && !HasId(old(categories), newId)
      ensures nextCategoryId == FirstFree(old(categories), old(nextCategoryId)) + 1
    {
      var newId := GetNextCategoryId();
      var cat := Category(newId, NewCategoryName(kind), parentId, kind);
      forall i, j | 0 <= i < j < |categories| + 1 ensures (categories + [cat])[i].id != (categories + [cat])[j].id {
        if j == |categories| {
          assert categories[i] in categories;
        }
      }
      categories := categories + [cat];
      catEditingId := newId;
    }

    /**
     * `collectCategoryDescendants`: a breadth-first walk from `id` that
     * queues each category filed under the current entry unless it was
     * already visited.
     */
    method CollectCategoryDescendants(id: string) returns (all: seq<string>)
      requires UniqueCategoryIds(categories)
      ensures DescendantList(categories, id, all)
    {
      var cats := categories;
      var toVisit := [id];
      all := [];
      var i := 0;
      while i < |toVisit|
        invariant Walking(cats, id, toVisit, i) && all == toVisit[..i]
        decreases |cats| + 1 - i
      {
        var current := toVisit[i];
        all := all + [current];
        ghost var before := toVisit;
        assert all == before[..i + 1];
        toVisit := QueueChildren(id, i, all, toVisit);
        assert Walking(cats, id, toVisit, i + 1) && all == toVisit[..i + 1] by {
          SubtreeStep(cats, id, before, toVisit, i);
          assert toVisit[..|before|] == before;
          assert toVisit[..i + 1] == toVisit[..|before|][..i + 1];
        }
        i := i + 1;
      }
      WalkDone(cats, id, toVisit);
      assert toVisit[..|toVisit|] == toVisit;
    }

    /**
     * The `forEach` inside `collectCategoryDescendants`: queues every
     * category filed under the entry being visited that is not visited yet.
     */
    method QueueChildren(ghost id: string, i: int, all: seq<string>, toVisit: seq<string>)
      returns (queued: seq<string>)
      requires UniqueCategoryIds(categories) && Walking(categories, id, toVisit, i)
      requires i < |toVisit| && all == toVisit[..i + 1]
      ensures Scanning(categories, toVisit, i, queued, |categories|)
    {
      var cats := categories;
      var current := toVisit[i];
      queued := toVisit;
      ScanStart(cats, id, toVisit, i);
      var j := 0;
      while j < |cats|
        invariant 0 <= j <= |cats|
        invariant Scanning(cats, toVisit, i, queued, j)
      {
        var c := cats[j];
        if ParentIs(c, current) && IndexOf(all, c.id) == -1 {
          ScanPush(cats, id, toVisit, i, queued, j);
          queued := queued + [c.id];
        } else {
          ScanSkip(cats, id, toVisit, i, queued, j);
        }
        j := j + 1;
      }
    }

    /**
     * `deleteCategoryAndChildren`: removes the category and its whole
     * subtree, clears the category of every transaction filed under one of
     * them and closes the editor if it showed the deleted category.
     */
    method DeleteCategoryAndChildren(id: string)
      requires Valid()
      modifies this`categories, this`transactions, this`catEditingId
      ensures Valid()
      ensures exists ids :: (DescendantList(old(categories), id, ids)
        && categories == WithoutIds(old(categories), ids)
        && transactions == ClearRefs(old(transactions), ids))
      ensures catEditingId == if old(catEditingId) == id then "" else old(catEditingId)
    {
      var ids := CollectCategoryDescendants(id);
      FilterKeepsUniqueIds(categories, (c: Category) => c.id !in ids);
      categories := WithoutIds(categories, ids);
      var k := 0;
      while k < |transactions|
        invariant 0 <= k <= |transactions| == |old(transactions)|
        invariant categories == WithoutIds(old(categories), ids) && catEditingId == old(catEditingId)
        invariant forall j :: 0 <= j < k ==> transactions[j] == Cleared(old(transactions)[j], ids)
        invariant forall j :: k <= j < |transactions| ==> transactions[j] == old(transactions)[j]
      {
        if IndexOf(ids, transactions[k].categoryId) != -1 {
          transactions := transactions[k := transactions[k].(categoryId := "")];
        }
        k := k + 1;
      }
      assert transactions == ClearRefs(old(transactions), ids);
      ClearRefsKeepsIds(old(transactions), ids);
      if catEditingId == id {
        catEditingId := "";
      }
    }
  }

  // ------------------------------------------------------------------
  // Steps of the descendant walk
  // ------------------------------------------------------------------

  /**
   * The outer loop's invariant: the entries before `i` are visited; every
   * queued entry after the start is a category whose parent was queued
   * earlier (and visited already, if the entry is still waiting); every
   * category filed under a visited entry is queued.
   */
  ghost predicate Walking(cats: seq<Category>, id: string, toVisit: seq<string>, i: int) {
    && 0 <= i <= |toVisit| && |toVisit| >= 1 && toVisit[0] == id
    && |toVisit| <= |cats| + 1
    && Distinct(toVisit)
    && (forall k :: 1 <= k < |toVisit| ==> toVisit[k] in IdsOf(cats))
    && (forall k {:trigger ParentOfId(cats, toVisit[k])} :: 1 <= k < |toVisit| ==> ParentOfId(cats, toVisit[k]) in toVisit[..k])
    && (forall k {:trigger ParentOfId(cats, toVisit[k])} :: i <= k < |toVisit| && 1 <= k ==> ParentOfId(cats, toVisit[k]) in toVisit[..i])
    && (forall c :: c in cats && c.parentId != "" && c.parentId in toVisit[..i] ==> c.id in toVisit)
  }

  /**
   * The inner loop's invariant while visiting `before[i]`: the queue only
   * grew, and what it gained are the ids of categories before `j` filed
   * under the current entry, all of which are now queued.
   */
  ghost predicate Scanning(cats: seq<Category>, before: seq<string>, i: int, toVisit: seq<string>, j: int) {
    && 0 <= i < |before| && 0 <= j <= |cats|
    && |toVisit| >= |before| && toVisit[..|before|] == before
    && Distinct(toVisit)
    && (forall k :: |before| <= k < |toVisit| ==>
         toVisit[k] in IdsOf(cats[..j]) && ParentOfId(cats, toVisit[k]) == before[i])
    && (forall q :: 0 <= q < j && ParentIs(cats[q], before[i]) ==> cats[q].id in toVisit)
  }

  lemma ScanStart(cats: seq<Category>, id: string, toVisit: seq<string>, i: int)
    requires Walking(cats, id, toVisit, i) && i < |toVisit|
    ensures Scanning(cats, toVisit, i, toVisit, 0)
  {
  }

  /** Queuing a category filed under the current entry and not yet visited. */
  lemma ScanPush(cats: seq<Category>, id: string, before: seq<string>, i: int, toVisit: seq<string>, j: int)
    requires UniqueCategoryIds(cats) && Walking(cats, id, before, i)
    requires Scanning(cats, before, i, toVisit, j) && j < |cats|
    requires ParentIs(cats[j], before[i]) && cats[j].id !in before[..i + 1]
    ensures Scanning(cats, before, i, toVisit + [cats[j].id], j + 1)
  {
    var x := cats[j].id;
    ParentOfOwnId(cats, j);
    assert IdsOf(cats[..j + 1]) == IdsOf(cats[..j]) + [x];
    forall k | 0 <= k < |toVisit| ensures toVisit[k] != x {
      if k <= i {
        assert toVisit[k] == before[..i + 1][k];
      } else if k < |before| {
        assert toVisit[k] == before[k];
        assert before[i] !in before[..i] by {
          forall p | 0 <= p < i ensures before[..i][p] != before[i] {
            assert before[..i][p] == before[p];
          }
        }
        assert ParentOfId(cats, before[k]) != ParentOfId(cats, x);
      }
    }
    var r := toVisit + [x];
    assert r[..|before|] == before;
    forall a, b | 0 <= a < b < |r| ensures r[a] != r[b] {
      if b < |toVisit| {
        assert r[a] == toVisit[a] && r[b] == toVisit[b];
      } else {
        assert r[a] == toVisit[a];
      }
    }
    forall k | |before| <= k < |r|
      ensures r[k] in IdsOf(cats[..j + 1]) && ParentOfId(cats, r[k]) == before[i]
    {
      if k < |toVisit| {
        assert r[k] == toVisit[k];
      }
    }
  }

  /** Passing over a category: not filed under the current entry, or visited already. */
  lemma ScanSkip(cats: seq<Category>, id: string, before: seq<string>, i: int, toVisit: seq<string>, j: int)
    requires Walking(cats, id, before, i)
    requires Scanning(cats, before, i, toVisit, j) && j < |cats|
    requires !(ParentIs(cats[j], before[i]) && cats[j].id !in before[..i + 1])
    ensures Scanning(cats, before, i, toVisit, j + 1)
  {
    assert IdsOf(cats[..j + 1]) == IdsOf(cats[..j]) + [cats[j].id];
    if ParentIs(cats[j], before[i]) {
      var k :| 0 <= k < i + 1 && before[..i + 1][k] == cats[j].id;
      assert toVisit[k] == cats[j].id;
    }
  }

  /** After the inner scan, the walk's invariant holds one entry further on. */
  lemma SubtreeStep(cats: seq<Category>, id: string, before: seq<string>, toVisit: seq<string>, i: int)
    requires Walking(cats, id, before, i)
    requires Scanning(cats, before, i, toVisit, |cats|)
    ensures Walking(cats, id, toVisit, i + 1)
  {
    assert cats[..|cats|] == cats;
    StepQueued(cats, id, before, toVisit, i);
    StepWaiting(cats, id, before, toVisit, i);
    StepClosed(cats, id, before, toVisit, i);
    VisitBound(cats, toVisit);
  }

  lemma StepQueued(cats: seq<Category>, id: string, before: seq<string>, toVisit: seq<string>, i: int)
    requires Walking(cats, id, before, i)
    requires Scanning(cats, before, i, toVisit, |cats|) && cats[..|cats|] == cats
    ensures forall k :: 1 <= k < |toVisit| ==> toVisit[k] in IdsOf(cats)
    ensures forall k :: 1 <= k < |toVisit| ==> ParentOfId(cats, toVisit[k]) in toVisit[..k]
  {
    forall k | 1 <= k < |toVisit|
      ensures toVisit[k] in IdsOf(cats)
      ensures ParentOfId(cats, toVisit[k]) in toVisit[..k]
    {
      if k < |before| {
        assert toVisit[k] == before[k] && toVisit[..k] == before[..k];
        assert ParentOfId(cats, before[k]) in before[..k];
      } else {
        assert toVisit[..k][i] == before[i];
      }
    }
  }

  lemma StepWaiting(cats: seq<Category>, id: string, before: seq<string>, toVisit: seq<string>, i: int)
    requires Walking(cats, id, before, i)
    requires Scanning(cats, before, i, toVisit, |cats|)
    ensures forall k :: i + 1 <= k < |toVisit| && 1 <= k ==> ParentOfId(cats, toVisit[k]) in toVisit[..i + 1]
  {
    assert toVisit[..i + 1] == before[..i + 1];
    forall k | i + 1 <= k < |toVisit| && 1 <= k
      ensures ParentOfId(cats, toVisit[k]) in toVisit[..i + 1]
    {
      if k < |before| {
        assert toVisit[k] == before[k];
        var p := ParentOfId(cats, before[k]);
        assert p in before[..i];
        var q :| 0 <= q < i && before[..i][q] == p;
        assert before[..i + 1][q] == p;
      } else {
        assert before[..i + 1][i] == before[i];
      }
    }
  }

  lemma StepClosed(cats: seq<Category>, id: string, before: seq<string>, toVisit: seq<string>, i: int)
    requires Walking(cats, id, before, i)
    requires Scanning(cats, before, i, toVisit, |cats|)
    ensures forall c :: c in cats && c.parentId != "" && c.parentId in toVisit[..i + 1] ==> c.id in toVisit
  {
    assert toVisit[..i + 1] == before[..i + 1];
    forall c | c in cats && c.parentId != "" && c.parentId in toVisit[..i + 1] ensures c.id in toVisit {
      var q :| 0 <= q < |cats| && cats[q] == c;
      var p :| 0 <= p < i + 1 && before[..i + 1][p] == c.parentId;
      if p < i {
        assert before[..i][p] == c.parentId;
        var k :| 0 <= k < |before| && before[k] == c.id;
        assert toVisit[k] == c.id;
      } else {
        assert ParentIs(cats[q], before[i]);
      }
    }
  }

  /** A finished walk lists the subtree. */
  lemma WalkDone(cats: seq<Category>, id: string, toVisit: seq<string>)
    requires Walking(cats, id, toVisit, |toVisit|)
    ensures DescendantList(cats, id, toVisit)
  {
    assert toVisit[..|toVisit|] == toVisit;
  }
}
