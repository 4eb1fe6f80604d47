/**
 * The transaction list of the two later drafts and the two operations that
 * change it in place: dropping a dragged transaction on a category
 * (`handleCategoryDrop`, src/app.js:542-557 and src/js/app.js:513-526) and
 * appending the rows of an imported CSV file under fresh ids
 * (src/app.js:589-606).
 */
module LedgerState {
  import opened Wrappers
  import opened Records
  import opened Store

  /** The index of the first transaction with the id, or `|txs|` when none has it. */
  function FirstTxIndex(txs: seq<Transaction>, id: int): (i: nat)
    ensures i <= |txs|
    ensures forall j :: 0 <= j < i ==> txs[j].id != id
    ensures i < |txs| ==> txs[i].id == id
  {
    if txs == [] then 0
    else if txs[0].id == id then 0
    else 1 + FirstTxIndex(txs[1..], id)
  }

  /**
   * The list after a drop on `categoryId`: the first transaction carrying
   * the dragged id is filed under that category; with nothing dragged, or
   * no transaction carrying the id, the list is as it was.
   */
  function Recategorised(txs: seq<Transaction>, dragged: Option<int>, categoryId: string): (r: seq<Transaction>)
    ensures |r| == |txs|
    ensures dragged.None? ==> r == txs
    ensures forall j :: 0 <= j < |txs| ==> r[j].id == txs[j].id
    ensures dragged.Some? ==> forall j :: 0 <= j < |txs| ==>
      r[j] == if txs[j].id == dragged.value && (forall k :: 0 <= k < j ==> txs[k].id != dragged.value)
              then txs[j].(categoryId := categoryId) else txs[j]
  {
    if dragged.None? then txs
    else
      var i := FirstTxIndex(txs, dragged.value);
      if i < |txs| then txs[i := txs[i].(categoryId := categoryId)] else txs
  }

  /**
   * With unique ids, a drop changes only the dragged transaction, and of
   * it only the category.
   */
  lemma RecategorisedOnly(txs: seq<Transaction>, dragged: Option<int>, categoryId: string)
    requires UniqueTxIds(txs)
    ensures var r := Recategorised(txs, dragged, categoryId);
      forall j :: 0 <= j < |txs| ==>
        r[j] == if dragged == Some(txs[j].id) then txs[j].(categoryId := categoryId) else txs[j]
  {
    if dragged.Some? {
      var i := FirstTxIndex(txs, dragged.value);
      forall j | 0 <= j < |txs| && dragged == Some(txs[j].id) ensures i == j {
      }
    }
  }

  /** `state.transactions` of the later drafts, and the id of the row being dragged. */
  class Ledger {
    var transactions: seq<Transaction>
    var draggedTransactionId: Option<int>

    /** An empty list with nothing dragged. */
    constructor ()
      ensures transactions == [] && draggedTransactionId == None
    {
      transactions := [];
      draggedTransactionId := None;
    }

    /**
     * `handleCategoryDrop`: nothing dragged, or no transaction with the
     * dragged id, changes nothing; otherwise the first such transaction
     * is filed under `categoryId`.
     */
    method HandleCategoryDrop(categoryId: string)
      modifies this`transactions
      ensures transactions == Recategorised(old(transactions), draggedTransactionId, categoryId)
    {
      if draggedTransactionId.None? {
        return;
      }
      var id := draggedTransactionId.value;
      var i := 0;
      while i < |transactions| && transactions[i].id != id
        invariant 0 <= i <= |transactions|
        invariant forall j :: 0 <= j < i ==> transactions[j].id != id
      {
        i := i + 1;
      }
      if i == |transactions| {
        return;
      }
      transactions := transactions[i := transactions[i].(categoryId := categoryId)];
    }

    /**
     * The import handler once the file is parsed: no rows changes nothing;
     * otherwise the list is emptied when `clear` is set, and the rows are
     * appended in order, numbered on from one past the largest id left.
     */
    method ImportTransactions(newTx: seq<Transaction>, clear: bool)
      modifies this`transactions
      ensures newTx == [] ==> transactions == old(transactions)
      ensures newTx != [] ==>
        var base := if clear then [] else old(transactions);
        transactions == base + Renumber(newTx, MaxId(base) + 1)
      ensures newTx != [] && (clear || UniqueTxIds(old(transactions))) ==> UniqueTxIds(transactions)
    {
      if |newTx| == 0 {
        return;
      }
      if clear {
        transactions := [];
      }
      ghost var base := transactions;
      var maxId := MaxId(transactions);
      AppendNumbered(newTx, maxId + 1);
      if UniqueTxIds(base) {
        RenumberKeepsIdsUnique(base, newTx);
      }
    }

    /** `newTx.forEach(t => { t.id = nextId++; transactions.push(t); })` with `nextId` starting at `first`. */
    method AppendNumbered(rows: seq<Transaction>, first: int)
      modifies this`transactions
      ensures transactions == old(transactions) + Renumber(rows, first)
    {
      var nextId := first;
      for k := 0 to |rows|
        invariant nextId == first + k
        invariant transactions == old(transactions) + Renumber(rows[..k], first)
      {
        RenumberStep(rows, k, first);
        transactions := transactions + [rows[k].(id := nextId)];
        nextId := nextId + 1;
      }
      assert rows[..|rows|] == rows;
    }
  }
}
