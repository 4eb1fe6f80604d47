/**
 * The two records every draft of the dashboard keeps in its state: a
 * transaction and a category. A JavaScript `null` id (a transaction without
 * a category, a top-level category) is the empty string here, which every
 * draft treats the same way (`!id`).
 */
module Records {
  import opened Wrappers

  /** A ledger line; `amount` is positive for income and negative for spending. */
  datatype Transaction = Transaction(
    id: int,
    date: string,
    description: string,
    amount: real,
    categoryId: string,
    labels: seq<string>,
    account: string,
    note: string)

  /** A node of the category tree; `kind` is the record's `type` field. */
  datatype Category = Category(id: string, name: string, parentId: string, kind: string)

  /** The index of the first category with the given id, or `|cats|` when there is none. */
  function FirstIndexOf(cats: seq<Category>, id: string): (i: nat)
    ensures i <= |cats|
    ensures forall j :: 0 <= j < i ==> cats[j].id != id
    ensures i < |cats| ==> cats[i].id == id
  {
    if cats == [] then 0
    else if cats[0].id == id then 0
    else 1 + FirstIndexOf(cats[1..], id)
  }

  /** `categories.find(c => c.id === id)`: the first category carrying the id. */
  function FindCategory(cats: seq<Category>, id: string): (r: Option<Category>)
    ensures r.None? <==> forall c :: c in cats ==> c.id != id
    ensures r.Some? ==> r.value.id == id && r.value in cats
    ensures r.Some? ==> r.value == cats[FirstIndexOf(cats, id)]
  {
    var i := FirstIndexOf(cats, id);
    if i < |cats| then Some(cats[i]) else None
  }

  /** `getCategoryById` (app.js:414-419): a missing id finds nothing. */
  function GetCategoryById(cats: seq<Category>, id: string): (r: Option<Category>)
    ensures id == "" ==> r == None
    ensures id != "" ==> r == FindCategory(cats, id)
  {
    if id == "" then None else FindCategory(cats, id)
  }

  /** `getCategoryNameById` (app.js:421-424): the name, or "" when nothing is found. */
  function CategoryNameById(cats: seq<Category>, id: string): (name: string)
    ensures GetCategoryById(cats, id).Some? ==> name == GetCategoryById(cats, id).value.name
    ensures GetCategoryById(cats, id).None? ==> name == ""
  {
    var cat := GetCategoryById(cats, id);
    if cat.Some? then cat.value.name else ""
  }

  /** No two categories share an id. */
  predicate UniqueCategoryIds(cats: seq<Category>) {
    forall i, j :: 0 <= i < j < |cats| ==> cats[i].id != cats[j].id
  }

  /** With unique ids, the category found is the one with that id. */
  lemma FindUnique(cats: seq<Category>, c: Category)
    requires UniqueCategoryIds(cats)
    requires c in cats
    ensures FindCategory(cats, c.id) == Some(c)
  {
    var k :| 0 <= k < |cats| && cats[k] == c;
    var i := FirstIndexOf(cats, c.id);
    assert i <= k;
  }
}
