/**
 * `buildCategoryOptionsFlat` (app.js:805-841): the category tree as the
 * dropdowns list it, depth first from the roots, the children of each
 * node sorted by name.
 */
module CategoryTree {
  import opened Seqs
  import opened Records
  import opened Sorting

  /** One line of the flattened tree. */
  datatype FlatOption = FlatOption(id: string, name: string, depth: nat, kind: string, parentId: string)

  /** The key of `childrenMap` a category is filed under: its parent's id, or "root". */
  function ParentKey(c: Category): (k: string)
    ensures k != ""
  {
    if c.parentId == "" then "root" else c.parentId
  }

  /** The comparator of the children lists: `a.name.localeCompare(b.name)`. */
  function ByName(c: Category): Key {
    TextKey(c.name)
  }

  /** `childrenMap[key] || []`, sorted by name as the map's lists are. */
  function Children(cats: seq<Category>, key: string): seq<Category> {
    SortBy(Filter(cats, c => ParentKey(c) == key), ByName, true)
  }

  /** The children of a key are the categories filed under it, in name order. */
  lemma ChildrenSpec(cats: seq<Category>, key: string, c: Category)
    ensures c in Children(cats, key) <==> c in cats && ParentKey(c) == key
    ensures SortedBy(Children(cats, key), ByName, true)
  {
    FilterCounts(cats, c => ParentKey(c) == key, c);
    var kids := Filter(cats, c => ParentKey(c) == key);
    assert c in Children(cats, key) <==> c in multiset(Children(cats, key));
    assert c in kids <==> c in multiset(kids);
  }

  function Line(c: Category, depth: nat): FlatOption {
    FlatOption(c.id, c.name, depth, c.kind, c.parentId)
  }

  /**
   * `walk(node, depth)`: the node, then each child's walk one level
   * deeper. The source recurses without a bound; `fuel` caps the depth at
   * the number of categories, which a forest with unique ids, none of them
   * `root`, and no parent cycle never reaches.
   */
  function Walk(cats: seq<Category>, node: Category, depth: nat, fuel: nat): (out: seq<FlatOption>)
    ensures |out| >= 1 && out[0] == Line(node, depth)
    decreases fuel, 0
  {
    [Line(node, depth)] + (if fuel == 0 then [] else WalkAll(cats, Children(cats, node.id), depth + 1, fuel - 1))
  }

  function WalkAll(cats: seq<Category>, nodes: seq<Category>, depth: nat, fuel: nat): (out: seq<FlatOption>)
    decreases fuel, 1, |nodes|
  {
    if nodes == [] then [] else Walk(cats, nodes[0], depth, fuel) + WalkAll(cats, nodes[1..], depth, fuel)
  }

  /** `buildCategoryOptionsFlat`: the walks of the roots, in name order. */
  function BuildCategoryOptionsFlat(cats: seq<Category>): seq<FlatOption> {
    WalkAll(cats, Children(cats, "root"), 0, |cats|)
  }

  /**
   * The shape of a flattened forest at `depth`: every line copies a category; a line
   * at the base depth is one of the given nodes, and a deeper line sits below an
   * earlier line one level up whose id is the key it is filed under.
   */
  predicate WellNested(cats: seq<Category>, nodes: seq<Category>, depth: nat, out: seq<FlatOption>) {
    forall k :: 0 <= k < |out| ==> NestedAt(cats, nodes, depth, out, k)
  }

  /** Line `k` of `out` copies a category and is either a base node or below its parent's line. */
  predicate NestedAt(cats: seq<Category>, nodes: seq<Category>, depth: nat, out: seq<FlatOption>, k: nat)
    requires k < |out|
  {
    && out[k].depth >= depth
    && Copies(cats, out[k])
    && (out[k].depth == depth ==> Copies(nodes, out[k]))
    && (out[k].depth > depth ==> exists j :: 0 <= j < k && IsParentLine(out[j], out[k]))
  }

  /** The line copies one of the categories `cs`. */
  predicate Copies(cs: seq<Category>, o: FlatOption) {
    exists c :: c in cs && o == Line(c, o.depth)
  }

  function ParentKeyOf(o: FlatOption): string {
    if o.parentId == "" then "root" else o.parentId
  }

  /** `p` is the line of the node `o` is filed under, one level up. */
  predicate IsParentLine(p: FlatOption, o: FlatOption) {
    p.depth + 1 == o.depth && p.id == ParentKeyOf(o)
  }

  lemma {:induction false} WalkNested(cats: seq<Category>, node: Category, depth: nat, fuel: nat)
    requires node in cats
    ensures WellNested(cats, [node], depth, Walk(cats, node, depth, fuel))
    decreases fuel, 0
  {
    if fuel > 0 {
      var kids := Children(cats, node.id);
      KidsOf(cats, node.id);
      WalkAllNested(cats, kids, depth + 1, fuel - 1);
      NestUnder(cats, node, kids, depth, WalkAll(cats, kids, depth + 1, fuel - 1));
    }
  }

  /** The children listed under a key are categories filed under it. */
  lemma KidsOf(cats: seq<Category>, key: string)
    ensures forall c :: c in Children(cats, key) ==> c in cats && ParentKey(c) == key
  {
    forall c | c in Children(cats, key) ensures c in cats && ParentKey(c) == key {
      ChildrenSpec(cats, key, c);
    }
  }

  /** A node's line followed by the nested walks of its children is nested under the node. */
  lemma NestUnder(cats: seq<Category>, node: Category, kids: seq<Category>, depth: nat, rest: seq<FlatOption>)
    requires node in cats
    requires forall c :: c in kids ==> c in cats && ParentKey(c) == node.id
    requires WellNested(cats, kids, depth + 1, rest)
    ensures WellNested(cats, [node], depth, [Line(node, depth)] + rest)
  {
    var out := [Line(node, depth)] + rest;
    forall k | 0 <= k < |out| ensures NestedAt(cats, [node], depth, out, k) {
      if k == 0 {
        assert node in [node];
      } else {
        assert out[k] == rest[k - 1];
        assert NestedAt(cats, kids, depth + 1, rest, k - 1);
        if out[k].depth == depth + 1 {
          var c :| c in kids && rest[k - 1] == Line(c, rest[k - 1].depth);
          assert ParentKeyOf(out[k]) == ParentKey(c);
          assert IsParentLine(out[0], out[k]);
        } else {
          var j :| 0 <= j < k - 1 && IsParentLine(rest[j], rest[k - 1]);
          assert out[j + 1] == rest[j];
        }
      }
    }
  }

  lemma {:induction false} WalkAllNested(cats: seq<Category>, nodes: seq<Category>, depth: nat, fuel: nat)
    requires forall c :: c in nodes ==> c in cats
    ensures WellNested(cats, nodes, depth, WalkAll(cats, nodes, depth, fuel))
    decreases fuel, 1, |nodes|
  {
    if nodes != [] {
      WalkNested(cats, nodes[0], depth, fuel);
      WalkAllNested(cats, nodes[1..], depth, fuel);
      NestConcat(cats, nodes, depth, Walk(cats, nodes[0], depth, fuel), WalkAll(cats, nodes[1..], depth, fuel));
    }
  }

  /** The nested walk of the first node followed by the nested walks of the others is nested over all of them. */
  lemma NestConcat(cats: seq<Category>, nodes: seq<Category>, depth: nat, first: seq<FlatOption>, rest: seq<FlatOption>)
    requires nodes != []
    requires WellNested(cats, [nodes[0]], depth, first) && WellNested(cats, nodes[1..], depth, rest)
    ensures WellNested(cats, nodes, depth, first + rest)
  {
    var out := first + rest;
    forall k | 0 <= k < |out| ensures NestedAt(cats, nodes, depth, out, k) {
      if k < |first| {
        assert out[k] == first[k];
        assert NestedAt(cats, [nodes[0]], depth, first, k);
        if out[k].depth > depth {
          var j :| 0 <= j < k && IsParentLine(first[j], first[k]);
          assert out[j] == first[j];
        }
      } else {
        var k' := k - |first|;
        assert out[k] == rest[k'];
        assert NestedAt(cats, nodes[1..], depth, rest, k');
        if out[k].depth > depth {
          var j :| 0 <= j < k' && IsParentLine(rest[j], rest[k']);
          assert out[j + |first|] == rest[j];
        }
      }
    }
  }

  /**
   * Every option copies a category; the top-level options are the roots, and
   * every deeper option comes after an option one level up that is its parent.
   */
  lemma FlatTree(cats: seq<Category>)
    ensures WellNested(cats, Children(cats, "root"), 0, BuildCategoryOptionsFlat(cats))
  {
    var roots := Children(cats, "root");
    forall c | c in roots ensures c in cats {
      ChildrenSpec(cats, "root", c);
    }
    WalkAllNested(cats, roots, 0, |cats|);
  }
}
