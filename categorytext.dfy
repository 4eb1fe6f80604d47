/**
 * `generateCategoriesTextFromState` (src/js/app.js:136-163): the category
 * list written back out as the dash-indented outline the parser reads, one
 * line per category reachable from a top-level one, depth first, children
 * in list order, each line prefixed by one dash per level of depth. The
 * round-trip theorem at the end reads the text back with `Outline`.
 */
module CategoryText {
  import opened Wrappers
  import opened Seqs
  import opened Text
  import opened Records
  import opened Outline
  import CategoryTree

  /** `c.parentId || "root"`, the key of `childrenMap` a category is filed under. */
  function Key(c: Category): string {
    CategoryTree.ParentKey(c)
  }

  function FiledUnder(key: string): Category -> bool {
    c => Key(c) == key
  }

  /** `childrenMap[key] || []`: the categories filed under `key`, in list order. */
  function Kids(cats: seq<Category>, key: string): seq<Category> {
    Filter(cats, FiledUnder(key))
  }

  /** A missing key of the map reads as an empty list. */
  function Lookup(m: map<string, seq<Category>>, key: string): seq<Category> {
    if key in m then m[key] else []
  }

  lemma KidsStep(cats: seq<Category>, i: int, key: string)
    requires 0 <= i < |cats|
    ensures Kids(cats[..i + 1], key) == Kids(cats[..i], key) + (if Key(cats[i]) == key then [cats[i]] else [])
  {
    assert cats[..i + 1] == cats[..i] + [cats[i]];
    FilterAppend(cats[..i], [cats[i]], FiledUnder(key));
  }

  /** `state.categories.forEach`: file each category under its parent's id, or "root". */
  method BuildChildrenMap(cats: seq<Category>) returns (childrenMap: map<string, seq<Category>>)
    ensures forall key :: Lookup(childrenMap, key) == Kids(cats, key)
  {
    childrenMap := map[];
    for i := 0 to |cats|
      invariant forall key :: Lookup(childrenMap, key) == Kids(cats[..i], key)
    {
      var c := cats[i];
      var key := Key(c);
      if key !in childrenMap {
        childrenMap := childrenMap[key := []];
      }
      childrenMap := childrenMap[key := childrenMap[key] + [c]];
      forall k ensures Lookup(childrenMap, k) == Kids(cats[..i + 1], k) {
        KidsStep(cats, i, k);
      }
    }
    SliceAll(cats);
  }

  // ------------------------------------------------------------------
  // The depth-first walk
  // ------------------------------------------------------------------

  /** A category reached by the walk, and its depth. */
  datatype Visit = Visit(cat: Category, level: nat)

  /**
   * `dfs(node, level)`: the node, then the walks of its children one level
   * deeper. The source recurses without a bound; `fuel` caps the depth at
   * the number of categories, which a forest with unique ids, none of them
   * `root`, and no parent cycle never reaches.
   */
  function Dfs(cats: seq<Category>, node: Category, level: nat, fuel: nat): (vs: seq<Visit>)
    ensures |vs| >= 1 && vs[0] == Visit(node, level)
    decreases fuel, 0
  {
    [Visit(node, level)] + (if fuel == 0 then [] else DfsAll(cats, Kids(cats, node.id), level + 1, fuel - 1))
  }

  /** The walks of several nodes, one after the other. */
  function DfsAll(cats: seq<Category>, nodes: seq<Category>, level: nat, fuel: nat): seq<Visit>
    decreases fuel, 1, |nodes|
  {
    if nodes == [] then []
    else DfsAll(cats, nodes[..|nodes| - 1], level, fuel) + Dfs(cats, nodes[|nodes| - 1], level, fuel)
  }

  /** The walks of the roots, at level 0. */
  function Visits(cats: seq<Category>): seq<Visit> {
    DfsAll(cats, Kids(cats, "root"), 0, |cats|)
  }

  /** `prefix + cat.name`, the prefix being one dash per level. */
  function LineOf(v: Visit): string {
    Dashes(v.level) + v.cat.name
  }

  function Lines(vs: seq<Visit>): (lines: seq<string>)
    ensures |lines| == |vs|
  {
    seq(|vs|, k requires 0 <= k < |vs| => LineOf(vs[k]))
  }

  /** What `generateCategoriesTextFromState` returns: "" for no categories, else the lines joined by "\n". */
  function GeneratedText(cats: seq<Category>): (text: string)
    ensures cats == [] ==> text == ""
  {
    if cats == [] then "" else Join(Lines(Visits(cats)), "\n")
  }

  lemma LinesAppend(a: seq<Visit>, b: seq<Visit>)
    ensures Lines(a + b) == Lines(a) + Lines(b)
  {
    var l := Lines(a + b);
    forall k | 0 <= k < |l| ensures l[k] == (Lines(a) + Lines(b))[k] {
      if k < |a| {
        assert (a + b)[k] == a[k];
      } else {
        assert (a + b)[k] == b[k - |a|];
      }
    }
  }

  lemma DfsAllStep(cats: seq<Category>, nodes: seq<Category>, j: int, level: nat, fuel: nat)
    requires 0 <= j < |nodes|
    ensures Lines(DfsAll(cats, nodes[..j + 1], level, fuel))
      == Lines(DfsAll(cats, nodes[..j], level, fuel)) + Lines(Dfs(cats, nodes[j], level, fuel))
  {
    assert nodes[..j + 1][..j] == nodes[..j];
    LinesAppend(DfsAll(cats, nodes[..j], level, fuel), Dfs(cats, nodes[j], level, fuel));
  }

  /** `dfs(node, level)`: push the node's line, then walk its children. */
  method VisitNode(cats: seq<Category>, childrenMap: map<string, seq<Category>>, node: Category,
                   level: nat, fuel: nat, lines: seq<string>) returns (out: seq<string>)
    requires forall key :: Lookup(childrenMap, key) == Kids(cats, key)
    ensures out == lines + Lines(Dfs(cats, node, level, fuel))
    decreases fuel, 0
  {
    var prefix := if level > 0 then Dashes(level) else "";
    out := lines + [prefix + node.name];
    VisitLines(cats, node, level, fuel);
    if fuel > 0 {
      out := VisitChildren(cats, childrenMap, Lookup(childrenMap, node.id), level + 1, fuel - 1, out);
    }
  }

  /** `children.forEach(child => dfs(child, level + 1))`. */
  method VisitChildren(cats: seq<Category>, childrenMap: map<string, seq<Category>>, children: seq<Category>,
                       level: nat, fuel: nat, lines: seq<string>) returns (out: seq<string>)
    requires forall key :: Lookup(childrenMap, key) == Kids(cats, key)
    ensures out == lines + Lines(DfsAll(cats, children, level, fuel))
    decreases fuel, 1
  {
    out := lines;
    for j := 0 to |children|
      invariant out == lines + Lines(DfsAll(cats, children[..j], level, fuel))
    {
      DfsAllStep(cats, children, j, level, fuel);
      out := VisitNode(cats, childrenMap, children[j], level, fuel, out);
    }
    SliceAll(children);
  }

  lemma VisitLines(cats: seq<Category>, node: Category, level: nat, fuel: nat)
    ensures Lines(Dfs(cats, node, level, fuel))
      == [LineOf(Visit(node, level))] + Lines(if fuel == 0 then [] else DfsAll(cats, Kids(cats, node.id), level + 1, fuel - 1))
  {
    LinesAppend([Visit(node, level)], if fuel == 0 then [] else DfsAll(cats, Kids(cats, node.id), level + 1, fuel - 1));
  }

  /** `generateCategoriesTextFromState`, over the category list. */
  method GenerateCategoriesTextFromState(cats: seq<Category>) returns (text: string)
    ensures text == GeneratedText(cats)
  {
    if |cats| == 0 {
      return "";
    }
    var childrenMap := BuildChildrenMap(cats);
    var roots := Lookup(childrenMap, "root");
    assert roots == Kids(cats, "root");
    var lines := VisitChildren(cats, childrenMap, roots, 0, |cats|, []);
    assert lines == Lines(Visits(cats));
    text := Join(lines, "\n");
  }

  // ------------------------------------------------------------------
  // The shape of the walk
  // ------------------------------------------------------------------

  /**
   * Visit `p` is the one visit `i` hangs under: one level up, the category
   * it is filed under, and every visit in between at least as deep as `i`.
   */
  ghost predicate Under(vs: seq<Visit>, p: int, i: int)
    requires 0 <= p < i < |vs|
  {
    && vs[p].level + 1 == vs[i].level
    && vs[p].cat.id == Key(vs[i].cat)
    && forall j :: p < j < i ==> vs[j].level >= vs[i].level
  }

  /** Visit `i` of a walk of `nodes` from depth `base`: a node at the base depth, or below one it hangs under. */
  ghost predicate ForestAt(vs: seq<Visit>, nodes: seq<Category>, base: nat, i: int)
    requires 0 <= i < |vs|
  {
    && vs[i].level >= base
    && (vs[i].level == base ==> vs[i].cat in nodes)
    && (vs[i].level > base ==> exists p :: 0 <= p < i && Under(vs, p, i))
  }

  ghost predicate Forest(vs: seq<Visit>, nodes: seq<Category>, base: nat) {
    forall i :: 0 <= i < |vs| ==> ForestAt(vs, nodes, base, i)
  }

  lemma KidsFiled(cats: seq<Category>, key: string)
    ensures forall c :: c in Kids(cats, key) ==> Key(c) == key
  {
    forall c | c in Kids(cats, key) ensures Key(c) == key {
      FilterCounts(cats, FiledUnder(key), c);
    }
  }

  lemma {:induction false} DfsForest(cats: seq<Category>, node: Category, level: nat, fuel: nat)
    ensures Forest(Dfs(cats, node, level, fuel), [node], level)
    decreases fuel, 0
  {
    var rest: seq<Visit> := if fuel == 0 then [] else DfsAll(cats, Kids(cats, node.id), level + 1, fuel - 1);
    if fuel > 0 {
      DfsAllForest(cats, Kids(cats, node.id), level + 1, fuel - 1);
      KidsFiled(cats, node.id);
    }
    HangUnder(node, level, if fuel == 0 then [] else Kids(cats, node.id), rest);
  }

  /** A node's visit followed by a walk of nodes filed under it, one level deeper. */
  lemma HangUnder(node: Category, level: nat, kids: seq<Category>, rest: seq<Visit>)
    requires forall c :: c in kids ==> Key(c) == node.id
    requires Forest(rest, kids, level + 1)
    ensures Forest([Visit(node, level)] + rest, [node], level)
  {
    var vs := [Visit(node, level)] + rest;
    forall i | 0 <= i < |vs| ensures ForestAt(vs, [node], level, i) {
      if i > 0 {
        assert vs[i] == rest[i - 1];
        assert ForestAt(rest, kids, level + 1, i - 1);
        if vs[i].level == level + 1 {
          forall j | 0 < j < i ensures vs[j].level >= vs[i].level {
            assert vs[j] == rest[j - 1];
            assert ForestAt(rest, kids, level + 1, j - 1);
          }
          assert Under(vs, 0, i);
        } else {
          var p :| 0 <= p < i - 1 && Under(rest, p, i - 1);
          ShiftUnder(vs, rest, 1, p, i);
        }
      } else {
        assert vs[0].cat in [node];
      }
    }
  }

  /** `Under` survives putting visits in front. */
  lemma ShiftUnder(vs: seq<Visit>, rest: seq<Visit>, d: nat, p: int, i: int)
    requires d <= i < |vs| && |vs| == d + |rest| && vs[d..] == rest
    requires 0 <= p < i - d && Under(rest, p, i - d)
    ensures Under(vs, p + d, i)
  {
    assert vs[p + d] == rest[p] && vs[i] == rest[i - d];
    forall j | p + d < j < i ensures vs[j].level >= vs[i].level {
      assert vs[j] == rest[j - d];
    }
  }

  lemma {:induction false} DfsAllForest(cats: seq<Category>, nodes: seq<Category>, level: nat, fuel: nat)
    ensures Forest(DfsAll(cats, nodes, level, fuel), nodes, level)
    decreases fuel, 1, |nodes|
  {
    if nodes != [] {
      var n := |nodes| - 1;
      DfsAllForest(cats, nodes[..n], level, fuel);
      DfsForest(cats, nodes[n], level, fuel);
      ForestConcat(nodes, level, DfsAll(cats, nodes[..n], level, fuel), Dfs(cats, nodes[n], level, fuel));
    }
  }

  /** The walks of the first nodes, then the walk of the last. */
  lemma ForestConcat(nodes: seq<Category>, level: nat, a: seq<Visit>, b: seq<Visit>)
    requires nodes != []
    requires Forest(a, nodes[..|nodes| - 1], level) && Forest(b, [nodes[|nodes| - 1]], level)
    ensures Forest(a + b, nodes, level)
  {
    var vs := a + b;
    var n := |nodes| - 1;
    forall i | 0 <= i < |vs| ensures ForestAt(vs, nodes, level, i) {
      if i < |a| {
        assert vs[i] == a[i];
        assert ForestAt(a, nodes[..n], level, i);
        if vs[i].level == level {
          assert vs[i].cat in nodes[..n];
        } else {
          var p :| 0 <= p < i && Under(a, p, i);
          assert vs[..|a|] == a;
          PrefixUnder(vs, a, p, i);
        }
      } else {
        assert vs[i] == b[i - |a|];
        assert ForestAt(b, [nodes[n]], level, i - |a|);
        if vs[i].level == level {
          assert vs[i].cat == nodes[n];
        } else {
          var p :| 0 <= p < i - |a| && Under(b, p, i - |a|);
          assert vs[|a|..] == b;
          ShiftUnder(vs, b, |a|, p, i);
        }
      }
    }
  }

  /** `Under` survives putting visits behind. */
  lemma PrefixUnder(vs: seq<Visit>, a: seq<Visit>, p: int, i: int)
    requires |a| <= |vs| && vs[..|a|] == a
    requires 0 <= p < i < |a| && Under(a, p, i)
    ensures Under(vs, p, i)
  {
    assert vs[p] == a[p] && vs[i] == a[i];
    forall j | p < j < i ensures vs[j].level >= vs[i].level {
      assert vs[j] == a[j];
    }
  }

  /**
   * The walk of the roots: top-level visits are root categories, and every
   * deeper visit comes after the visit of the category it is filed under,
   * with nothing shallower in between.
   */
  lemma VisitsShape(cats: seq<Category>)
    ensures var vs := Visits(cats);
      && (forall i :: 0 <= i < |vs| && vs[i].level == 0 ==> Key(vs[i].cat) == "root")
      && (forall i :: 0 <= i < |vs| && vs[i].level > 0 ==> exists p :: 0 <= p < i && Under(vs, p, i))
  {
    var vs := Visits(cats);
    DfsAllForest(cats, Kids(cats, "root"), 0, |cats|);
    KidsFiled(cats, "root");
    forall i | 0 <= i < |vs| && vs[i].level == 0 ensures Key(vs[i].cat) == "root" {
      assert ForestAt(vs, Kids(cats, "root"), 0, i);
    }
    forall i | 0 <= i < |vs| && vs[i].level > 0 ensures exists p :: 0 <= p < i && Under(vs, p, i) {
      assert ForestAt(vs, Kids(cats, "root"), 0, i);
    }
  }

  // ------------------------------------------------------------------
  // Round trip
  // ------------------------------------------------------------------

  /** The heading each visit's line should read back as. */
  function HeadingsOf(vs: seq<Visit>): (hs: seq<Heading>)
    ensures |hs| == |vs|
  {
    seq(|vs|, k requires 0 <= k < |vs| => Heading(vs[k].level, vs[k].cat.name))
  }

  /** The lines of the text are the lines of the walk. */
  lemma TextLines(cats: seq<Category>)
    requires forall c :: c in cats ==> PlainName(c.name)
    ensures ContentLines(GeneratedText(cats)) == Lines(Visits(cats))
  {
    var vs := Visits(cats);
    var lines := Lines(vs);
    if vs == [] {
      assert GeneratedText(cats) == "";
      assert Split("", '\n') == [""];
      assert Content("").None? by {
        assert RemoveChar("", '\r') == "";
        TrimEmptyIffBlank("");
      }
      assert Collect([""], Content) == [];
    } else {
      VisitedCats(cats);
      forall k | 0 <= k < |lines| ensures '\n' !in lines[k] && Content(lines[k]) == Some(lines[k]) {
        assert vs[k].cat in cats;
        LineContent(vs[k]);
      }
      SplitJoin(lines, '\n');
      CollectMapped(lines, Content, lines);
    }
  }

  /** Every visited category is one of the categories. */
  lemma VisitedCats(cats: seq<Category>)
    ensures forall i :: 0 <= i < |Visits(cats)| ==> Visits(cats)[i].cat in cats
  {
    FilterKids(cats, []);
    DfsAllIn(cats, Kids(cats, "root"), 0, |cats|);
  }

  lemma {:induction false} DfsAllIn(cats: seq<Category>, nodes: seq<Category>, level: nat, fuel: nat)
    requires forall c :: c in nodes ==> c in cats
    ensures forall i :: 0 <= i < |DfsAll(cats, nodes, level, fuel)| ==> DfsAll(cats, nodes, level, fuel)[i].cat in cats
    decreases fuel, 1, |nodes|
  {
    FilterKids(cats, nodes);
    if nodes != [] {
      var n := |nodes| - 1;
      var a: seq<Visit> := DfsAll(cats, nodes[..n], level, fuel);
      var b: seq<Visit> := Dfs(cats, nodes[n], level, fuel);
      var ab: seq<Visit> := a + b;
      DfsAllIn(cats, nodes[..n], level, fuel);
      var rest: seq<Visit> := if fuel == 0 then [] else DfsAll(cats, Kids(cats, nodes[n].id), level + 1, fuel - 1);
      if fuel > 0 {
        FilterKids(cats, Kids(cats, nodes[n].id));
        DfsAllIn(cats, Kids(cats, nodes[n].id), level + 1, fuel - 1);
      }
      forall i | 0 <= i < |ab| ensures ab[i].cat in cats {
        if i < |a| {
          assert ab[i] == a[i];
        } else if i == |a| {
          assert ab[i] == Visit(nodes[n], level);
        } else {
          assert ab[i] == rest[i - |a| - 1];
        }
      }
    }
  }

  lemma FilterKids(cats: seq<Category>, nodes: seq<Category>)
    ensures forall key, c :: c in Kids(cats, key) ==> c in cats
  {
    forall key, c | c in Kids(cats, key) ensures c in cats {
      FilterCounts(cats, FiledUnder(key), c);
    }
  }

  /** The line of a visit to a plainly named category is one clean line. */
  lemma LineContent(v: Visit)
    requires PlainName(v.cat.name)
    ensures '\n' !in LineOf(v) && Content(LineOf(v)) == Some(LineOf(v))
  {
    var line := LineOf(v);
    DashedLineOneLine(v.level, v.cat.name);
    forall k | 0 <= k < |line| ensures line[k] != '\n' && line[k] != '\r' {
      assert !IsTerminator(line[k]);
    }
    RemoveAbsent(line, '\r');
    DashedLineEnd(v.level, v.cat.name);
    TrimEmptyIffBlank(line);
  }

  /** Reading the text back yields, line by line, the depth and name of each visit. */
  lemma ReadBack(cats: seq<Category>, stripIndent: bool)
    requires forall c :: c in cats ==> PlainName(c.name)
    ensures Headings(GeneratedText(cats), stripIndent) == HeadingsOf(Visits(cats))
  {
    var vs := Visits(cats);
    TextLines(cats);
    VisitedCats(cats);
    var lines := Lines(vs);
    forall k | 0 <= k < |lines| ensures LineReader(stripIndent)(lines[k]) == Some(HeadingsOf(vs)[k]) {
      assert vs[k].cat in cats;
      ReadDashedLine(vs[k].level, vs[k].cat.name, stripIndent);
    }
    CollectMapped(lines, LineReader(stripIndent), HeadingsOf(vs));
  }

  /** The latest heading at a level, when the one at `p` has it and none after it does. */
  lemma {:induction false} LastAtIs(hs: seq<Heading>, p: int, level: nat)
    requires 0 <= p < |hs| && hs[p].level == level
    requires forall j :: p < j < |hs| ==> hs[j].level != level
    ensures LastAt(hs, level) == Some(p)
  {
    var n := |hs| - 1;
    if p < n {
      LastAtIs(hs[..n], p, level);
    }
  }

  /**
   * Round trip, for both drafts of the parser: when every name is
   * non-empty, trimmed, one line and does not start with a dash, reading
   * the generated text gives one category per visit of the walk, in the
   * walk's order and with the visited category's name; a top-level one has
   * no parent, and any other hangs under the category read back from the
   * visit of its original parent.
   */
  lemma RoundTrip(cats: seq<Category>, stripIndent: bool)
    requires forall c :: c in cats ==> PlainName(c.name)
    ensures var vs := Visits(cats);
      var back := ParseCategories(GeneratedText(cats), stripIndent);
      && |back| == |vs|
      && (forall i :: 0 <= i < |vs| ==> back[i].name == vs[i].cat.name)
      && (forall i :: 0 <= i < |vs| && vs[i].level == 0 ==> Key(vs[i].cat) == "root" && back[i].parentId == "")
      && (forall i :: 0 <= i < |vs| && vs[i].level > 0 ==>
            exists p :: 0 <= p < i && vs[p].cat.id == Key(vs[i].cat) && back[i].parentId == back[p].id)
  {
    var vs := Visits(cats);
    var text := GeneratedText(cats);
    var hs := Headings(text, stripIndent);
    var back := ParseCategories(text, stripIndent);
    ReadBack(cats, stripIndent);
    ParseShape(text, stripIndent);
    VisitsShape(cats);
    forall i | 0 <= i < |vs| && vs[i].level == 0 ensures back[i].parentId == "" {
      assert hs[i].level == 0;
    }
    forall i | 0 <= i < |vs| && vs[i].level > 0
      ensures exists p :: 0 <= p < i && vs[p].cat.id == Key(vs[i].cat) && back[i].parentId == back[p].id
    {
      var p :| 0 <= p < i && Under(vs, p, i);
      ParentFound(vs, hs, p, i);
    }
  }

  /** The visit a deeper visit hangs under is the heading the parser picks as its parent. */
  lemma ParentFound(vs: seq<Visit>, hs: seq<Heading>, p: int, i: int)
    requires hs == HeadingsOf(vs)
    requires 0 <= p < i < |vs| && Under(vs, p, i)
    ensures ParentIndex(hs, i) == Some(p)
  {
    var pre := hs[..i];
    forall j | p < j < i ensures pre[j].level != vs[i].level - 1 {
      assert pre[j] == hs[j];
    }
    LastAtIs(pre, p, vs[i].level - 1);
  }
}
