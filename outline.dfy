/**
 * The dash-indented category outline of the two `src` drafts:
 * `parseCategoriesText` (src/app.js:161-219, src/js/app.js:166-216) turns
 * text such as
 *
 *     Income
 *     -Salary
 *     Housing
 *     -Rent
 *
 * into categories whose id is the path of names from the top ("Income >
 * Salary"), and `inferCategoryType` (src/app.js:222-235, src/js/app.js:219-232)
 * guesses each one's type from its own and its parent's name.
 *
 * The drafts differ in two ways, both captured by `stripIndent`: src/app.js
 * drops leading whitespace before counting dashes and returns `[]` straight
 * away for blank text; src/js/app.js does neither. A JavaScript `null`
 * parent id is "" here, as everywhere in the model.
 */
module Outline {
  import opened Wrappers
  import opened Seqs
  import opened Text
  import opened Records

  // ------------------------------------------------------------------
  // inferCategoryType
  // ------------------------------------------------------------------

  /** The words that mark a category as income. */
  predicate IsIncomeWord(w: string) {
    w == "income" || w == "salary" || w == "bonus" || w == "allowance" || w == "per diem"
  }

  /** Does the text contain one of the income words? */
  ghost predicate MentionsIncome(text: string) {
    exists w :: IsIncomeWord(w) && Contains(text, w)
  }

  /**
   * `inferCategoryType(name, parentMeta)` with the parent's name given
   * directly ("" for a top-level category).
   */
  function InferCategoryType(name: string, parentName: string): (kind: string)
    ensures kind == "Income" || kind == "Expense"
  {
    var text := Lower(parentName + " " + name);
    if Contains(text, "income") || Contains(text, "salary") || Contains(text, "bonus")
      || Contains(text, "allowance") || Contains(text, "per diem")
    then "Income"
    else "Expense"
  }

  /** The guess is "Income" exactly when the lower-cased names mention an income word. */
  lemma InferIncomeIff(name: string, parentName: string)
    ensures InferCategoryType(name, parentName) == "Income" <==> MentionsIncome(Lower(parentName + " " + name))
  {
    var text := Lower(parentName + " " + name);
    if InferCategoryType(name, parentName) == "Income" {
      if Contains(text, "income") {
        assert IsIncomeWord("income");
      } else if Contains(text, "salary") {
        assert IsIncomeWord("salary");
      } else if Contains(text, "bonus") {
        assert IsIncomeWord("bonus");
      } else if Contains(text, "allowance") {
        assert IsIncomeWord("allowance");
      } else {
        assert IsIncomeWord("per diem");
      }
    }
  }

  /** A parent whose name carries an income word makes every child income, whatever its name. */
  lemma ParentWordMakesIncome(name: string, parentName: string, w: string)
    requires IsIncomeWord(w) && Contains(Lower(parentName), w)
    ensures InferCategoryType(name, parentName) == "Income"
  {
    var low := Lower(parentName + " " + name);
    assert Contains(low, w) by {
      ContainsIff(Lower(parentName), w);
      var i :| OccursAt(Lower(parentName), w, i);
      assert low == Lower(parentName) + Lower(" " + name) by {
        assert parentName + " " + name == parentName + (" " + name);
        LowerAppend(parentName, " " + name);
      }
      OccursInFront(Lower(parentName), Lower(" " + name), w, i);
      ContainsAt(low, w, i);
    }
    InferIncomeIff(name, parentName);
  }

  /** A name carrying an income word is income, whatever its parent. */
  lemma NameWordMakesIncome(name: string, parentName: string, w: string)
    requires IsIncomeWord(w) && Contains(Lower(name), w)
    ensures InferCategoryType(name, parentName) == "Income"
  {
    var low := Lower(parentName + " " + name);
    var front := Lower(parentName + " ");
    assert Contains(low, w) by {
      ContainsIff(Lower(name), w);
      var i :| OccursAt(Lower(name), w, i);
      assert low == front + Lower(name) by {
        LowerAppend(parentName + " ", name);
      }
      OccursInBack(front, Lower(name), w, i);
      ContainsAt(low, w, |front| + i);
    }
    InferIncomeIff(name, parentName);
  }

  lemma OccursInFront(a: string, b: string, w: string, i: int)
    requires OccursAt(a, w, i)
    ensures OccursAt(a + b, w, i)
  {
    assert (a + b)[i..i + |w|] == a[i..i + |w|];
  }

  lemma OccursInBack(a: string, b: string, w: string, i: int)
    requires OccursAt(b, w, i)
    ensures OccursAt(a + b, w, |a| + i)
  {
    assert (a + b)[|a| + i..|a| + i + |w|] == b[i..i + |w|];
  }

  lemma LowerCharIdempotent(c: char)
    ensures LowerChar(LowerChar(c)) == LowerChar(c)
  {
  }

  lemma LowerIdempotent(s: string)
    ensures Lower(Lower(s)) == Lower(s)
  {
    forall k | 0 <= k < |s| ensures Lower(Lower(s))[k] == Lower(s)[k] {
      LowerCharIdempotent(s[k]);
    }
  }

  /** The guess ignores the case of both names. */
  lemma InferIgnoresCase(name: string, parentName: string)
    ensures InferCategoryType(Lower(name), Lower(parentName)) == InferCategoryType(name, parentName)
  {
    LowerAppend(parentName + " ", name);
    LowerAppend(parentName, " ");
    LowerAppend(Lower(parentName) + " ", Lower(name));
    LowerAppend(Lower(parentName), " ");
    LowerIdempotent(name);
    LowerIdempotent(parentName);
    assert Lower(" ") == " ";
  }

  // ------------------------------------------------------------------
  // Lines and headings
  // ------------------------------------------------------------------

  /** `l.replace(/\r/g, "")`, kept when its `trim()` is not empty. */
  function Content(l: string): (r: Option<string>)
    ensures r.Some? ==> '\r' !in r.value && !IsBlank(r.value)
  {
    var line := RemoveChar(l, '\r');
    TrimEmptyIffBlank(line);
    if Trim(line) != "" then Some(line) else None
  }

  /** The lines the parser reads: `text.split("\n")`, cleaned, blank ones dropped. */
  function ContentLines(text: string): seq<string> {
    Collect(Split(text, '\n'), Content)
  }

  /** The characters `.` in a regular expression refuses to match. */
  predicate IsTerminator(c: char) {
    c == '\n' || c == '\r' || c == '\U{2028}' || c == '\U{2029}'
  }

  /** The number of dashes `s` starts with: the length of the `^(-*)` group. */
  function DashRun(s: string): (n: nat)
    ensures n <= |s|
    ensures forall k :: 0 <= k < n ==> s[k] == '-'
    ensures n < |s| ==> s[n] != '-'
  {
    if s != [] && s[0] == '-' then 1 + DashRun(s[1..]) else 0
  }

  /** A string of `n` dashes. */
  function Dashes(n: nat): (s: string)
    ensures |s| == n && forall k :: 0 <= k < n ==> s[k] == '-'
  {
    seq(n, _ => '-')
  }

  /** What one line contributes: its level (the leading dashes) and its name. */
  datatype Heading = Heading(level: nat, name: string)

  /** Does the line hold a character that `.` refuses, so that `/^(-*)(.*)$/` cannot match it? */
  predicate HasTerminator(l: string) {
    exists k :: 0 <= k < |l| && IsTerminator(l[k])
  }

  /**
   * One line through `/^(-*)(.*)$/`: nothing when the match fails or the
   * trimmed rest is empty; src/app.js first drops the leading whitespace.
   */
  function ReadHeading(line: string, stripIndent: bool): (h: Option<Heading>)
    ensures h.Some? ==> h.value.name != ""
  {
    var l := if stripIndent then TrimStart(line) else line;
    if HasTerminator(l) then None
    else
      var d := DashRun(l);
      var name := Trim(l[d..]);
      if name == "" then None else Some(Heading(d, name))
  }

  function LineReader(stripIndent: bool): string -> Option<Heading> {
    l => ReadHeading(l, stripIndent)
  }

  /** The headings of the accepted lines, in input order. */
  function Headings(text: string, stripIndent: bool): seq<Heading> {
    Collect(ContentLines(text), LineReader(stripIndent))
  }

  // ------------------------------------------------------------------
  // Building the categories
  // ------------------------------------------------------------------

  /** The categories so far and `lastByLevel`, the latest category at each level. */
  datatype Outline = Outline(cats: seq<Category>, last: map<nat, Category>)

  /** `parentMeta`: the latest category one level up, for a line below the top. */
  function ParentOf(last: map<nat, Category>, level: nat): Option<Category> {
    if level == 0 || level - 1 !in last then None else Some(last[level - 1])
  }

  /** The category a heading becomes under the given parent. */
  function Entry(h: Heading, parent: Option<Category>): Category {
    if parent.Some? then
      Category(parent.value.id + " > " + h.name, h.name, parent.value.id, InferCategoryType(h.name, parent.value.name))
    else
      Category(h.name, h.name, "", InferCategoryType(h.name, ""))
  }

  /** One `lines.forEach` step for an accepted line: push its category and record it at its level. */
  function Step(o: Outline, h: Heading): Outline {
    var c := Entry(h, ParentOf(o.last, h.level));
    Outline(o.cats + [c], o.last[h.level := c])
  }

  /** The outline a sequence of headings builds. */
  function Build(hs: seq<Heading>): Outline {
    if hs == [] then Outline([], map[]) else Step(Build(hs[..|hs| - 1]), hs[|hs| - 1])
  }

  /** The outline the content lines build, a line that is not read leaving it as it is. */
  function ReadLines(lines: seq<string>, read: string -> Option<Heading>): Outline {
    if lines == [] then Outline([], map[])
    else
      var n := |lines| - 1;
      var h := read(lines[n]);
      if h.Some? then Step(ReadLines(lines[..n], read), h.value) else ReadLines(lines[..n], read)
  }

  /** What `parseCategoriesText` returns. */
  function ParseCategories(text: string, stripIndent: bool): seq<Category> {
    ReadLines(ContentLines(text), LineReader(stripIndent)).cats
  }

  lemma BuildSnoc(hs: seq<Heading>, h: Heading)
    ensures Build(hs + [h]) == Step(Build(hs), h)
  {
    assert (hs + [h])[..|hs|] == hs;
  }

  /** Reading the lines builds the outline of their headings. */
  lemma {:induction false} ReadLinesBuild(lines: seq<string>, read: string -> Option<Heading>)
    ensures ReadLines(lines, read) == Build(Collect(lines, read))
  {
    if lines != [] {
      var n := |lines| - 1;
      ReadLinesBuild(lines[..n], read);
      var hs := Collect(lines[..n], read);
      var h := read(lines[n]);
      assert Collect(lines, read) == hs + (if h.Some? then [h.value] else []);
      if h.Some? {
        BuildSnoc(hs, h.value);
      } else {
        assert hs + [] == hs;
      }
    }
  }

  /**
   * `parseCategoriesText`. `stripIndent` selects the src/app.js draft (blank
   * text answered at once, leading whitespace dropped before the dashes are
   * counted); without it, the src/js/app.js draft.
   */
  method ParseCategoriesText(text: string, stripIndent: bool) returns (result: seq<Category>)
    ensures result == ParseCategories(text, stripIndent)
  {
    if stripIndent && Trim(text) == "" {
      BlankTextNoCategories(text, stripIndent);
      return [];
    }
    var lines := KeepContentLines(Split(text, '\n'));
    result := BuildCategories(lines, stripIndent);
  }

  /** `rawLines.forEach`: strip carriage returns and keep the lines with content. */
  method KeepContentLines(rawLines: seq<string>) returns (lines: seq<string>)
    ensures lines == Collect(rawLines, Content)
  {
    lines := [];
    for i := 0 to |rawLines|
      invariant lines == Collect(rawLines[..i], Content)
    {
      CollectPrefix(rawLines, i, Content);
      var line := RemoveChar(rawLines[i], '\r');
      if Trim(line) != "" {
        lines := lines + [line];
      }
    }
    SliceAll(rawLines);
  }

  /** `lines.forEach`: read each line, hang it under `lastByLevel[level - 1]` and record it at its level. */
  method BuildCategories(lines: seq<string>, stripIndent: bool) returns (result: seq<Category>)
    ensures result == ReadLines(lines, LineReader(stripIndent)).cats
  {
    var categories: seq<Category> := [];
    var lastByLevel: map<nat, Category> := map[];
    for i := 0 to |lines|
      invariant ReadLines(lines[..i], LineReader(stripIndent)) == Outline(categories, lastByLevel)
    {
      assert lines[..i + 1][..i] == lines[..i];
      var h := ReadHeading(lines[i], stripIndent);
      if h.Some? {
        var level := h.value.level;
        var rawName := h.value.name;
        var parentMeta := if level == 0 || level - 1 !in lastByLevel then None else Some(lastByLevel[level - 1]);
        var path := if parentMeta.Some? then parentMeta.value.id + " > " + rawName else rawName;
        var parentId := if parentMeta.Some? then parentMeta.value.id else "";
        var kind := InferCategoryType(rawName, if parentMeta.Some? then parentMeta.value.name else "");
        var cat := Category(path, rawName, parentId, kind);
        categories := categories + [cat];
        lastByLevel := lastByLevel[level := cat];
      }
    }
    SliceAll(lines);
    result := categories;
  }

  // ------------------------------------------------------------------
  // What the parse promises
  // ------------------------------------------------------------------

  /** Every character of a piece of a split occurs in the string split. */
  lemma {:induction false} SplitChars(s: string, c: char, k: int, x: char)
    requires 0 <= k < |Split(s, c)| && x in Split(s, c)[k]
    ensures x in s
    decreases |s|
  {
    var i := FindChar(s, c);
    if i < |s| && k > 0 {
      SplitChars(s[i + 1..], c, k - 1, x);
    }
  }

  lemma {:induction false} RemoveCharChars(s: string, c: char, x: char)
    requires x in RemoveChar(s, c)
    ensures x in s
  {
    if s != [] && !(s[0] != c && x == s[0]) {
      RemoveCharChars(s[1..], c, x);
    }
  }

  /** Blank text yields no category, in both drafts: the early return of src/app.js changes nothing. */
  lemma BlankTextNoCategories(text: string, stripIndent: bool)
    requires Trim(text) == ""
    ensures ParseCategories(text, stripIndent) == []
  {
    TrimEmptyIffBlank(text);
    var raw := Split(text, '\n');
    forall k | 0 <= k < |raw| ensures Content(raw[k]).None? {
      var line := RemoveChar(raw[k], '\r');
      forall j | 0 <= j < |line| ensures IsSpace(line[j]) {
        RemoveCharChars(raw[k], '\r', line[j]);
        SplitChars(text, '\n', k, line[j]);
      }
      TrimEmptyIffBlank(line);
    }
    CollectNone(raw, Content);
  }

  /** The position of the latest heading at `level`, if any. */
  function LastAt(hs: seq<Heading>, level: nat): (r: Option<nat>)
    ensures r.Some? ==> r.value < |hs| && hs[r.value].level == level
    ensures r.Some? ==> forall j :: r.value < j < |hs| ==> hs[j].level != level
    ensures r.None? ==> forall j :: 0 <= j < |hs| ==> hs[j].level != level
  {
    if hs == [] then None
    else
      var n := |hs| - 1;
      if hs[n].level == level then Some(n) else LastAt(hs[..n], level)
  }

  /** The heading the `i`th one hangs under: the latest earlier one a level up. */
  function ParentIndex(hs: seq<Heading>, i: int): (p: Option<nat>)
    requires 0 <= i < |hs|
    ensures p.Some? ==> p.value < i
  {
    if hs[i].level == 0 then None else LastAt(hs[..i], hs[i].level - 1)
  }

  /** The `lastByLevel` map holds, at each level, the category of the latest heading at that level. */
  ghost predicate Tracks(hs: seq<Heading>, o: Outline)
    requires |o.cats| == |hs|
  {
    forall level :: (level in o.last <==> LastAt(hs, level).Some?)
      && (level in o.last ==> o.last[level] == o.cats[LastAt(hs, level).value])
  }

  /** Each category is its heading hung under the category of its parent heading. */
  ghost predicate Hangs(hs: seq<Heading>, cats: seq<Category>, i: int)
    requires |cats| == |hs| && 0 <= i < |hs|
  {
    var p := ParentIndex(hs, i);
    cats[i] == Entry(hs[i], if p.Some? then Some(cats[p.value]) else None)
  }

  lemma {:induction false} BuildShape(hs: seq<Heading>)
    ensures |Build(hs).cats| == |hs|
    ensures forall i :: 0 <= i < |hs| ==> Hangs(hs, Build(hs).cats, i)
    ensures Tracks(hs, Build(hs))
  {
    if hs != [] {
      var n := |hs| - 1;
      BuildShape(hs[..n]);
      assert hs == hs[..n] + [hs[n]];
      StepShape(hs[..n], hs[n], Build(hs[..n]));
    }
  }

  /** One step keeps every category hung under its parent and `lastByLevel` up to date. */
  lemma StepShape(init: seq<Heading>, h: Heading, o: Outline)
    requires |o.cats| == |init|
    requires forall i :: 0 <= i < |init| ==> Hangs(init, o.cats, i)
    requires Tracks(init, o)
    ensures |Step(o, h).cats| == |init| + 1
    ensures forall i :: 0 <= i < |init| + 1 ==> Hangs(init + [h], Step(o, h).cats, i)
    ensures Tracks(init + [h], Step(o, h))
  {
    var c := Entry(h, ParentOf(o.last, h.level));
    assert Step(o, h).cats == o.cats + [c];
    forall i | 0 <= i < |init| + 1 ensures Hangs(init + [h], o.cats + [c], i) {
      if i < |init| {
        HangsKept(init, h, o.cats, c, i);
      } else {
        HangsNew(init, h, o);
      }
    }
    TracksStep(init, h, o);
  }

  lemma HangsKept(init: seq<Heading>, h: Heading, cats: seq<Category>, c: Category, i: int)
    requires |cats| == |init| && 0 <= i < |init|
    requires Hangs(init, cats, i)
    ensures Hangs(init + [h], cats + [c], i)
  {
    assert (init + [h])[..i] == init[..i];
    assert (init + [h])[i] == init[i];
  }

  lemma HangsNew(init: seq<Heading>, h: Heading, o: Outline)
    requires |o.cats| == |init|
    requires Tracks(init, o)
    ensures Hangs(init + [h], Step(o, h).cats, |init|)
  {
    assert (init + [h])[..|init|] == init;
    if h.level > 0 {
      assert h.level - 1 in o.last <==> LastAt(init, h.level - 1).Some?;
    }
  }

  lemma TracksStep(init: seq<Heading>, h: Heading, o: Outline)
    requires |o.cats| == |init|
    requires Tracks(init, o)
    ensures Tracks(init + [h], Step(o, h))
  {
    assert (init + [h])[..|init|] == init;
  }

  /**
   * The parse emits one category per accepted line, in order, named as the
   * line. A line with a parent (the latest earlier accepted line one level
   * up) gets that category's id as `parentId`, that id + " > " + its name as
   * its own id, and a type guessed with the parent's name; any other line is
   * top-level and its id is its name.
   */
  lemma ParseShape(text: string, stripIndent: bool)
    ensures Shaped(Headings(text, stripIndent), ParseCategories(text, stripIndent))
  {
    var hs := Headings(text, stripIndent);
    var cats := ParseCategories(text, stripIndent);
    ReadLinesBuild(ContentLines(text), LineReader(stripIndent));
    assert cats == Build(hs).cats;
    BuildShape(hs);
    HeadingNames(text, stripIndent);
    HangsMeaning(hs, cats);
  }

  /**
   * One category per heading, in order, each carrying its heading's name:
   * a heading without a parent heading gives a top-level category named
   * after it, and any other hangs under the category of its parent
   * heading, with the path id and the kind inferred from the parent's name.
   */
  ghost predicate Shaped(hs: seq<Heading>, cats: seq<Category>) {
    && |cats| == |hs|
    && (forall i :: 0 <= i < |hs| ==> cats[i].name == hs[i].name && cats[i].name != "")
    && (forall i :: 0 <= i < |hs| && ParentIndex(hs, i).None? ==>
          cats[i].parentId == "" && cats[i].id == hs[i].name
          && cats[i].kind == InferCategoryType(hs[i].name, ""))
    && (forall i :: 0 <= i < |hs| && ParentIndex(hs, i).Some? ==>
          var p := ParentIndex(hs, i).value;
          && cats[i].parentId == cats[p].id
          && cats[i].id == cats[p].id + " > " + hs[i].name
          && cats[i].kind == InferCategoryType(hs[i].name, cats[p].name))
  }

  lemma HeadingNames(text: string, stripIndent: bool)
    ensures forall i :: 0 <= i < |Headings(text, stripIndent)| ==> Headings(text, stripIndent)[i].name != ""
  {
    var hs := Headings(text, stripIndent);
    forall i | 0 <= i < |hs| ensures hs[i].name != "" {
      CollectExactly(ContentLines(text), LineReader(stripIndent), hs[i]);
    }
  }

  /** What hanging each category under its parent heading says, field by field. */
  lemma HangsMeaning(hs: seq<Heading>, cats: seq<Category>)
    requires |cats| == |hs|
    requires forall i :: 0 <= i < |hs| ==> Hangs(hs, cats, i)
    ensures forall i :: 0 <= i < |hs| ==> cats[i].name == hs[i].name
    ensures forall i :: 0 <= i < |hs| && ParentIndex(hs, i).None? ==>
      cats[i].parentId == "" && cats[i].id == hs[i].name
      && cats[i].kind == InferCategoryType(hs[i].name, "")
    ensures forall i :: 0 <= i < |hs| && ParentIndex(hs, i).Some? ==>
      var p := ParentIndex(hs, i).value;
      && cats[i].parentId == cats[p].id
      && cats[i].id == cats[p].id + " > " + hs[i].name
      && cats[i].kind == InferCategoryType(hs[i].name, cats[p].name)
  {
    forall i | 0 <= i < |hs| ensures cats[i].name == hs[i].name {
      HangsAt(hs, cats, i);
    }
    forall i | 0 <= i < |hs| && ParentIndex(hs, i).None?
      ensures cats[i].parentId == "" && cats[i].id == hs[i].name && cats[i].kind == InferCategoryType(hs[i].name, "")
    {
      HangsAt(hs, cats, i);
    }
    forall i | 0 <= i < |hs| && ParentIndex(hs, i).Some?
      ensures var p := ParentIndex(hs, i).value;
        && cats[i].parentId == cats[p].id
        && cats[i].id == cats[p].id + " > " + hs[i].name
        && cats[i].kind == InferCategoryType(hs[i].name, cats[p].name)
    {
      HangsAt(hs, cats, i);
    }
  }

  /** What hanging the `i`th category under its parent heading says. */
  predicate HangMeaning(hs: seq<Heading>, cats: seq<Category>, i: int)
    requires |cats| == |hs| && 0 <= i < |hs|
  {
    var p := ParentIndex(hs, i);
    && cats[i].name == hs[i].name
    && (p.None? ==>
          cats[i].parentId == "" && cats[i].id == hs[i].name
          && cats[i].kind == InferCategoryType(hs[i].name, ""))
    && (p.Some? ==>
          cats[i].parentId == cats[p.value].id
          && cats[i].id == cats[p.value].id + " > " + hs[i].name
          && cats[i].kind == InferCategoryType(hs[i].name, cats[p.value].name))
  }

  lemma HangsAt(hs: seq<Heading>, cats: seq<Category>, i: int)
    requires |cats| == |hs| && 0 <= i < |hs|
    requires Hangs(hs, cats, i)
    ensures HangMeaning(hs, cats, i)
  {
  }

  /** A line is read exactly when it is one of the content lines and yields that heading. */
  lemma HeadingsExactly(text: string, stripIndent: bool, h: Heading)
    ensures h in Headings(text, stripIndent) <==>
      exists k :: 0 <= k < |ContentLines(text)| && ReadHeading(ContentLines(text)[k], stripIndent) == Some(h)
  {
    CollectExactly(ContentLines(text), LineReader(stripIndent), h);
  }

  // ------------------------------------------------------------------
  // Reading one line
  // ------------------------------------------------------------------

  /** A name the outline can carry unchanged: non-empty, trimmed, one line, not starting with a dash. */
  predicate PlainName(name: string) {
    && name != ""
    && Trim(name) == name
    && name[0] != '-'
    && forall k :: 0 <= k < |name| ==> !IsTerminator(name[k])
  }

  lemma DashRunOf(n: nat, name: string)
    requires name == [] || name[0] != '-'
    ensures DashRun(Dashes(n) + name) == n
    decreases n
  {
    if n > 0 {
      assert (Dashes(n) + name)[1..] == Dashes(n - 1) + name;
      DashRunOf(n - 1, name);
    }
  }

  /** A line of `n` dashes and a plain name reads as that name at level `n`. */
  lemma ReadDashedLine(n: nat, name: string, stripIndent: bool)
    requires PlainName(name)
    ensures ReadHeading(Dashes(n) + name, stripIndent) == Some(Heading(n, name))
  {
    DashedLineUntrimmed(n, name);
    DashedLineOneLine(n, name);
    DashRunOf(n, name);
    DropFront(Dashes(n), name);
    ReadHeadingWhen(Dashes(n) + name, stripIndent, n, name);
  }

  lemma DashedLineUntrimmed(n: nat, name: string)
    requires PlainName(name)
    ensures TrimStart(Dashes(n) + name) == Dashes(n) + name
  {
    var line := Dashes(n) + name;
    TrimmedFixed(name);
    if n == 0 {
      assert line == name;
    } else {
      assert line[0] == '-';
    }
  }

  lemma DashedLineOneLine(n: nat, name: string)
    requires PlainName(name)
    ensures !HasTerminator(Dashes(n) + name)
  {
    var line := Dashes(n) + name;
    forall k | 0 <= k < |line| ensures !IsTerminator(line[k]) {
      if k >= n {
        assert line[k] == name[k - n];
      }
    }
  }

  /** The heading of a line whose parts are known. */
  lemma ReadHeadingWhen(line: string, stripIndent: bool, d: nat, name: string)
    requires stripIndent ==> TrimStart(line) == line
    requires !HasTerminator(line) && DashRun(line) == d && d <= |line|
    requires Trim(line[d..]) == name && name != ""
    ensures ReadHeading(line, stripIndent) == Some(Heading(d, name))
  {
  }

  lemma DropFront(a: string, b: string)
    ensures (a + b)[|a|..] == b
  {
  }

  /**
   * Leading whitespace before the dashes: src/app.js drops it and reads
   * the level from the dashes; src/js/app.js reads a top-level category
   * whose name keeps the dashes.
   */
  lemma IndentedLine(indent: string, n: nat, name: string)
    requires indent != [] && IsBlank(indent)
    requires !HasTerminator(indent)
    requires PlainName(name) && n > 0
    ensures ReadHeading(indent + Dashes(n) + name, true) == Some(Heading(n, name))
    ensures ReadHeading(indent + Dashes(n) + name, false) == Some(Heading(0, Dashes(n) + name))
  {
    var tail := Dashes(n) + name;
    assert indent + Dashes(n) + name == indent + tail;
    StripBlankPrefix(indent, tail);
    ReadDashedLine(n, name, false);
    DashedLineOneLine(n, name);
    DashRunOf(n, name);
    DropFront(Dashes(n), name);
    ReadHeadingStripped(indent + tail, tail, n, name);
    OneLineConcat(indent, tail);
    DashedLineEnd(n, name);
    IndentedUntrimmed(indent, tail);
    ReadHeadingWhen(indent + tail, false, 0, tail);
  }

  /** With the leading whitespace dropped, the line reads as what is left. */
  lemma ReadHeadingStripped(line: string, rest: string, d: nat, name: string)
    requires TrimStart(line) == rest
    requires !HasTerminator(rest) && DashRun(rest) == d && d <= |rest|
    requires Trim(rest[d..]) == name && name != ""
    ensures ReadHeading(line, true) == Some(Heading(d, name))
  {
  }

  lemma OneLineConcat(a: string, b: string)
    requires !HasTerminator(a) && !HasTerminator(b)
    ensures !HasTerminator(a + b)
  {
    var s := a + b;
    forall k | 0 <= k < |s| ensures !IsTerminator(s[k]) {
      if k < |a| {
        assert s[k] == a[k];
      } else {
        assert s[k] == b[k - |a|];
      }
    }
  }

  /** An indented dashed line has no dash in front, and trims to the dashed line. */
  lemma IndentedUntrimmed(indent: string, tail: string)
    requires indent != [] && IsBlank(indent)
    requires tail != [] && tail[0] == '-' && !IsSpace(tail[|tail| - 1])
    ensures DashRun(indent + tail) == 0
    ensures (indent + tail)[0..] == indent + tail
    ensures Trim(indent + tail) == tail
  {
    assert (indent + tail)[0] == indent[0];
    StripBlankPrefix(indent, tail);
  }

  /** A dashed line ends in the last character of its name. */
  lemma DashedLineEnd(n: nat, name: string)
    requires PlainName(name)
    ensures !IsSpace((Dashes(n) + name)[|Dashes(n) + name| - 1])
  {
    TrimmedFixed(name);
    assert (Dashes(n) + name)[|Dashes(n) + name| - 1] == name[|name| - 1];
  }

  /** Dropping leading whitespace before a string that starts with a dash leaves that string. */
  lemma {:induction false} StripBlankPrefix(indent: string, tail: string)
    requires IsBlank(indent) && tail != [] && tail[0] == '-'
    ensures TrimStart(indent + tail) == tail
  {
    if indent != [] {
      assert (indent + tail)[1..] == indent[1..] + tail;
      StripBlankPrefix(indent[1..], tail);
    } else {
      assert indent + tail == tail;
    }
  }
}
