/**
 * The CSV reader of the second draft (src/app.js:623-738): `parseCsvLine`,
 * a character loop that honours double quotes, and `parseCsvTransactions`,
 * which finds the columns in the header line and maps every later line to
 * a transaction.
 */
module CsvLine {
  import opened Wrappers
  import opened Seqs
  import opened Text
  import opened Records
  import CsvImport

  // ------------------------------------------------------------------
  // parseCsvLine
  // ------------------------------------------------------------------

  /** The variables of `parseCsvLine`'s loop: the quote flag, the cell being built, the cells pushed. */
  datatype Reader = Reader(inQuotes: bool, current: string, cells: seq<string>)

  /**
   * One turn of the loop at the start of `rest`: how many characters it
   * reads (two for a `""` pair inside quotes) and the variables it leaves.
   */
  function Step(rest: string, r: Reader): (res: (nat, Reader))
    requires rest != []
    ensures 1 <= res.0 <= |rest|
  {
    var ch := rest[0];
    if r.inQuotes then
      if ch == '"' then
        if |rest| > 1 && rest[1] == '"' then (2, r.(current := r.current + ['"']))
        else (1, r.(inQuotes := false))
      else (1, r.(current := r.current + [ch]))
    else if ch == '"' then (1, r.(inQuotes := true))
    else if ch == ',' then (1, Reader(false, "", r.cells + [r.current]))
    else (1, r.(current := r.current + [ch]))
  }

  /** The cells `parseCsvLine` returns once its loop has `rest` still to read. */
  function Scan(rest: string, r: Reader): (cells: seq<string>)
    ensures |cells| >= |r.cells| + 1
    decreases |rest|
  {
    if rest == [] then r.cells + [r.current]
    else
      var (n, next) := Step(rest, r);
      Scan(rest[n..], next)
  }

  /** The cells of a whole line. */
  function Cells(line: string): (cells: seq<string>)
    ensures |cells| >= 1
  {
    Scan(line, Reader(false, "", []))
  }

  /** `parseCsvLine`: the character loop, with `i++` skipping the second quote of a `""` pair. */
  method ParseCsvLine(line: string) returns (result: seq<string>)
    ensures result == Cells(line)
  {
    result := [];
    var current := "";
    var inQuotes := false;
    var i := 0;
    while i < |line|
      invariant 0 <= i <= |line|
      invariant Scan(line[i..], Reader(inQuotes, current, result)) == Cells(line)
    {
      ghost var step := Step(line[i..], Reader(inQuotes, current, result));
      var ch := line[i];
      if inQuotes {
        if ch == '"' {
          if i + 1 < |line| && line[i + 1] == '"' {
            current := current + ['"'];
            i := i + 1;
          } else {
            inQuotes := false;
          }
        } else {
          current := current + [ch];
        }
      } else {
        if ch == '"' {
          inQuotes := true;
        } else if ch == ',' {
          result := result + [current];
          current := "";
        } else {
          current := current + [ch];
        }
      }
      i := i + 1;
      assert step.1 == Reader(inQuotes, current, result);
      assert line[i - step.0..][step.0..] == line[i..];
    }
    result := result + [current];
  }

  /**
   * The commas read outside quotes, tracking the quote flag alone: a `"`
   * toggles it, except a `""` pair inside quotes, which leaves it set.
   */
  function CommasOutside(rest: string, inQuotes: bool): nat
    decreases |rest|
  {
    if rest == [] then 0
    else if rest[0] == '"' then
      if inQuotes && |rest| > 1 && rest[1] == '"' then CommasOutside(rest[2..], true)
      else CommasOutside(rest[1..], !inQuotes)
    else (if rest[0] == ',' && !inQuotes then 1 else 0) + CommasOutside(rest[1..], inQuotes)
  }

  lemma {:induction false} ScanCount(rest: string, r: Reader)
    ensures |Scan(rest, r)| == |r.cells| + 1 + CommasOutside(rest, r.inQuotes)
    decreases |rest|
  {
    if rest != [] {
      var (n, next) := Step(rest, r);
      ScanCount(rest[n..], next);
    }
  }

  /** A line has exactly one more cell than it has commas outside quotes. */
  lemma CellCount(line: string)
    ensures |Cells(line)| == 1 + CommasOutside(line, false)
  {
    ScanCount(line, Reader(false, "", []));
  }

  lemma {:induction false} ScanPlain(rest: string, r: Reader)
    requires !r.inQuotes && '"' !in rest && ',' !in r.current
    ensures Scan(rest, r) == r.cells + Split(r.current + rest, ',')
    decreases |rest|, 1
  {
    if rest == [] {
      assert r.current + rest == r.current;
      SplitNoSep(r.current, ',');
    } else if rest[0] == ',' {
      ScanPlainComma(rest, r);
    } else {
      ScanPlainChar(rest, r);
    }
  }

  lemma {:induction false} ScanPlainComma(rest: string, r: Reader)
    requires !r.inQuotes && '"' !in rest && ',' !in r.current && rest != [] && rest[0] == ','
    ensures Scan(rest, r) == r.cells + Split(r.current + rest, ',')
    decreases |rest|, 0
  {
    var tail := rest[1..];
    var pushed := r.cells + [r.current];
    NotInTail(rest, '"');
    ScanPlain(tail, Reader(false, "", pushed));
    CommaStep(rest, r);
    SplitAfterComma(r.current, rest);
    JoinCells(Scan(rest, r), r.cells, r.current, Split("" + tail, ','), Split(r.current + rest, ','));
  }

  /** Closing the current cell before the cells of the tail is prefixing it to them. */
  lemma JoinCells(scanned: seq<string>, cells: seq<string>, current: string, after: seq<string>, split: seq<string>)
    requires scanned == cells + [current] + after
    requires split == [current] + after
    ensures scanned == cells + split
  {
  }

  /** A character absent from a non-empty string is absent from its tail. */
  lemma NotInTail(s: string, c: char)
    requires s != [] && c !in s
    ensures c !in s[1..]
  {
    assert forall x :: x in s[1..] ==> x in s;
  }

  /** Outside quotes, a leading comma closes the cell (stated on `rest` itself). */
  lemma CommaStep(rest: string, r: Reader)
    requires !r.inQuotes && rest != [] && rest[0] == ','
    ensures Scan(rest, r) == Scan(rest[1..], Reader(false, "", r.cells + [r.current]))
  {
  }

  lemma SplitAfterComma(current: string, rest: string)
    requires ',' !in current && rest != [] && rest[0] == ','
    ensures Split(current + rest, ',') == [current] + Split("" + rest[1..], ',')
  {
    assert current + rest == current + [','] + rest[1..];
    SplitCons(current, ',', rest[1..]);
    assert "" + rest[1..] == rest[1..];
  }

  lemma {:induction false} ScanPlainChar(rest: string, r: Reader)
    requires !r.inQuotes && '"' !in rest && ',' !in r.current && rest != [] && rest[0] != ','
    ensures Scan(rest, r) == r.cells + Split(r.current + rest, ',')
    decreases |rest|, 0
  {
    var c := rest[0];
    var tail := rest[1..];
    assert rest == [c] + tail;
    ScanOutsideChar(c, tail, r);
    assert '"' !in tail by {
      assert forall x :: x in tail ==> x in rest;
    }
    ScanPlain(tail, r.(current := r.current + [c]));
    assert r.current + [c] + tail == r.current + rest;
  }

  /** Outside quotes, a character other than `"` and `,` is added to the cell. */
  lemma ScanOutsideChar(c: char, u: string, r: Reader)
    requires !r.inQuotes && c != '"' && c != ','
    ensures Scan([c] + u, r) == Scan(u, r.(current := r.current + [c]))
  {
    var s := [c] + u;
    assert s[1..] == u;
  }

  /** Without double quotes the reader is a plain split on commas. */
  lemma PlainLine(line: string)
    requires '"' !in line
    ensures Cells(line) == Split(line, ',')
  {
    ScanPlain(line, Reader(false, "", []));
    assert "" + line == line;
  }

  /** A field written for CSV: every `"` doubled. */
  function Escape(f: string): string
  {
    if f == [] then [] else (if f[0] == '"' then "\"\"" else [f[0]]) + Escape(f[1..])
  }

  /** A field between double quotes, its own quotes doubled. */
  function Quote(f: string): string {
    "\"" + Escape(f) + "\""
  }

  /** A line of quoted fields separated by commas. */
  function EncodeLine(fields: seq<string>): string
    requires |fields| >= 1
  {
    if |fields| == 1 then Quote(fields[0]) else Quote(fields[0]) + "," + EncodeLine(fields[1..])
  }

  /** Inside quotes, an escaped field adds the field to the cell, whatever follows it. */
  lemma {:induction false} ScanEscaped(f: string, t: string, r: Reader)
    requires r.inQuotes
    ensures Scan(Escape(f) + t, r) == Scan(t, r.(current := r.current + f))
    decreases |f|, 1
  {
    if f == [] {
      assert Escape(f) + t == t;
      assert r.current + f == r.current;
    } else if f[0] == '"' {
      ScanEscapedPair(f, t, r);
    } else {
      ScanEscapedChar(f, t, r);
    }
  }

  lemma AppendAssoc(a: string, b: string, c: string)
    ensures (a + b) + c == a + (b + c)
  {
  }

  /** Inside quotes, `""` adds one quote to the cell and stays inside. */
  lemma ScanPair(u: string, r: Reader)
    requires r.inQuotes
    ensures Scan(['"', '"'] + u, r) == Scan(u, r.(current := r.current + ['"']))
  {
    var s := ['"', '"'] + u;
    assert s[2..] == u;
  }

  /** Inside quotes, a character other than `"` is added to the cell. */
  lemma ScanQuotedChar(c: char, u: string, r: Reader)
    requires r.inQuotes && c != '"'
    ensures Scan([c] + u, r) == Scan(u, r.(current := r.current + [c]))
  {
    var s := [c] + u;
    assert s[1..] == u;
  }

  /** A doubled quote inside quotes adds one quote to the cell. */
  lemma {:induction false} ScanEscapedPair(f: string, t: string, r: Reader)
    requires r.inQuotes && f != [] && f[0] == '"'
    ensures Scan(Escape(f) + t, r) == Scan(t, r.(current := r.current + f))
    decreases |f|, 0
  {
    var e := Escape(f[1..]);
    var next := r.(current := r.current + ['"']);
    calc {
      Scan(Escape(f) + t, r);
      { assert Escape(f) == ['"', '"'] + e; AppendAssoc(['"', '"'], e, t); }
      Scan(['"', '"'] + (e + t), r);
      { ScanPair(e + t, r); }
      Scan(e + t, next);
      { ScanEscaped(f[1..], t, next); }
      Scan(t, next.(current := next.current + f[1..]));
      { assert next.current + f[1..] == r.current + f; }
      Scan(t, r.(current := r.current + f));
    }
  }

  /** Any other character inside quotes goes into the cell. */
  lemma {:induction false} ScanEscapedChar(f: string, t: string, r: Reader)
    requires r.inQuotes && f != [] && f[0] != '"'
    ensures Scan(Escape(f) + t, r) == Scan(t, r.(current := r.current + f))
    decreases |f|, 0
  {
    var e := Escape(f[1..]);
    var next := r.(current := r.current + [f[0]]);
    calc {
      Scan(Escape(f) + t, r);
      { assert Escape(f) == [f[0]] + e; AppendAssoc([f[0]], e, t); }
      Scan([f[0]] + (e + t), r);
      { ScanQuotedChar(f[0], e + t, r); }
      Scan(e + t, next);
      { ScanEscaped(f[1..], t, next); }
      Scan(t, next.(current := next.current + f[1..]));
      { assert next.current + f[1..] == r.current + f; }
      Scan(t, r.(current := r.current + f));
    }
  }

  lemma {:induction false} ScanEncoded(fields: seq<string>, cells: seq<string>)
    requires |fields| >= 1
    ensures Scan(EncodeLine(fields), Reader(false, "", cells)) == cells + fields
    decreases |fields|, 1
  {
    if |fields| == 1 {
      var f := fields[0];
      assert EncodeLine(fields) == Quote(f) + [];
      ScanQuoted(f, [], cells);
      assert fields == [f];
    } else {
      ScanEncodedCons(fields, cells);
    }
  }

  /** The first quoted field of several, then the comma, then the others. */
  lemma {:induction false} ScanEncodedCons(fields: seq<string>, cells: seq<string>)
    requires |fields| >= 2
    ensures Scan(EncodeLine(fields), Reader(false, "", cells)) == cells + fields
    decreases |fields|, 0
  {
    var f := fields[0];
    var rest := EncodeLine(fields[1..]);
    var tail := [','] + rest;
    assert EncodeLine(fields) == Quote(f) + tail;
    ScanQuoted(f, tail, cells);
    ScanComma(rest, Reader(false, f, cells));
    ScanEncoded(fields[1..], cells + [f]);
    assert cells + [f] + fields[1..] == cells + fields;
  }

  /** Outside quotes, a comma pushes the cell being built. */
  lemma ScanComma(u: string, r: Reader)
    requires !r.inQuotes
    ensures Scan([','] + u, r) == Scan(u, Reader(false, "", r.cells + [r.current]))
  {
    var s := [','] + u;
    assert s[1..] == u;
  }

  /** Outside quotes, a `"` opens them. */
  lemma ScanOpen(u: string, r: Reader)
    requires !r.inQuotes
    ensures Scan(['"'] + u, r) == Scan(u, r.(inQuotes := true))
  {
    var s := ['"'] + u;
    assert s[1..] == u;
  }

  /** Inside quotes, a `"` not followed by another closes them. */
  lemma ScanClose(u: string, r: Reader)
    requires r.inQuotes && (u == [] || u[0] != '"')
    ensures Scan(['"'] + u, r) == Scan(u, r.(inQuotes := false))
  {
    var s := ['"'] + u;
    assert s[1..] == u;
  }

  /** A quoted field opens quotes, reads the field and closes them. */
  lemma ScanQuoted(f: string, rest: string, cells: seq<string>)
    requires rest == [] || rest[0] != '"'
    ensures Scan(Quote(f) + rest, Reader(false, "", cells)) == Scan(rest, Reader(false, f, cells))
  {
    var e := Escape(f);
    var close := ['"'] + rest;
    calc {
      Scan(Quote(f) + rest, Reader(false, "", cells));
      { assert Quote(f) + rest == ['"'] + (e + close); }
      Scan(['"'] + (e + close), Reader(false, "", cells));
      { ScanOpen(e + close, Reader(false, "", cells)); }
      Scan(e + close, Reader(true, "", cells));
      { ScanEscaped(f, close, Reader(true, "", cells)); assert "" + f == f; }
      Scan(close, Reader(true, f, cells));
      { ScanClose(rest, Reader(true, f, cells)); }
      Scan(rest, Reader(false, f, cells));
    }
  }

  /**
   * Round trip: quoting each field (doubling its quotes) and joining with
   * commas reads back as the same fields, whatever commas and quotes they hold.
   */
  lemma EncodeLineRoundTrip(fields: seq<string>)
    requires |fields| >= 1
    ensures Cells(EncodeLine(fields)) == fields
  {
    ScanEncoded(fields, []);
  }

  /** No two `"` side by side. */
  predicate NoQuotePair(s: string) {
    forall k :: 0 <= k < |s| - 1 ==> !(s[k] == '"' && s[k + 1] == '"')
  }

  /** No cell holds a double quote. */
  predicate QuoteFree(cells: seq<string>) {
    forall k :: 0 <= k < |cells| ==> '"' !in cells[k]
  }

  lemma {:induction false} ScanLoneQuotes(rest: string, r: Reader)
    requires NoQuotePair(rest) && '"' !in r.current && QuoteFree(r.cells)
    ensures QuoteFree(Scan(rest, r))
    decreases |rest|
  {
    if rest != [] {
      var (n, next) := Step(rest, r);
      assert n == 1 by {
        assert !(rest[0] == '"' && |rest| > 1 && rest[1] == '"');
      }
      assert NoQuotePair(rest[1..]) by {
        forall k | 0 <= k < |rest[1..]| - 1 ensures !(rest[1..][k] == '"' && rest[1..][k + 1] == '"') {
          assert rest[1..][k] == rest[k + 1] && rest[1..][k + 1] == rest[k + 2];
        }
      }
      ScanLoneQuotes(rest[1..], next);
    }
  }

  /** A `"` that is not half of a `""` pair only switches quoting: no cell receives it. */
  lemma LoneQuotesVanish(line: string)
    requires NoQuotePair(line)
    ensures QuoteFree(Cells(line))
  {
    ScanLoneQuotes(line, Reader(false, "", []));
  }

  // ------------------------------------------------------------------
  // parseCsvTransactions
  // ------------------------------------------------------------------

  /** `csvText.split(/\r?\n/).filter(l => l.trim() !== "")`. */
  function TextLines(text: string): (lines: seq<string>)
    ensures forall k :: 0 <= k < |lines| ==> Trim(lines[k]) != ""
  {
    var all := CsvImport.Lines(text);
    var lines := Filter(all, (l: string) => Trim(l) != "");
    assert forall k :: 0 <= k < |lines| ==> Trim(lines[k]) != "" by {
      forall k | 0 <= k < |lines| ensures Trim(lines[k]) != "" {
        FilterCounts(all, (l: string) => Trim(l) != "", lines[k]);
      }
    }
    lines
  }

  /** The header cells, trimmed and lower-cased. */
  function HeaderCells(line: string): (h: seq<string>)
    ensures |h| == |Cells(line)|
  {
    var raw := Cells(line);
    seq(|raw|, k requires 0 <= k < |raw| => Lower(Trim(raw[k])))
  }

  /** `findIndex(names)`: the first header, in column order, that is one of the names; -1 if none is. */
  function HeaderIndex(headers: seq<string>, names: seq<string>): (i: int)
    ensures -1 <= i < |headers|
    ensures i == -1 <==> forall k :: 0 <= k < |headers| ==> headers[k] !in names
    ensures i >= 0 ==> headers[i] in names && forall k :: 0 <= k < i ==> headers[k] !in names
  {
    if headers == [] then -1
    else if headers[0] in names then 0
    else
      var r := HeaderIndex(headers[1..], names);
      assert forall k :: 1 <= k < |headers| ==> headers[k] == headers[1..][k - 1];
      if r == -1 then -1 else r + 1
  }

  /** `findIndex`: a loop over the headers around a loop over the names. */
  method FindIndex(headers: seq<string>, names: seq<string>) returns (idx: int)
    ensures idx == HeaderIndex(headers, names)
  {
    for i := 0 to |headers|
      invariant forall k :: 0 <= k < i ==> headers[k] !in names
    {
      for j := 0 to |names|
        invariant forall l :: 0 <= l < j ==> headers[i] != names[l]
      {
        if headers[i] == names[j] {
          return i;
        }
      }
    }
    return -1;
  }

  /** The column index of each field, -1 when the header line has none. */
  datatype Columns = Columns(date: int, description: int, amount: int, category: int, account: int, labels: int)

  const DateNames: seq<string> := ["date", "transaction date", "effective date"]
  const DescriptionNames: seq<string> := ["merchant", "description", "details", "payee"]
  const AmountNames: seq<string> := ["amount", "amount (main)", "amount (original)"]
  const CategoryNames: seq<string> := ["category"]
  const AccountNames: seq<string> := ["account"]
  const LabelNames: seq<string> := ["labels", "tags"]

  function ColumnsOf(headers: seq<string>): Columns {
    Columns(
      HeaderIndex(headers, DateNames),
      HeaderIndex(headers, DescriptionNames),
      HeaderIndex(headers, AmountNames),
      HeaderIndex(headers, CategoryNames),
      HeaderIndex(headers, AccountNames),
      HeaderIndex(headers, LabelNames))
  }

  /** `idx >= 0 ? row[idx] : ""`; a cell past the end of a short row is `undefined`, read here as "". */
  function CellAt(row: seq<string>, idx: int): string {
    if 0 <= idx < |row| then row[idx] else ""
  }

  /** `parseFloat(raw.replace(/[, ]/g, ""))`, with `NaN` read as 0. */
  function CellAmount(raw: string): real {
    ParseDecimal(RemoveChar(RemoveChar(raw, ','), ' ')).GetOr(0.0)
  }

  /**
   * `split` on a comma with any white space around it: the pieces between
   * commas, with the white space on either side of each comma dropped (the
   * outer ends of the cell are kept).
   */
  function LabelPieces(raw: string): (pieces: seq<string>)
    ensures |pieces| == |Split(raw, ',')|
  {
    var parts := Split(raw, ',');
    seq(|parts|, k requires 0 <= k < |parts| => Piece(parts, k))
  }

  /** Part `k` of the comma split, without the white space next to a comma on either side. */
  function Piece(parts: seq<string>, k: int): string
    requires 0 <= k < |parts|
  {
    var left := if k + 1 < |parts| then TrimEnd(parts[k]) else parts[k];
    if k > 0 then TrimStart(left) else left
  }

  /** The labels cell: nothing when blank, else its pieces without the empty ones (`filter(Boolean)`). */
  function CellLabels(raw: string): (labels: seq<string>)
    ensures forall k :: 0 <= k < |labels| ==> labels[k] != ""
    ensures Trim(raw) == "" ==> labels == []
  {
    if Trim(raw) == "" then [] else CsvImport.NonEmpty(LabelPieces(raw))
  }

  /** The position of the first category whose name equals `name` ignoring case, `|cats|` if none. */
  function MatchIndex(cats: seq<Category>, name: string): (i: nat)
    ensures i <= |cats|
    ensures i < |cats| ==> Lower(cats[i].name) == Lower(name)
    ensures forall j :: 0 <= j < i ==> Lower(cats[j].name) != Lower(name)
  {
    if cats == [] then 0
    else if Lower(cats[0].name) == Lower(name) then 0
    else 1 + MatchIndex(cats[1..], name)
  }

  /** The category cell, trimmed, looked up by name ignoring case; "" (null) when blank or unknown. */
  function CellCategory(cats: seq<Category>, raw: string): (id: string)
    ensures Trim(raw) == "" ==> id == ""
    ensures Trim(raw) != "" && (forall c :: c in cats ==> Lower(c.name) != Lower(Trim(raw))) ==> id == ""
    ensures Trim(raw) != "" && MatchIndex(cats, Trim(raw)) < |cats| ==> id == cats[MatchIndex(cats, Trim(raw))].id
    ensures id != "" ==> exists c :: c in cats && c.id == id && Lower(c.name) == Lower(Trim(raw))
  {
    var name := Trim(raw);
    if name == "" then ""
    else
      var i := MatchIndex(cats, name);
      if i < |cats| then cats[i].id else ""
  }

  /**
   * One data line, or `None` when both its date and its amount cells are
   * empty. The date goes through `normalise` (`normaliseDateString`) when
   * it is not empty. The id is left at 0 and the note empty: the Import
   * button numbers the rows, and this reader has no note column.
   */
  function RowTransaction(cols: Columns, row: seq<string>, cats: seq<Category>, normalise: string -> string)
    : Option<Transaction>
  {
    var rawDate := CellAt(row, cols.date);
    var rawAmount := CellAt(row, cols.amount);
    if rawDate == "" && rawAmount == "" then None
    else
      var date := if rawDate == "" then "" else normalise(rawDate);
      var descCell := CellAt(row, cols.description);
      var description := if descCell != "" then descCell else "(no description)";
      Some(Transaction(0, date, description, CellAmount(rawAmount), CellCategory(cats, CellAt(row, cols.category)),
        CellLabels(CellAt(row, cols.labels)), CellAt(row, cols.account), ""))
  }

  /**
   * What becomes of a row: skipped without a date and an amount; otherwise
   * the amount is the cell without commas and spaces read as a number, or 0
   * when that does not parse, a blank description reads
   * "(no description)", and the category is the first one named like the
   * cell, ignoring case, or none.
   */
  lemma RowTransactionFields(cols: Columns, row: seq<string>, cats: seq<Category>, normalise: string -> string)
    ensures var r := RowTransaction(cols, row, cats, normalise);
      r.None? <==> CellAt(row, cols.date) == "" && CellAt(row, cols.amount) == ""
    ensures var r := RowTransaction(cols, row, cats, normalise);
      r.Some? ==>
        && r.value.id == 0
        && (ParseDecimal(RemoveChar(RemoveChar(CellAt(row, cols.amount), ','), ' ')).Some? ==>
              r.value.amount == ParseDecimal(RemoveChar(RemoveChar(CellAt(row, cols.amount), ','), ' ')).value)
        && (ParseDecimal(RemoveChar(RemoveChar(CellAt(row, cols.amount), ','), ' ')).None? ==> r.value.amount == 0.0)
        && (CellAt(row, cols.description) == "" ==> r.value.description == "(no description)")
        && (CellAt(row, cols.description) != "" ==> r.value.description == CellAt(row, cols.description))
        && r.value.categoryId == CellCategory(cats, CellAt(row, cols.category))
  {
  }

  /** `parseCsvTransactions` reading one line below the header. */
  function ReadLine(cols: Columns, cats: seq<Category>, normalise: string -> string): string -> Option<Transaction> {
    line => RowTransaction(cols, Cells(line), cats, normalise)
  }

  /** `parseCsvTransactions`, as a function of the file's text. */
  function CsvTransactions(text: string, cats: seq<Category>, normalise: string -> string): seq<Transaction> {
    var lines := TextLines(text);
    if lines == [] then [] else Collect(lines[1..], ReadLine(ColumnsOf(HeaderCells(lines[0])), cats, normalise))
  }

  /**
   * `parseCsvTransactions`: the header line fixes the columns, then each
   * later line is read and pushed unless it has neither date nor amount.
   * (The source's `if (!row.length) continue` never fires: a line always
   * has at least one cell.)
   */
  method ParseCsvTransactions(csvText: string, cats: seq<Category>, normalise: string -> string)
    returns (out: seq<Transaction>)
    ensures out == CsvTransactions(csvText, cats, normalise)
  {
    var lines := TextLines(csvText);
    if |lines| == 0 {
      return [];
    }
    var raw := ParseCsvLine(lines[0]);
    var headerCells := seq(|raw|, k requires 0 <= k < |raw| => Lower(Trim(raw[k])));
    var idxDate := FindIndex(headerCells, DateNames);
    var idxDesc := FindIndex(headerCells, DescriptionNames);
    var idxAmount := FindIndex(headerCells, AmountNames);
    var idxCategory := FindIndex(headerCells, CategoryNames);
    var idxAccount := FindIndex(headerCells, AccountNames);
    var idxLabels := FindIndex(headerCells, LabelNames);
    var cols := Columns(idxDate, idxDesc, idxAmount, idxCategory, idxAccount, idxLabels);
    assert cols == ColumnsOf(HeaderCells(lines[0]));
    out := ReadDataLines(lines, cols, cats, normalise);
  }

  /** The loop of `parseCsvTransactions` over the lines below the header. */
  method ReadDataLines(lines: seq<string>, cols: Columns, cats: seq<Category>, normalise: string -> string)
    returns (out: seq<Transaction>)
    requires |lines| >= 1
    ensures out == Collect(lines[1..], ReadLine(cols, cats, normalise))
  {
    out := [];
    for i := 1 to |lines|
      invariant out == Collect(lines[1..i], ReadLine(cols, cats, normalise))
    {
      var row := ParseCsvLine(lines[i]);
      var t := RowTransaction(cols, row, cats, normalise);
      assert t == ReadLine(cols, cats, normalise)(lines[i]);
      CollectStep(lines, i, ReadLine(cols, cats, normalise));
      if t.Some? {
        out := out + [t.value];
      }
    }
    SliceToEnd(lines, 1);
  }

  /**
   * The transactions read are exactly those of the data lines that have a
   * date or an amount: every one comes from such a line, and every such
   * line gives one.
   */
  lemma ReadExactly(text: string, cats: seq<Category>, normalise: string -> string, tx: Transaction)
    requires |TextLines(text)| >= 1
    ensures var lines := TextLines(text); var cols := ColumnsOf(HeaderCells(lines[0]));
      tx in CsvTransactions(text, cats, normalise) <==>
      exists k :: 1 <= k < |lines| && RowTransaction(cols, Cells(lines[k]), cats, normalise) == Some(tx)
  {
    var lines := TextLines(text);
    var cols := ColumnsOf(HeaderCells(lines[0]));
    var f := ReadLine(cols, cats, normalise);
    CollectTail(lines, f, tx);
    forall k | 1 <= k < |lines| ensures f(lines[k]) == RowTransaction(cols, Cells(lines[k]), cats, normalise) {
    }
  }

  /** A file without a non-blank line gives no transaction; neither does one holding only a header line. */
  lemma NoDataNoTransactions(text: string, cats: seq<Category>, normalise: string -> string)
    requires |TextLines(text)| <= 1
    ensures CsvTransactions(text, cats, normalise) == []
  {
  }

  /** Labels written with `,` between them, each trimmed and non-empty, read back as the same labels. */
  lemma LabelsRoundTrip(labels: seq<string>)
    requires |labels| >= 1
    requires forall k :: 0 <= k < |labels| ==> labels[k] != "" && Trim(labels[k]) == labels[k] && ',' !in labels[k]
    ensures CellLabels(Join(labels, ",")) == labels
  {
    PiecesOfJoin(labels);
    JoinNotBlank(labels);
    CsvImport.NonEmptyKeepsAll(labels);
  }

  /** The comma-separated pieces of joined trimmed labels are the labels. */
  lemma PiecesOfJoin(labels: seq<string>)
    requires |labels| >= 1
    requires forall k :: 0 <= k < |labels| ==> Trim(labels[k]) == labels[k] && ',' !in labels[k]
    ensures LabelPieces(Join(labels, ",")) == labels
  {
    var raw := Join(labels, ",");
    SplitJoin(labels, ',');
    var pieces := LabelPieces(raw);
    forall k | 0 <= k < |labels| ensures pieces[k] == labels[k] {
      PieceIsLabel(raw, labels, k);
    }
  }

  /** A piece whose part is already trimmed is that part. */
  lemma PieceIsLabel(raw: string, labels: seq<string>, k: int)
    requires Split(raw, ',') == labels && 0 <= k < |labels| && Trim(labels[k]) == labels[k]
    ensures LabelPieces(raw)[k] == labels[k]
  {
    assert LabelPieces(raw)[k] == Piece(labels, k);
    TrimmedFixed(labels[k]);
    PieceOfTrimmed(labels, k);
  }

  lemma PieceOfTrimmed(parts: seq<string>, k: int)
    requires 0 <= k < |parts| && TrimStart(parts[k]) == parts[k] && TrimEnd(parts[k]) == parts[k]
    ensures Piece(parts, k) == parts[k]
  {
  }

  /** Joined labels starting with a trimmed non-empty one are not blank. */
  lemma JoinNotBlank(labels: seq<string>)
    requires |labels| >= 1 && labels[0] != "" && Trim(labels[0]) == labels[0]
    ensures Trim(Join(labels, ",")) != ""
  {
    var raw := Join(labels, ",");
    TrimIdempotent(labels[0]);
    assert raw[0] == labels[0][0];
    TrimStartNoSpace(raw);
    TrimEndKeepsHead(raw);
  }
}
