/**
 * The Import tab of app.js (app.js:1800-1903): a naive CSV reader that
 * splits lines on commas under a header line, a header sniffer that picks
 * the column for each transaction field by a substring of its name, and
 * the mapper that turns the rows into transactions for the preview.
 */
module CsvImport {
  import opened Wrappers
  import opened Seqs
  import opened Text
  import Calendar
  import opened IsoDate
  import opened Records

  // ------------------------------------------------------------------
  // parseCSV
  // ------------------------------------------------------------------

  /**
   * One parsed row: the object `parseCSV` builds, as its keys in insertion
   * order and the value stored under each key.
   */
  datatype Row = Row(keys: seq<string>, cells: map<string, string>)

  /** `row[key] || ""`: a missing key reads as the empty string. */
  function Get(row: Row, key: string): string {
    if key in row.cells then row.cells[key] else ""
  }

  /** `cols[idx] ? cols[idx].trim() : ""`. */
  function CellAt(cols: seq<string>, idx: int): string {
    if 0 <= idx < |cols| then Trim(cols[idx]) else ""
  }

  /**
   * The object `headers.forEach((h, idx) => obj[h] = values[idx])` leaves:
   * each header in turn stores its value; a repeated header keeps its first
   * place among the keys and the value of its last column.
   */
  function Fill(headers: seq<string>, values: seq<string>): Row
    requires |values| == |headers|
  {
    if headers == [] then Row([], map[])
    else
      var n := |headers| - 1;
      var prev := Fill(headers[..n], values[..n]);
      var h := headers[n];
      Row(if h in prev.cells then prev.keys else prev.keys + [h], prev.cells[h := values[n]])
  }

  /** The trimmed cell under each of the headers. */
  function CellsFor(headers: seq<string>, cols: seq<string>): (values: seq<string>)
    ensures |values| == |headers|
    ensures forall k :: 0 <= k < |headers| ==> values[k] == CellAt(cols, k)
  {
    seq(|headers|, k => CellAt(cols, k))
  }

  /** The object the inner loop of `parseCSV` builds for one line split into `cols`. */
  function MakeRow(headers: seq<string>, cols: seq<string>): Row {
    Fill(headers, CellsFor(headers, cols))
  }

  /** Storing one more header extends the keys by it, unless it is already there, and overwrites its value. */
  lemma FillLast(headers: seq<string>, values: seq<string>)
    requires |values| == |headers| && headers != []
    ensures var n := |headers| - 1;
      var prev := Fill(headers[..n], values[..n]);
      Fill(headers, values) == Row(if headers[n] in prev.cells then prev.keys else prev.keys + [headers[n]],
        prev.cells[headers[n] := values[n]])
  {
  }

  /** A row's keys are the headers, each once, and they are exactly the keys it stores a value under. */
  lemma {:induction false} FillKeys(headers: seq<string>, values: seq<string>)
    requires |values| == |headers|
    ensures var r := Fill(headers, values);
      Distinct(r.keys) && (forall h :: h in r.keys <==> h in headers) && (forall h :: h in r.cells <==> h in headers)
  {
    if headers != [] {
      var n := |headers| - 1;
      var init, h := headers[..n], headers[n];
      assert headers == init + [h];
      var prev := Fill(init, values[..n]);
      FillKeys(init, values[..n]);
      FillLast(headers, values);
      if h !in prev.cells {
        DistinctAppend(prev.keys, h);
      }
    }
  }

  /** Each header holds the value of the last column carrying it. */
  lemma {:induction false} FillCell(headers: seq<string>, values: seq<string>, idx: int)
    requires |values| == |headers|
    requires 0 <= idx < |headers|
    requires headers[idx] !in headers[idx + 1..]
    ensures Get(Fill(headers, values), headers[idx]) == values[idx]
  {
    var n := |headers| - 1;
    var init, h := headers[..n], headers[n];
    var prev := Fill(init, values[..n]);
    FillLast(headers, values);
    if idx < n {
      assert headers[idx] != h by {
        assert headers[idx + 1..][n - idx - 1] == h;
      }
      assert init[idx] !in init[idx + 1..] by {
        assert headers[idx + 1..] == init[idx + 1..] + [h];
      }
      FillCell(init, values[..n], idx);
    }
  }

  /** The keys of a parsed row are the headers, each once. */
  lemma MakeRowKeys(headers: seq<string>, cols: seq<string>)
    ensures var r := MakeRow(headers, cols);
      Distinct(r.keys) && (forall h :: h in r.keys <==> h in headers) && (forall h :: h in r.cells <==> h in headers)
  {
    FillKeys(headers, CellsFor(headers, cols));
  }

  /** Each key holds the trimmed cell of the last column carrying that header, or "" past the line's end. */
  lemma MakeRowCell(headers: seq<string>, cols: seq<string>, idx: int)
    requires 0 <= idx < |headers|
    requires headers[idx] !in headers[idx + 1..]
    ensures Get(MakeRow(headers, cols), headers[idx]) == CellAt(cols, idx)
  {
    FillCell(headers, CellsFor(headers, cols), idx);
  }

  /**
   * The `headers.forEach` loop of `parseCSV`: starting from an empty object,
   * each header in turn stores its trimmed cell.
   */
  method BuildRow(headers: seq<string>, cols: seq<string>) returns (row: Row)
    ensures row == MakeRow(headers, cols)
  {
    ghost var values := CellsFor(headers, cols);
    row := Row([], map[]);
    for idx := 0 to |headers|
      invariant row == Fill(headers[..idx], values[..idx])
    {
      var h := headers[idx];
      var v := CellAt(cols, idx);
      FillStep(headers, values, idx);
      row := Row(if h in row.cells then row.keys else row.keys + [h], row.cells[h := v]);
    }
    SliceAll(headers);
    SliceAll(values);
  }

  /** Storing the header at `idx` extends the object built from the ones before it. */
  lemma FillStep(headers: seq<string>, values: seq<string>, idx: int)
    requires |values| == |headers| && 0 <= idx < |headers|
    ensures var prev := Fill(headers[..idx], values[..idx]);
      Fill(headers[..idx + 1], values[..idx + 1]) == Row(if headers[idx] in prev.cells then prev.keys else prev.keys + [headers[idx]],
        prev.cells[headers[idx] := values[idx]])
  {
    assert headers[..idx + 1][..idx] == headers[..idx];
    assert values[..idx + 1][..idx] == values[..idx];
    FillLast(headers[..idx + 1], values[..idx + 1]);
  }

  /** `text.split(/\r?\n/)`: split on line feeds, dropping the carriage return before each. */
  function Lines(text: string): (lines: seq<string>)
    ensures |lines| >= 1
  {
    var parts := Split(text, '\n');
    seq(|parts|, k requires 0 <= k < |parts| => if k + 1 < |parts| then DropCR(parts[k]) else parts[k])
  }

  /** A line that ended in `\r\n`, without its `\r`. */
  function DropCR(line: string): string {
    if line != [] && line[|line| - 1] == '\r' then line[..|line| - 1] else line
  }

  /** `lines[0].split(",").map(h => h.trim())`. */
  function Headers(line: string): seq<string> {
    var parts := Split(line, ',');
    seq(|parts|, k requires 0 <= k < |parts| => Trim(parts[k]))
  }

  /** The rows the loop of `parseCSV` has pushed after reading `lines`: blank lines skipped. */
  function DataRows(headers: seq<string>, lines: seq<string>): (rows: seq<Row>)
    ensures |rows| <= |lines|
  {
    if lines == [] then []
    else
      var n := |lines| - 1;
      var line := Trim(lines[n]);
      DataRows(headers, lines[..n]) + (if line == "" then [] else [MakeRow(headers, Split(line, ','))])
  }

  /** What `parseCSV` returns for a text. */
  function CsvRows(text: string): seq<Row> {
    var t := Trim(text);
    if t == "" then []
    else
      var lines := Lines(t);
      DataRows(Headers(lines[0]), lines[1..])
  }

  /**
   * `parseCSV`: the header line names the columns; every later non-blank
   * line becomes one row keyed by those names.
   */
  method ParseCSV(text: string) returns (rows: seq<Row>)
    ensures rows == CsvRows(text)
  {
    var t := Trim(text);
    if t == "" {
      return [];
    }
    var lines := Lines(t);
    var headers := Headers(lines[0]);
    rows := ReadRows(headers, lines);
  }

  /** The line loop of `parseCSV`: every line after the header that is not blank becomes a row. */
  method ReadRows(headers: seq<string>, lines: seq<string>) returns (rows: seq<Row>)
    requires |lines| >= 1
    ensures rows == DataRows(headers, lines[1..])
  {
    rows := [];
    for i := 1 to |lines|
      invariant rows == DataRows(headers, lines[1..i])
    {
      var line := Trim(lines[i]);
      DataRowsStep(headers, lines, i);
      if line == "" {
        continue;
      }
      var cols := Split(line, ',');
      var obj := BuildRow(headers, cols);
      rows := rows + [obj];
    }
    SliceToEnd(lines, 1);
  }

  lemma DataRowsStep(headers: seq<string>, lines: seq<string>, i: int)
    requires 1 <= i < |lines|
    ensures DataRows(headers, lines[1..i + 1]) == DataRows(headers, lines[1..i])
      + (if Trim(lines[i]) == "" then [] else [MakeRow(headers, Split(Trim(lines[i]), ','))])
  {
    var read := lines[1..i + 1];
    assert read[..|read| - 1] == lines[1..i] && read[|read| - 1] == lines[i];
  }

  /** Blank text has no rows. */
  lemma BlankTextNoRows(text: string)
    requires IsBlank(text)
    ensures CsvRows(text) == []
  {
    TrimEmptyIffBlank(text);
  }

  /** Every row carries exactly the header names as keys. */
  lemma {:induction false} DataRowsKeys(headers: seq<string>, lines: seq<string>, r: Row)
    requires r in DataRows(headers, lines)
    ensures forall h :: h in r.keys <==> h in headers
    ensures Distinct(r.keys)
  {
    if lines != [] {
      var n := |lines| - 1;
      var line := Trim(lines[n]);
      var pre := DataRows(headers, lines[..n]);
      var last := if line == "" then [] else [MakeRow(headers, Split(line, ','))];
      assert DataRows(headers, lines) == pre + last;
      if r in pre {
        DataRowsKeys(headers, lines[..n], r);
      } else {
        assert r in last;
        assert r == MakeRow(headers, Split(line, ','));
        MakeRowKeys(headers, Split(line, ','));
      }
    }
  }

  /** A line with content gives a row; a blank one gives none. */
  lemma DataRowsCount(headers: seq<string>, lines: seq<string>, line: string)
    ensures |DataRows(headers, lines + [line])| == |DataRows(headers, lines)| + (if Trim(line) == "" then 0 else 1)
  {
    assert (lines + [line])[..|lines|] == lines;
  }

  // ------------------------------------------------------------------
  // findHeaderKey
  // ------------------------------------------------------------------

  /** Does the lower-cased header contain one of the candidates? */
  predicate HeaderMatches(h: string, candidates: seq<string>) {
    exists k :: 0 <= k < |candidates| && Contains(Lower(h), candidates[k])
  }

  /**
   * `findHeaderKey`: the first header, in column order, whose lower-cased
   * name contains one of the candidates; `None` when no header does.
   */
  function FindHeaderKey(headers: seq<string>, candidates: seq<string>): (r: Option<string>)
    ensures r.None? <==> forall j :: 0 <= j < |headers| ==> !HeaderMatches(headers[j], candidates)
    ensures r.Some? ==> exists j :: (0 <= j < |headers| && headers[j] == r.value
      && HeaderMatches(headers[j], candidates)
      && forall i :: 0 <= i < j ==> !HeaderMatches(headers[i], candidates))
  {
    if headers == [] then None
    else if HeaderMatches(headers[0], candidates) then Some(headers[0])
    else
      var r := FindHeaderKey(headers[1..], candidates);
      if r.Some? then
        var j :| 0 <= j < |headers[1..]| && headers[1..][j] == r.value
          && HeaderMatches(headers[1..][j], candidates)
          && forall i :: 0 <= i < j ==> !HeaderMatches(headers[1..][i], candidates);
        assert headers[j + 1] == r.value;
        r
      else r
  }

  // ------------------------------------------------------------------
  // mapCSVRowsToTransactions
  // ------------------------------------------------------------------

  /** The column picked for each transaction field, from the first row's keys. */
  datatype Columns = Columns(
    date: Option<string>,
    description: Option<string>,
    amount: Option<string>,
    category: Option<string>,
    account: Option<string>,
    labels: Option<string>,
    note: Option<string>)

  function PickColumns(headers: seq<string>): Columns {
    Columns(
      FindHeaderKey(headers, ["date"]),
      FindHeaderKey(headers, ["description", "details", "narration"]),
      FindHeaderKey(headers, ["amount", "value"]),
      FindHeaderKey(headers, ["category"]),
      FindHeaderKey(headers, ["account"]),
      FindHeaderKey(headers, ["label", "tag"]),
      FindHeaderKey(headers, ["note", "memo"]))
  }

  /** `key ? (row[key] || "") : absent`. */
  function Field(row: Row, key: Option<string>, absent: string): string {
    if key.Some? then Get(row, key.value) else absent
  }

  /** `rawDate.slice(0, 10)` when it has a dash, today's date otherwise. */
  function RowDate(raw: string, today: Calendar.Date): (d: string)
    requires Calendar.Valid(today)
    ensures raw != "" && '-' in raw ==> d == raw[..if |raw| < 10 then |raw| else 10]
    ensures !(raw != "" && '-' in raw) ==> d == FormatISODate(today)
  {
    if raw != "" && IndexOf(raw, '-') >= 0 then raw[..if |raw| < 10 then |raw| else 10]
    else FormatISODate(today)
  }

  /** Commas dropped, then `parseFloat`; `NaN` becomes 0. */
  function RowAmount(raw: string): (a: real)
    ensures ParseDecimal(RemoveChar(raw, ',')).Some? ==> a == ParseDecimal(RemoveChar(raw, ',')).value
    ensures ParseDecimal(RemoveChar(raw, ',')).None? ==> a == 0.0
  {
    ParseDecimal(RemoveChar(raw, ',')).GetOr(0.0)
  }

  /** The last segment of a `Parent > Child` or `Parent:Child` path, trimmed. */
  function LastSegment(raw: string): string {
    var parts := SplitAny(raw, {'>', ':'});
    Trim(parts[|parts| - 1])
  }

  /** The id of the first category named exactly like the path's last segment, or "". */
  function RowCategory(cats: seq<Category>, raw: string): (id: string)
    ensures id != "" ==> exists c :: c in cats && c.id == id && c.name == LastSegment(Trim(raw))
    ensures Trim(raw) == "" ==> id == ""
  {
    var rawCat := Trim(raw);
    if rawCat == "" then ""
    else
      var last := LastSegment(rawCat);
      var i := FirstNamed(cats, last);
      if i < |cats| then cats[i].id else ""
  }

  /**
   * A non-blank category cell links the first category, in list order,
   * named exactly like its last segment, and none when no category has
   * that name.
   */
  lemma RowCategoryFirst(cats: seq<Category>, raw: string, j: int)
    requires Trim(raw) != ""
    ensures 0 <= j < |cats| && cats[j].name == LastSegment(Trim(raw))
         && (forall i :: 0 <= i < j ==> cats[i].name != LastSegment(Trim(raw)))
         ==> RowCategory(cats, raw) == cats[j].id
    ensures (forall c :: c in cats ==> c.name != LastSegment(Trim(raw))) ==> RowCategory(cats, raw) == ""
  {
    var name := LastSegment(Trim(raw));
    FirstNamedIsFirst(cats, name, j);
    assert RowCategory(cats, raw) == (var i := FirstNamed(cats, name); if i < |cats| then cats[i].id else "");
  }

  lemma FirstNamedIsFirst(cats: seq<Category>, name: string, j: int)
    ensures 0 <= j < |cats| && cats[j].name == name && (forall i :: 0 <= i < j ==> cats[i].name != name)
         ==> FirstNamed(cats, name) == j
    ensures (forall c :: c in cats ==> c.name != name) ==> FirstNamed(cats, name) == |cats|
  {
    var i := FirstNamed(cats, name);
    if i < |cats| {
      assert cats[i] in cats;
    }
  }

  /** `categories.find(c => c.name === name)`, as a position (`|cats|` when absent). */
  function FirstNamed(cats: seq<Category>, name: string): (i: nat)
    ensures i <= |cats|
    ensures i < |cats| ==> cats[i].name == name
    ensures forall j :: 0 <= j < i ==> cats[j].name != name
  {
    if cats == [] then 0
    else if cats[0].name == name then 0
    else 1 + FirstNamed(cats[1..], name)
  }

  /** The characters between labels in a labels cell. */
  const LabelSeps: set<char> := {';', ','}

  /** The labels cell split on `;` or `,`, each piece trimmed, empty pieces dropped. */
  function RowLabels(raw: string): (labels: seq<string>)
    ensures forall k :: 0 <= k < |labels| ==> labels[k] != ""
    ensures raw == "" ==> labels == []
  {
    if raw == "" then []
    else
      var parts := SplitAny(raw, LabelSeps);
      NonEmpty(TrimEach(parts))
  }

  /** `.map(s => s.trim())`. */
  function TrimEach(parts: seq<string>): (r: seq<string>)
    ensures |r| == |parts|
    ensures forall k :: 0 <= k < |parts| ==> r[k] == Trim(parts[k])
  {
    seq(|parts|, k requires 0 <= k < |parts| => Trim(parts[k]))
  }

  /** `.filter(s => s.length > 0)` over trimmed pieces. */
  function NonEmpty(pieces: seq<string>): (r: seq<string>)
    ensures forall k :: 0 <= k < |r| ==> r[k] != ""
    ensures forall s :: s in r <==> s in pieces && s != ""
  {
    if pieces == [] then []
    else (if pieces[0] == "" then [] else [pieces[0]]) + NonEmpty(pieces[1..])
  }

  /** The labels of a non-empty cell are exactly its non-empty trimmed `;`/`,` pieces. */
  lemma RowLabelsPieces(raw: string, l: string)
    requires raw != ""
    ensures l in RowLabels(raw) <==>
      l != "" && exists k :: 0 <= k < |SplitAny(raw, LabelSeps)| && Trim(SplitAny(raw, LabelSeps)[k]) == l
  {
    var parts := SplitAny(raw, LabelSeps);
    assert RowLabels(raw) == NonEmpty(TrimEach(parts));
    TrimmedPieces(parts, l);
    if l in RowLabels(raw) {
      var k :| 0 <= k < |parts| && Trim(parts[k]) == l;
      assert 0 <= k < |SplitAny(raw, LabelSeps)| && Trim(SplitAny(raw, LabelSeps)[k]) == l;
    } else if l != "" {
      assert !exists k :: 0 <= k < |parts| && Trim(parts[k]) == l;
    }
  }

  lemma TrimmedPieces(parts: seq<string>, l: string)
    ensures l in TrimEach(parts) <==> exists k :: 0 <= k < |parts| && Trim(parts[k]) == l
  {
    var trimmed := TrimEach(parts);
    if l in trimmed {
      var k :| 0 <= k < |trimmed| && trimmed[k] == l;
    } else {
      forall k | 0 <= k < |parts| ensures Trim(parts[k]) != l {
        assert trimmed[k] == Trim(parts[k]);
      }
    }
  }

  /** Pieces that are all non-empty are kept as they are, in order. */
  lemma {:induction false} NonEmptyKeepsAll(pieces: seq<string>)
    requires forall k :: 0 <= k < |pieces| ==> pieces[k] != ""
    ensures NonEmpty(pieces) == pieces
  {
    if pieces != [] {
      NonEmptyKeepsAll(pieces[1..]);
    }
  }

  /** Labels written with `,` between them, each trimmed, non-empty and free of `;` and `,`, read back as the same labels in the same order. */
  lemma LabelsRoundTrip(labels: seq<string>)
    requires |labels| >= 1
    requires forall k :: 0 <= k < |labels| ==> labels[k] != "" && Trim(labels[k]) == labels[k]
    requires forall k, j :: 0 <= k < |labels| && 0 <= j < |labels[k]| ==> labels[k][j] != ';' && labels[k][j] != ','
    ensures RowLabels(Join(labels, ",")) == labels
  {
    var raw := Join(labels, ",");
    SplitAnyJoin(labels, ',', LabelSeps);
    assert raw != "" by {
      if |labels| > 1 {
        assert raw == labels[0] + "," + Join(labels[1..], ",");
      }
    }
    assert TrimEach(labels) == labels;
    NonEmptyKeepsAll(labels);
  }

  /** Every label kept is a trimmed piece of the cell: no outer whitespace is left. */
  lemma LabelsTrimmed(raw: string)
    ensures forall l :: l in RowLabels(raw) ==> l != "" && Trim(l) == l
  {
    if raw != "" {
      var parts := SplitAny(raw, LabelSeps);
      var trimmed := TrimEach(parts);
      forall l | l in RowLabels(raw) ensures Trim(l) == l {
        assert l in trimmed;
        var k :| 0 <= k < |trimmed| && trimmed[k] == l;
        TrimIdempotent(parts[k]);
      }
    }
  }

  /**
   * One row as the preview shows it. The id is left at 0; the Import
   * button numbers the rows when it appends them.
   */
  function RowToTransaction(cols: Columns, row: Row, cats: seq<Category>, today: Calendar.Date): Transaction
    requires Calendar.Valid(today)
  {
    var rawDate := Field(row, cols.date, "");
    var categoryId := if cols.category.Some? then RowCategory(cats, Get(row, cols.category.value)) else "";
    var labels := if cols.labels.Some? then RowLabels(Get(row, cols.labels.value)) else [];
    Transaction(0, RowDate(rawDate, today), Field(row, cols.description, ""),
      RowAmount(Field(row, cols.amount, "0")), categoryId, labels,
      Field(row, cols.account, ""), Field(row, cols.note, ""))
  }

  /**
   * What a preview row holds: a date from its date cell when that looks
   * like one, else today's; blank text fields for missing columns.
   */
  lemma RowToTransactionFields(cols: Columns, row: Row, cats: seq<Category>, today: Calendar.Date)
    requires Calendar.Valid(today)
    ensures var tx := RowToTransaction(cols, row, cats, today);
      && tx.id == 0
      && tx.date == RowDate(Field(row, cols.date, ""), today)
      && (cols.description.None? ==> tx.description == "")
      && (cols.description.Some? ==> tx.description == Get(row, cols.description.value))
      && (cols.account.None? ==> tx.account == "")
      && (cols.account.Some? ==> tx.account == Get(row, cols.account.value))
      && (cols.note.None? ==> tx.note == "")
      && (cols.note.Some? ==> tx.note == Get(row, cols.note.value))
  {
  }

  /**
   * A preview row's amount is its cell read as a number once the
   * thousands commas are removed; it is 0 when the cell does not parse,
   * and when there is no amount column (the amount of "0").
   */
  lemma RowToTransactionAmount(cols: Columns, row: Row, cats: seq<Category>, today: Calendar.Date)
    requires Calendar.Valid(today)
    ensures var tx := RowToTransaction(cols, row, cats, today);
      && tx.amount == RowAmount(Field(row, cols.amount, "0"))
      && (ParseDecimal(RemoveChar(Field(row, cols.amount, "0"), ',')).Some? ==>
            tx.amount == ParseDecimal(RemoveChar(Field(row, cols.amount, "0"), ',')).value)
      && (ParseDecimal(RemoveChar(Field(row, cols.amount, "0"), ',')).None? ==> tx.amount == 0.0)
      && (cols.amount.None? ==> tx.amount == 0.0)
  {
    if cols.amount.None? {
      assert RemoveChar("0", ',') == "0";
      ParseDecimalOfNat(0);
    }
  }

  /**
   * A preview row's category is the one its category cell names (through
   * the cell's last path segment), and only when there is such a column;
   * its labels are those of its labels cell, none without that column.
   */
  lemma RowToTransactionLinks(cols: Columns, row: Row, cats: seq<Category>, today: Calendar.Date)
    requires Calendar.Valid(today)
    ensures var tx := RowToTransaction(cols, row, cats, today);
      && (tx.categoryId != "" ==> cols.category.Some? && exists c :: c in cats && c.id == tx.categoryId)
      && (cols.category.Some? ==> tx.categoryId == RowCategory(cats, Get(row, cols.category.value)))
      && (cols.category.None? ==> tx.categoryId == "")
      && (cols.labels.Some? ==> tx.labels == RowLabels(Get(row, cols.labels.value)))
      && (cols.labels.None? ==> tx.labels == [])
      && (forall k :: 0 <= k < |tx.labels| ==> tx.labels[k] != "")
  {
  }

  /** The columns are picked from the first row's keys; no rows, no columns. */
  function ColumnsOf(rows: seq<Row>): Columns
    requires rows != []
  {
    PickColumns(rows[0].keys)
  }

  /**
   * `mapCSVRowsToTransactions`: one transaction per row, in order, read
   * through the columns picked from the first row.
   */
  method MapCSVRowsToTransactions(rows: seq<Row>, cats: seq<Category>, today: Calendar.Date)
    returns (out: seq<Transaction>)
    requires Calendar.Valid(today)
    ensures |out| == |rows|
    ensures forall k :: 0 <= k < |out| ==> out[k] == RowToTransaction(ColumnsOf(rows), rows[k], cats, today)
  {
    if |rows| == 0 {
      return [];
    }
    var cols := PickColumns(rows[0].keys);
    out := MapRowsWith(cols, rows, cats, today);
  }

  /** `rows.map(...)` once the columns are picked: one transaction per row, in order. */
  method MapRowsWith(cols: Columns, rows: seq<Row>, cats: seq<Category>, today: Calendar.Date)
    returns (out: seq<Transaction>)
    requires Calendar.Valid(today)
    ensures |out| == |rows|
    ensures forall k :: 0 <= k < |out| ==> out[k] == RowToTransaction(cols, rows[k], cats, today)
  {
    var toTx := (row: Row) requires Calendar.Valid(today) => RowToTransaction(cols, row, cats, today);
    out := [];
    for k := 0 to |rows|
      invariant |out| == k
      invariant forall j :: 0 <= j < k ==> toTx.requires(rows[j]) && out[j] == toTx(rows[j])
    {
      PushMapped(out, rows, k, toTx);
      out := out + [toTx(rows[k])];
    }
  }

  /** A row without a separator in its amount cell keeps the plain decimal it holds. */
  lemma AmountOfPlainNumber(n: nat)
    ensures RowAmount(NatToString(n)) == n as real
  {
    var s := NatToString(n);
    assert ',' !in s by {
      forall k | 0 <= k < |s| ensures s[k] != ',' {
        assert IsDigit(s[k]);
      }
    }
    RemoveAbsent(s, ',');
    ParseDecimalOfNat(n);
  }
}
