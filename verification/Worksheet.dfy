/**
 Streaming a worksheet: rows arrive in any order, row 1 names the columns, and from then on
 only the columns an import reads are kept.
 */
module Worksheet {
  import opened Basics
  import opened Text

  const COLUMN_LIMIT := 16_383

  /** A cell element: its column letters, if its reference parses, and its text, if it can be resolved. */
  datatype RawCell = RawCell(letters: Option<string>, text: Option<string>)

  /** The row number attribute. */
  datatype RowAttr = NoAttr | BadAttr | Number(n: int)

  datatype RawRow = RawRow(attr: RowAttr, cells: seq<RawCell>)

  /** Sparse cells, in document order, keyed by zero-based column. */
  type Cells = seq<(int, string)>

  datatype Row = Row(number: int, values: Cells)

  datatype Sheet = Sheet(header: Option<Cells>, data: seq<Row>, nonempty: bool)

  datatype Failure = BadRowNumber | BadColumn | BadSharedString | RowLimitExceeded(actual: nat)

  /** The header words an import understands, after trimming and case folding. */
  datatype Vocabulary = Vocabulary(fold: string -> string, codes: set<string>, names: set<string>) {
    function Key(header: string): string { fold(Strip(header)) }

    predicate Consumed(header: string) { Key(header) in codes || Key(header) in names }
  }

  // ---------------------------------------------------------------------------
  // Column letters
  // ---------------------------------------------------------------------------

  predicate IsLetters(s: string) {
    s != "" && forall ch | ch in s :: 'A' <= ch <= 'Z'
  }

  /** Bijective base 26: A is 1, Z is 26, AA is 27. */
  function ColumnValue(letters: string): (v: nat)
    requires forall ch | ch in letters :: 'A' <= ch <= 'Z'
  {
    if letters == "" then 0
    else
      var n := |letters| - 1;
      assert letters[n] in letters && forall ch | ch in letters[..n] :: ch in letters;
      ColumnValue(letters[..n]) * 26 + (letters[n] as int - 'A' as int + 1)
  }

  /** The letters of a column value. */
  function ColumnLetters(v: nat): (s: string)
    ensures forall ch | ch in s :: 'A' <= ch <= 'Z'
    ensures v > 0 ==> s != ""
  {
    if v == 0 then "" else ColumnLetters((v - 1) / 26) + [((v - 1) % 26 + 'A' as int) as char]
  }

  /** Letters and column numbers are in one-to-one correspondence. */
  lemma {:induction false} ColumnRoundTrip(v: nat)
    ensures ColumnValue(ColumnLetters(v)) == v
  {
    if v > 0 {
      ColumnRoundTrip((v - 1) / 26);
      var s := ColumnLetters(v);
      assert s[..|s| - 1] == ColumnLetters((v - 1) / 26);
    }
  }

  /** Appending one letter to a value, and taking it off again. */
  lemma LastLetter(q: nat, letter: char)
    requires 'A' <= letter <= 'Z'
    ensures var v := q * 26 + (letter as int - 'A' as int + 1);
            ColumnLetters(v) == ColumnLetters(q) + [letter]
  {
    var d := letter as int - 'A' as int;
    var w := q * 26 + d;
    assert w / 26 == q && w % 26 == d;
    assert (d + 'A' as int) as char == letter;
  }

  lemma {:induction false} LettersRoundTrip(s: string)
    requires forall ch | ch in s :: 'A' <= ch <= 'Z'
    ensures ColumnLetters(ColumnValue(s)) == s
  {
    if s != "" {
      var n := |s| - 1;
      assert s[n] in s;
      assert forall ch | ch in s[..n] :: ch in s;
      LettersRoundTrip(s[..n]);
      LastLetter(ColumnValue(s[..n]), s[n]);
      assert s == s[..n] + [s[n]];
    }
  }

  /** The loop over the letters. */
  method ColumnIndex(cell: RawCell, fallback: int) returns (column: int)
    ensures column == ColumnOf(cell, fallback)
  {
    if cell.letters.None? || !IsLetters(cell.letters.value) {
      return fallback;
    }
    var letters, value := cell.letters.value, 0;
    assert forall i | 0 <= i <= |letters| :: forall ch | ch in letters[..i] :: ch in letters;
    for i := 0 to |letters|
      invariant value == ColumnValue(letters[..i])
    {
      assert letters[..i + 1][..i] == letters[..i];
      assert letters[i] in letters;
      value := value * 26 + (letters[i] as int - 'A' as int + 1);
    }
    assert letters[..|letters|] == letters;
    column := value - 1;
  }

  function ColumnOf(cell: RawCell, fallback: int): int {
    if cell.letters.Some? && IsLetters(cell.letters.value) then ColumnValue(cell.letters.value) - 1 else fallback
  }

  /** A reference with the letters of a column means that column, any other text the fallback. */
  lemma ReferenceNamesItsColumn(cell: RawCell, fallback: int, column: nat)
    ensures cell.letters == Some(ColumnLetters(column + 1)) ==> ColumnOf(cell, fallback) == column
    ensures (forall v: nat | v > 0 :: cell.letters != Some(ColumnLetters(v))) ==> ColumnOf(cell, fallback) == fallback
  {
    ColumnRoundTrip(column + 1);
    if cell.letters.Some? && IsLetters(cell.letters.value) {
      LettersRoundTrip(cell.letters.value);
      assert cell.letters == Some(ColumnLetters(ColumnValue(cell.letters.value)));
    }
  }

  // ---------------------------------------------------------------------------
  // Rows
  // ---------------------------------------------------------------------------

  predicate IsNonblank(text: string) {
    Strip(text) != ""
  }

  /** A text counts unless it is made of white space only. */
  lemma NonblankIff(text: string)
    ensures IsNonblank(text) <==> exists ch | ch in text :: !IsSpace(ch)
  {
    BlankIff(text);
  }

  /** Keep the entries of some columns. */
  function Prune(cells: Cells, columns: Option<set<int>>): Cells {
    if cells == [] then []
    else
      var rest := Prune(cells[..|cells| - 1], columns);
      var last := cells[|cells| - 1];
      if columns.None? || last.0 in columns.value then rest + [last] else rest
  }

  /** All cells of a row and whether any is nonblank, or what is wrong with it. */
  function FullCells(cells: seq<RawCell>, fallback: int): Result<(Cells, bool, int), Failure> {
    if cells == [] then Ok(([], false, fallback))
    else
      match FullCells(cells[..|cells| - 1], fallback)
      case Err(e) => Err(e)
      case Ok((values, nonblank, next)) =>
        var cell := cells[|cells| - 1];
        var column := ColumnOf(cell, next);
        if column < 0 || column > COLUMN_LIMIT then Err(BadColumn)
        else if cell.text.None? then Err(BadSharedString)
        else Ok((if cell.text.value != "" then values + [(column, cell.text.value)] else values,
                 nonblank || IsNonblank(cell.text.value), column + 1))
  }

  /** All cells of a row, with the columns that nobody will read taken out afterwards. */
  function PrunedCells(full: Result<(Cells, bool, int), Failure>, retained: Option<set<int>>): Result<(Cells, bool), Failure> {
    match full
    case Err(e) => Err(e)
    case Ok(cells) => Ok((Prune(cells.0, retained), cells.1))
  }

  /** Reading one row, dropping the columns that nobody will read. */
  method RowCells(row: RawRow, retained: Option<set<int>>) returns (result: Result<(Cells, bool), Failure>)
    ensures result == PrunedCells(FullCells(row.cells, 0), retained)
  {
    hide ColumnOf, IsNonblank;
    var values: Cells, nonblank, fallback := [], false, 0;
    for i := 0 to |row.cells|
      invariant FullCells(row.cells[..i], 0).Ok?
      invariant var full := FullCells(row.cells[..i], 0).value;
                values == Prune(full.0, retained) && nonblank == full.1 && fallback == full.2
    {
      var cell := row.cells[i];
      assert row.cells[..i + 1][..i] == row.cells[..i];
      var column := ColumnIndex(cell, fallback);
      if column < 0 || column > COLUMN_LIMIT {
        FailureStays(row.cells, 0, i + 1);
        return Err(BadColumn);
      }
      if cell.text.None? {
        FailureStays(row.cells, 0, i + 1);
        return Err(BadSharedString);
      }
      var value := cell.text.value;
      ghost var full := FullCells(row.cells[..i], 0).value.0;
      assert (full + [(column, value)])[..|full|] == full;
      nonblank := nonblank || IsNonblank(value);
      if value != "" && (retained.None? || column in retained.value) {
        values := values + [(column, value)];
      }
      fallback := column + 1;
    }
    assert row.cells[..|row.cells|] == row.cells;
    result := Ok((values, nonblank));
  }

  lemma {:induction false} FailureStays(cells: seq<RawCell>, fallback: int, i: nat)
    requires i <= |cells| && FullCells(cells[..i], fallback).Err?
    ensures FullCells(cells, fallback) == FullCells(cells[..i], fallback)
    decreases |cells| - i
  {
    if i < |cells| {
      assert cells[..i + 1][..i] == cells[..i];
      FailureStays(cells, fallback, i + 1);
    } else {
      assert cells[..i] == cells;
    }
  }

  // ---------------------------------------------------------------------------
  // Worksheets
  // ---------------------------------------------------------------------------

  function RowNumber(row: RawRow, position: nat): Result<int, Failure> {
    match row.attr
    case NoAttr => Ok(position)
    case BadAttr => Err(BadRowNumber)
    case Number(n) => Ok(n)
  }

  /** The columns whose header an import reads. */
  function ConsumedColumns(v: Vocabulary, header: Cells): set<int> {
    set entry | entry in header && v.Consumed(entry.1) :: entry.0
  }

  /** Take one row into account, keeping every cell. */
  function Take(sheet: Sheet, row: RawRow, position: nat, maxRows: nat): Result<Sheet, Failure> {
    match RowNumber(row, position)
    case Err(e) => Err(e)
    case Ok(number) =>
      match FullCells(row.cells, 0)
      case Err(e) => Err(e)
      case Ok((values, nonblank, _)) =>
        var seen := sheet.(nonempty := sheet.nonempty || nonblank);
        if number == 1 then
          Ok(if sheet.header.None? then seen.(header := Some(values)) else seen)
        else if number < 1 || !nonblank then Ok(seen)
        else if |sheet.data| + 1 > maxRows then Err(RowLimitExceeded(|sheet.data| + 1))
        else Ok(seen.(data := sheet.data + [Row(number, values)]))
  }

  /** A parse that keeps every cell. */
  function FullParse(rows: seq<RawRow>, maxRows: nat): Result<Sheet, Failure> {
    if rows == [] then Ok(Sheet(None, [], false))
    else
      match FullParse(rows[..|rows| - 1], maxRows)
      case Err(e) => Err(e)
      case Ok(sheet) => Take(sheet, rows[|rows| - 1], |rows|, maxRows)
  }

  function PruneRow(row: Row, columns: set<int>): Row {
    Row(row.number, Prune(row.values, Some(columns)))
  }

  function PruneRows(rows: seq<Row>, columns: set<int>): seq<Row> {
    seq(|rows|, i requires 0 <= i < |rows| => PruneRow(rows[i], columns))
  }

  /** The projection of a fully parsed sheet: data rows keep only the consumed columns. */
  function Project(v: Vocabulary, sheet: Sheet): Sheet {
    sheet.(data := PruneRows(sheet.data, if sheet.header.Some? then ConsumedColumns(v, sheet.header.value) else {}))
  }

  function Projected(v: Vocabulary, parsed: Result<Sheet, Failure>): Result<Sheet, Failure> {
    match parsed
    case Err(e) => Err(e)
    case Ok(sheet) => Ok(Project(v, sheet))
  }

  lemma {:induction false} PruneTwice(cells: Cells, columns: set<int>)
    ensures Prune(Prune(cells, Some(columns)), Some(columns)) == Prune(cells, Some(columns))
  {
    if cells != [] {
      var n := |cells| - 1;
      PruneTwice(cells[..n], columns);
      var rest := Prune(cells[..n], Some(columns));
      assert (rest + [cells[n]])[..|rest|] == rest;
    }
  }

  lemma {:induction false} PruneNothing(cells: Cells)
    ensures Prune(cells, None) == cells
  {
    if cells != [] {
      PruneNothing(cells[..|cells| - 1]);
    }
  }

  /** A row of the streamed sheet is the full row, pruned already or still whole. */
  predicate StreamedRow(full: Row, streamed: Row, retained: Option<set<int>>) {
    && streamed.number == full.number
    && (streamed.values == full.values
        || (retained.Some? && streamed.values == Prune(full.values, retained)))
  }

  predicate StreamedRows(full: seq<Row>, streamed: seq<Row>, retained: Option<set<int>>) {
    |streamed| == |full| && forall i | 0 <= i < |full| :: StreamedRow(full[i], streamed[i], retained)
  }

  /**
   The streaming reader: prunes as soon as it has seen row 1, and prunes the rows that came
   before it at the end. Whatever the order of the rows, it yields the projection.
   */
  method ConsumeRows(v: Vocabulary, rows: seq<RawRow>, maxRows: nat) returns (result: Result<Sheet, Failure>)
    ensures result == Projected(v, FullParse(rows, maxRows))
  {
    hide FullCells, Prune, ColumnOf;
    var data: seq<Row>, header: Option<Cells>, retained: Option<set<int>>, nonempty := [], None, None, false;
    for i := 0 to |rows|
      invariant FullParse(rows[..i], maxRows).Ok?
      invariant var full := FullParse(rows[..i], maxRows).value;
                && header == full.header && nonempty == full.nonempty
                && retained == (if header.Some? then Some(ConsumedColumns(v, header.value)) else None)
                && StreamedRows(full.data, data, retained)
    {
      assert rows[..i + 1][..i] == rows[..i];
      ghost var full := FullParse(rows[..i], maxRows).value;
      var number := RowNumber(rows[i], i + 1);
      if number.Err? {
        ParseFailureStays(rows, maxRows, i + 1);
        return Err(number.error);
      }
      var cells := RowCells(rows[i], if number.value == 1 then None else retained);
      if cells.Err? {
        ParseFailureStays(rows, maxRows, i + 1);
        return Err(cells.error);
      }
      var (values, nonblank) := cells.value;
      ghost var whole := FullCells(rows[i].cells, 0).value.0;
      PruneNothing(whole);
      nonempty := nonempty || nonblank;
      if number.value == 1 {
        if header.None? {
          header, retained := Some(values), Some(ConsumedColumns(v, values));
        }
      } else if number.value >= 1 && nonblank {
        if |data| + 1 > maxRows {
          ParseFailureStays(rows, maxRows, i + 1);
          return Err(RowLimitExceeded(|data| + 1));
        }
        assert StreamedRow(Row(number.value, whole), Row(number.value, values), retained);
        data := data + [Row(number.value, values)];
      }
    }
    assert rows[..|rows|] == rows;
    var columns := if retained.Some? then retained.value else {};
    ghost var full := FullParse(rows, maxRows).value;
    forall j | 0 <= j < |data| ensures PruneRow(data[j], columns) == PruneRow(full.data[j], columns) {
      assert StreamedRow(full.data[j], data[j], retained);
      PruneTwice(full.data[j].values, columns);
    }
    assert PruneRows(data, columns) == PruneRows(full.data, columns);
    result := Ok(Sheet(header, PruneRows(data, columns), nonempty));
  }

  lemma {:induction false} ParseFailureStays(rows: seq<RawRow>, maxRows: nat, i: nat)
    requires i <= |rows| && FullParse(rows[..i], maxRows).Err?
    ensures FullParse(rows, maxRows) == FullParse(rows[..i], maxRows)
    decreases |rows| - i
  {
    if i < |rows| {
      assert rows[..i + 1][..i] == rows[..i];
      ParseFailureStays(rows, maxRows, i + 1);
    } else {
      assert rows[..i] == rows;
    }
  }
}
