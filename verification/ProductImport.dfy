/**
 Phase one validates every row of a worksheet and keeps the first occurrence of each code;
 phase two inserts the candidates in one transaction.
 */
module ProductImport {
  import opened Basics
  import opened Text
  import opened Worksheet

  datatype Candidate = Candidate(row: int, code: string, name: string)

  datatype Reason = EmptyCode | BadCode(raw: string) | LongName

  datatype RowError = RowError(row: int, reason: Reason)

  datatype Verdict =
    | TooManyRows(actual: nat)
    | MissingCodeColumn(headers: seq<string>)
    | AmbiguousCodeColumn(headers: seq<string>)
    | FormatErrors(errors: seq<RowError>)
    | Valid(candidates: seq<Candidate>, duplicates: nat)

  // ---------------------------------------------------------------------------
  // Phase one
  // ---------------------------------------------------------------------------

  /** The first cell of a column, or the empty text. */
  function Get(cells: Cells, column: int): string {
    if cells == [] then ""
    else if cells[0].0 == column then cells[0].1
    else Get(cells[1..], column)
  }

  function Columns(v: Vocabulary, header: Cells, words: set<string>): seq<int> {
    if header == [] then []
    else (if v.Key(header[0].1) in words then [header[0].0] else []) + Columns(v, header[1..], words)
  }

  function HeaderTexts(header: Cells): seq<string> {
    seq(|header|, i requires 0 <= i < |header| => header[i].1)
  }

  datatype Tally = Tally(candidates: seq<Candidate>, seen: set<string>, duplicates: nat, errors: seq<RowError>)

  const NOTHING := Tally([], {}, 0, [])

  /** One data row: an error, a duplicate of an earlier row, or a new candidate. */
  function TakeRow(t: Tally, row: Row, codeColumn: int, nameColumn: Option<int>): Tally {
    var rawCode := Get(row.values, codeColumn);
    var rawName := if nameColumn.Some? then Get(row.values, nameColumn.value) else "";
    if Strip(rawCode) == "" then t.(errors := t.errors + [RowError(row.number, EmptyCode)])
    else
      match NormalizeCode(rawCode)
      case None => t.(errors := t.errors + [RowError(row.number, BadCode(rawCode))])
      case Some(code) =>
        match (if Strip(rawName) == "" then Some(code) else NormalizeName(rawName))
        case None => t.(errors := t.errors + [RowError(row.number, LongName)])
        case Some(name) =>
          if code in t.seen then t.(duplicates := t.duplicates + 1)
          else t.(seen := t.seen + {code}, candidates := t.candidates + [Candidate(row.number, code, name)])
  }

  function TakeRows(rows: seq<Row>, codeColumn: int, nameColumn: Option<int>): Tally {
    if rows == [] then NOTHING
    else TakeRow(TakeRows(rows[..|rows| - 1], codeColumn, nameColumn), rows[|rows| - 1], codeColumn, nameColumn)
  }

  function HeaderOf(sheet: Sheet): Cells {
    if sheet.header.Some? then sheet.header.value else []
  }

  function Validate(v: Vocabulary, sheet: Sheet, maxRows: nat): Verdict {
    var header := HeaderOf(sheet);
    var codeColumns := Columns(v, header, v.codes);
    var nameColumns := Columns(v, header, v.names);
    if |sheet.data| > maxRows then TooManyRows(|sheet.data|)
    else if |codeColumns| == 0 then MissingCodeColumn(HeaderTexts(header))
    else if |codeColumns| > 1 then AmbiguousCodeColumn(HeaderTexts(header))
    else
      var t := TakeRows(sheet.data, codeColumns[0], if nameColumns == [] then None else Some(nameColumns[0]));
      if t.errors != [] then FormatErrors(t.errors) else Valid(t.candidates, t.duplicates)
  }

  /** The validating loop. */
  method ValidateWorkbook(v: Vocabulary, sheet: Sheet, maxRows: nat) returns (verdict: Verdict)
    ensures verdict == Validate(v, sheet, maxRows)
  {
    var header := HeaderOf(sheet);
    if |sheet.data| > maxRows {
      return TooManyRows(|sheet.data|);
    }
    var codeColumns, nameColumns := Columns(v, header, v.codes), Columns(v, header, v.names);
    if |codeColumns| == 0 {
      return MissingCodeColumn(HeaderTexts(header));
    }
    if |codeColumns| > 1 {
      return AmbiguousCodeColumn(HeaderTexts(header));
    }
    var codeColumn, nameColumn := codeColumns[0], if nameColumns == [] then None else Some(nameColumns[0]);
    var candidates: seq<Candidate>, seen: set<string>, duplicates: nat, errors: seq<RowError> := [], {}, 0, [];
    for i := 0 to |sheet.data|
      invariant Tally(candidates, seen, duplicates, errors) == TakeRows(sheet.data[..i], codeColumn, nameColumn)
    {
      var row := sheet.data[i];
      assert sheet.data[..i + 1][..i] == sheet.data[..i];
      var rawCode := Get(row.values, codeColumn);
      if Strip(rawCode) == "" {
        errors := errors + [RowError(row.number, EmptyCode)];
        continue;
      }
      var code := NormalizeCode(rawCode);
      if code.None? {
        errors := errors + [RowError(row.number, BadCode(rawCode))];
        continue;
      }
      var rawName := if nameColumn.Some? then Get(row.values, nameColumn.value) else "";
      var name := if Strip(rawName) == "" then code else NormalizeName(rawName);
      if name.None? {
        errors := errors + [RowError(row.number, LongName)];
        continue;
      }
      if code.value in seen {
        duplicates := duplicates + 1;
        continue;
      }
      seen := seen + {code.value};
      candidates := candidates + [Candidate(row.number, code.value, name.value)];
    }
    assert sheet.data[..|sheet.data|] == sheet.data;
    return if errors != [] then FormatErrors(errors) else Valid(candidates, duplicates);
  }

  // ---------------------------------------------------------------------------
  // Projection preserves meaning
  // ---------------------------------------------------------------------------

  lemma {:induction false} GetAppend(a: Cells, b: Cells, column: int)
    ensures Get(a + b, column) ==
            if exists e | e in a :: e.0 == column then Get(a, column) else Get(b, column)
  {
    if a == [] {
      assert a + b == b;
    } else {
      assert (a + b)[1..] == a[1..] + b;
      GetAppend(a[1..], b, column);
      assert forall e | e in a :: e == a[0] || e in a[1..];
      assert forall e | e in a[1..] :: e in a;
      assert a[0] in a;
    }
  }

  /** Pruning keeps the first cell of every column it retains. */
  lemma {:induction false} GetPruned(cells: Cells, columns: set<int>, column: int)
    requires column in columns
    ensures Get(Prune(cells, Some(columns)), column) == Get(cells, column)
    ensures (exists e | e in Prune(cells, Some(columns)) :: e.0 == column) <==> exists e | e in cells :: e.0 == column
  {
    if cells != [] {
      var n := |cells| - 1;
      var front, last := cells[..n], cells[n];
      GetPruned(front, columns, column);
      assert cells == front + [last];
      GetAppend(front, [last], column);
      GetAppend(Prune(front, Some(columns)), [last], column);
      PrunedMembers(front, last, columns, column);
      GetAbsent(front, column);
    }
  }

  lemma {:induction false} GetAbsent(cells: Cells, column: int)
    ensures (exists e | e in cells :: e.0 == column) || Get(cells, column) == ""
  {
    if cells != [] {
      GetAbsent(cells[1..], column);
      assert cells[0] in cells && forall e | e in cells[1..] :: e in cells;
    }
  }

  lemma PrunedMembers(front: Cells, last: (int, string), columns: set<int>, column: int)
    requires column in columns
    requires (exists e | e in Prune(front, Some(columns)) :: e.0 == column) <==> exists e | e in front :: e.0 == column
    ensures (exists e | e in Prune(front + [last], Some(columns)) :: e.0 == column)
            <==> exists e | e in front + [last] :: e.0 == column
  {
    var cells := front + [last];
    var rest := Prune(front, Some(columns));
    assert cells[..|cells| - 1] == front;
    assert forall e | e in cells :: e in front || e == last;
    assert forall e | e in front :: e in cells;
    assert last in cells;
    assert forall e | e in rest + [last] :: e in rest || e == last;
    assert forall e | e in rest :: e in rest + [last];
    assert last in rest + [last];
  }

  lemma {:induction false} ColumnsAreConsumed(v: Vocabulary, header: Cells, words: set<string>)
    requires words == v.codes || words == v.names
    ensures forall c | c in Columns(v, header, words) :: c in ConsumedColumns(v, header)
  {
    if header != [] {
      ColumnsAreConsumed(v, header[1..], words);
      assert header[0] in header;
      assert forall e | e in header[1..] :: e in header;
    }
  }

  lemma FirstIsConsumed(v: Vocabulary, header: Cells, words: set<string>)
    requires words == v.codes || words == v.names
    ensures Columns(v, header, words) != [] ==> Columns(v, header, words)[0] in ConsumedColumns(v, header)
  {
    ColumnsAreConsumed(v, header, words);
    assert Columns(v, header, words) != [] ==> Columns(v, header, words)[0] in Columns(v, header, words);
  }

  lemma {:induction false} RowsAgree(rows: seq<Row>, columns: set<int>, codeColumn: int, nameColumn: Option<int>)
    requires codeColumn in columns && (nameColumn.Some? ==> nameColumn.value in columns)
    ensures TakeRows(PruneRows(rows, columns), codeColumn, nameColumn) == TakeRows(rows, codeColumn, nameColumn)
  {
    if rows != [] {
      var n := |rows| - 1;
      var pruned := PruneRows(rows, columns);
      assert pruned[..n] == PruneRows(rows[..n], columns);
      RowsAgree(rows[..n], columns, codeColumn, nameColumn);
      RowAgrees(TakeRows(rows[..n], codeColumn, nameColumn), rows[n], columns, codeColumn, nameColumn);
      hide TakeRow, PruneRow;
    }
  }

  lemma RowAgrees(t: Tally, row: Row, columns: set<int>, codeColumn: int, nameColumn: Option<int>)
    requires codeColumn in columns && (nameColumn.Some? ==> nameColumn.value in columns)
    ensures TakeRow(t, PruneRow(row, columns), codeColumn, nameColumn) == TakeRow(t, row, codeColumn, nameColumn)
  {
    GetPruned(row.values, columns, codeColumn);
    if nameColumn.Some? {
      GetPruned(row.values, columns, nameColumn.value);
    }
    hide Get, Prune, NormalizeCode, NormalizeName, Strip;
  }

  /** Validating the projected sheet gives the verdict of validating every cell. */
  lemma ProjectionPreservesVerdict(v: Vocabulary, sheet: Sheet, maxRows: nat)
    ensures Validate(v, Project(v, sheet), maxRows) == Validate(v, sheet, maxRows)
  {
    var header := HeaderOf(sheet);
    var codeColumns, nameColumns := Columns(v, header, v.codes), Columns(v, header, v.names);
    FirstIsConsumed(v, header, v.codes);
    FirstIsConsumed(v, header, v.names);
    if |codeColumns| == 1 {
      RowsAgree(sheet.data, ConsumedColumns(v, header), codeColumns[0],
                if nameColumns == [] then None else Some(nameColumns[0]));
    }
  }

  /** Stream a worksheet and validate it: the answer is that of a parse that keeps every cell. */
  method ReadAndValidate(v: Vocabulary, rows: seq<RawRow>, maxRows: nat) returns (result: Result<Verdict, Failure>)
    ensures var full := FullParse(rows, maxRows);
            && (full.Ok? ==> result == Ok(Validate(v, full.value, maxRows)))
            && (full.Err? ==> result == Err(full.error))
  {
    var parsed := ConsumeRows(v, rows, maxRows);
    if parsed.Err? {
      return Err(parsed.error);
    }
    ProjectionPreservesVerdict(v, FullParse(rows, maxRows).value, maxRows);
    var verdict := ValidateWorkbook(v, parsed.value, maxRows);
    return Ok(verdict);
  }

  // ---------------------------------------------------------------------------
  // Conservation in phase one
  // ---------------------------------------------------------------------------

  function CodeOf(row: Row, codeColumn: int): Option<string> {
    NormalizeCode(Get(row.values, codeColumn))
  }

  /** The trimmed text of the name cell, or the code where there is none. */
  function NameOf(row: Row, nameColumn: Option<int>, code: string): string {
    var raw := if nameColumn.Some? then Get(row.values, nameColumn.value) else "";
    if Strip(raw) == "" then code else Strip(raw)
  }

  /** The candidate is the first row with its code, and has the name of that row. */
  predicate IsFirst(rows: seq<Row>, codeColumn: int, nameColumn: Option<int>, c: Candidate) {
    exists i | 0 <= i < |rows| ::
      && rows[i].number == c.row && CodeOf(rows[i], codeColumn) == Some(c.code)
      && c.name == NameOf(rows[i], nameColumn, c.code)
      && forall j | 0 <= j < i :: CodeOf(rows[j], codeColumn) != Some(c.code)
  }

  predicate Accounted(rows: seq<Row>, codeColumn: int, nameColumn: Option<int>, t: Tally) {
    && |t.candidates| + t.duplicates + |t.errors| == |rows|
    && t.seen == (set c | c in t.candidates :: c.code)
    && (forall i, j | 0 <= i < j < |t.candidates| :: t.candidates[i].code != t.candidates[j].code)
    && (forall c | c in t.candidates :: IsCanonicalCode(c.code))
    && (t.errors == [] ==> forall c | c in t.candidates :: IsFirst(rows, codeColumn, nameColumn, c))
    && (t.errors == [] ==>
          forall row | row in rows :: CodeOf(row, codeColumn).Some? && CodeOf(row, codeColumn).value in t.seen)
  }

  lemma FirstGrows(rows: seq<Row>, row: Row, codeColumn: int, nameColumn: Option<int>, c: Candidate)
    requires IsFirst(rows, codeColumn, nameColumn, c)
    ensures IsFirst(rows + [row], codeColumn, nameColumn, c)
  {
    var i :| 0 <= i < |rows| && rows[i].number == c.row && CodeOf(rows[i], codeColumn) == Some(c.code)
             && c.name == NameOf(rows[i], nameColumn, c.code)
             && forall j | 0 <= j < i :: CodeOf(rows[j], codeColumn) != Some(c.code);
    assert (rows + [row])[i] == rows[i];
  }

  lemma {:induction false} RowsAccounted(rows: seq<Row>, codeColumn: int, nameColumn: Option<int>)
    ensures Accounted(rows, codeColumn, nameColumn, TakeRows(rows, codeColumn, nameColumn))
  {
    if rows != [] {
      var n := |rows| - 1;
      RowsAccounted(rows[..n], codeColumn, nameColumn);
      assert rows == rows[..n] + [rows[n]];
      OneMoreRow(rows[..n], rows[n], codeColumn, nameColumn, TakeRows(rows[..n], codeColumn, nameColumn));
    }
  }

  lemma NameIsTrimmed(raw: string)
    ensures NormalizeName(raw).Some? ==> NormalizeName(raw).value == Strip(raw)
  {
  }

  lemma OneMoreRow(rows: seq<Row>, row: Row, codeColumn: int, nameColumn: Option<int>, t: Tally)
    requires Accounted(rows, codeColumn, nameColumn, t)
    ensures Accounted(rows + [row], codeColumn, nameColumn, TakeRow(t, row, codeColumn, nameColumn))
  {
    var t' := TakeRow(t, row, codeColumn, nameColumn);
    NormalizeCodeIsProjection(Get(row.values, codeColumn));
    hide Get, NormalizeCode, NormalizeName, Strip, IsCanonicalCode, IsFirst;
    if t'.errors == [] {
      forall c | c in t.candidates ensures IsFirst(rows + [row], codeColumn, nameColumn, c) {
        FirstGrows(rows, row, codeColumn, nameColumn, c);
      }
      if |t'.candidates| > |t.candidates| {
        NameIsTrimmed(if nameColumn.Some? then Get(row.values, nameColumn.value) else "");
        NewCodeIsFirst(rows, row, codeColumn, nameColumn, t, t'.candidates[|t.candidates|]);
      }
    }
  }

  lemma NewCodeIsFirst(rows: seq<Row>, row: Row, codeColumn: int, nameColumn: Option<int>, t: Tally, c: Candidate)
    requires Accounted(rows, codeColumn, nameColumn, t) && t.errors == [] && c.code !in t.seen
    requires c.row == row.number && CodeOf(row, codeColumn) == Some(c.code)
    requires c.name == NameOf(row, nameColumn, c.code)
    ensures IsFirst(rows + [row], codeColumn, nameColumn, c)
  {
    hide CodeOf;
    var more := rows + [row];
    assert more[|rows|] == row;
    forall j | 0 <= j < |rows| ensures CodeOf(more[j], codeColumn) != Some(c.code) {
      assert more[j] in rows;
    }
  }

  function NameColumnOf(v: Vocabulary, sheet: Sheet): Option<int> {
    var nameColumns := Columns(v, HeaderOf(sheet), v.names);
    if nameColumns == [] then None else Some(nameColumns[0])
  }

  /** The text of the first cell of the column. */
  lemma {:induction false} GetIsTheFirstCell(cells: Cells, column: int)
    ensures (forall i | 0 <= i < |cells| :: cells[i].0 != column) ==> Get(cells, column) == ""
    ensures forall i | 0 <= i < |cells| && cells[i].0 == column && (forall j | 0 <= j < i :: cells[j].0 != column) ::
              Get(cells, column) == cells[i].1
  {
    if cells != [] && cells[0].0 != column {
      GetIsTheFirstCell(cells[1..], column);
      assert forall i | 1 <= i < |cells| :: cells[i] == cells[1..][i - 1];
      forall i | 0 <= i < |cells| && cells[i].0 == column && (forall j | 0 <= j < i :: cells[j].0 != column)
        ensures Get(cells, column) == cells[i].1
      {
        assert forall j | 0 <= j < i - 1 :: cells[1..][j] == cells[j + 1];
      }
    }
  }

  predicate Matches(v: Vocabulary, header: Cells, words: set<string>, i: nat)
    requires i < |header|
  {
    v.fold(Strip(header[i].1)) in words
  }

  /** There are as many columns as header cells that match, and the first is that of the first such cell. */
  lemma {:induction false} ColumnsAreTheMatches(v: Vocabulary, header: Cells, words: set<string>)
    ensures Columns(v, header, words) == [] <==> forall i: nat | i < |header| :: !Matches(v, header, words, i)
    ensures |Columns(v, header, words)| > 1
            <==> exists i: nat, j: nat | i < j < |header| :: Matches(v, header, words, i) && Matches(v, header, words, j)
    ensures forall i: nat | i < |header| && Matches(v, header, words, i)
                            && (forall j: nat | j < i :: !Matches(v, header, words, j)) ::
              Columns(v, header, words)[0] == header[i].0
  {
    if header != [] {
      var rest := header[1..];
      ColumnsAreTheMatches(v, rest, words);
      assert forall i: nat | i < |rest| :: Matches(v, rest, words, i) <==> Matches(v, header, words, i + 1);
      hide Matches;
      OneMoreHeader(v, header, words);
    }
  }

  lemma OneMoreHeader(v: Vocabulary, header: Cells, words: set<string>)
    requires header != []
    requires var rest := header[1..];
             && (Columns(v, rest, words) == [] <==> forall i: nat | i < |rest| :: !Matches(v, rest, words, i))
             && (|Columns(v, rest, words)| > 1
                 <==> exists i: nat, j: nat | i < j < |rest| :: Matches(v, rest, words, i) && Matches(v, rest, words, j))
             && (forall i: nat | i < |rest| && Matches(v, rest, words, i)
                                 && (forall j: nat | j < i :: !Matches(v, rest, words, j)) ::
                   Columns(v, rest, words)[0] == rest[i].0)
    ensures Columns(v, header, words) == [] <==> forall i: nat | i < |header| :: !Matches(v, header, words, i)
    ensures |Columns(v, header, words)| > 1
            <==> exists i: nat, j: nat | i < j < |header| :: Matches(v, header, words, i) && Matches(v, header, words, j)
    ensures forall i: nat | i < |header| && Matches(v, header, words, i)
                            && (forall j: nat | j < i :: !Matches(v, header, words, j)) ::
              Columns(v, header, words)[0] == header[i].0
  {
    var rest := header[1..];
    assert forall i: nat | i < |rest| :: Matches(v, rest, words, i) <==> Matches(v, header, words, i + 1);
    assert forall i: nat | 0 < i < |header| :: Matches(v, header, words, i) <==> Matches(v, rest, words, i - 1);
    var first, all := Matches(v, header, words, 0), Columns(v, header, words);
    assert all == (if first then [header[0].0] else []) + Columns(v, rest, words);
    hide Matches, Columns;
    if Columns(v, rest, words) != [] {
      var i: nat :| i < |rest| && Matches(v, rest, words, i);
      assert Matches(v, header, words, i + 1);
      if |Columns(v, rest, words)| > 1 {
        var j: nat, k: nat :| j < k < |rest| && Matches(v, rest, words, j) && Matches(v, rest, words, k);
        assert Matches(v, header, words, j + 1) && Matches(v, header, words, k + 1);
      }
    }
  }

  /** A row that can be imported: its code is one, and its name is not too long. */
  predicate IsGood(row: Row, codeColumn: int, nameColumn: Option<int>) {
    CodeOf(row, codeColumn).Some? && |NameOf(row, nameColumn, CodeOf(row, codeColumn).value)| <= 120
  }

  /** What is wrong with a row that cannot be imported. */
  predicate IsFaultOf(row: Row, codeColumn: int, nameColumn: Option<int>, e: RowError) {
    && e.row == row.number && !IsGood(row, codeColumn, nameColumn)
    && match e.reason
       case EmptyCode => Strip(Get(row.values, codeColumn)) == ""
       case BadCode(raw) => raw == Get(row.values, codeColumn) && Strip(raw) != "" && CodeOf(row, codeColumn).None?
       case LongName => CodeOf(row, codeColumn).Some?
  }

  lemma RowIsGoodOrFaulty(t: Tally, row: Row, codeColumn: int, nameColumn: Option<int>)
    ensures var t' := TakeRow(t, row, codeColumn, nameColumn);
            if IsGood(row, codeColumn, nameColumn) then t'.errors == t.errors
            else exists e :: IsFaultOf(row, codeColumn, nameColumn, e) && t'.errors == t.errors + [e]
  {
    var raw := Get(row.values, codeColumn);
    NormalizeCodeIsProjection(raw);
    var t' := TakeRow(t, row, codeColumn, nameColumn);
    hide Get, IsCanonicalCode;
    if t'.errors != t.errors {
      var e := t'.errors[|t.errors|];
      assert t'.errors == t.errors + [e];
      assert IsFaultOf(row, codeColumn, nameColumn, e);
    }
  }

  /** One error for each row that cannot be imported, in their order. */
  ghost predicate ErrorsOf(rows: seq<Row>, codeColumn: int, nameColumn: Option<int>, errors: seq<RowError>) {
    if rows == [] then errors == []
    else
      var n := |rows| - 1;
      if IsGood(rows[n], codeColumn, nameColumn) then ErrorsOf(rows[..n], codeColumn, nameColumn, errors)
      else && errors != [] && IsFaultOf(rows[n], codeColumn, nameColumn, errors[|errors| - 1])
           && ErrorsOf(rows[..n], codeColumn, nameColumn, errors[..|errors| - 1])
  }

  lemma {:induction false} ErrorsAreTheFaults(rows: seq<Row>, codeColumn: int, nameColumn: Option<int>)
    ensures ErrorsOf(rows, codeColumn, nameColumn, TakeRows(rows, codeColumn, nameColumn).errors)
  {
    if rows != [] {
      var n := |rows| - 1;
      var t := TakeRows(rows[..n], codeColumn, nameColumn);
      assert TakeRows(rows, codeColumn, nameColumn) == TakeRow(t, rows[n], codeColumn, nameColumn);
      hide TakeRow, TakeRows, IsGood, IsFaultOf;
      ErrorsAreTheFaults(rows[..n], codeColumn, nameColumn);
      RowIsGoodOrFaulty(t, rows[n], codeColumn, nameColumn);
      if !IsGood(rows[n], codeColumn, nameColumn) {
        var e :| IsFaultOf(rows[n], codeColumn, nameColumn, e)
          && TakeRow(t, rows[n], codeColumn, nameColumn).errors == t.errors + [e];
        assert (t.errors + [e])[..|t.errors|] == t.errors;
      }
    }
  }

  lemma {:induction false} NoErrorsIffAllGood(
    rows: seq<Row>, codeColumn: int, nameColumn: Option<int>, errors: seq<RowError>)
    requires ErrorsOf(rows, codeColumn, nameColumn, errors)
    ensures errors == [] <==> forall row | row in rows :: IsGood(row, codeColumn, nameColumn)
  {
    hide IsGood, IsFaultOf;
    if rows != [] {
      var n := |rows| - 1;
      assert rows == rows[..n] + [rows[n]];
      if IsGood(rows[n], codeColumn, nameColumn) {
        NoErrorsIffAllGood(rows[..n], codeColumn, nameColumn, errors);
      }
    }
  }

  /**
   Which verdict a sheet gets: too many rows before anything else, then no header or several headers for the code, then
   one error for each row that cannot be imported, in order; and a list of candidates exactly otherwise.
   */
  lemma VerdictsMean(v: Vocabulary, sheet: Sheet, maxRows: nat)
    ensures var verdict, header := Validate(v, sheet, maxRows), HeaderOf(sheet);
            && (verdict.TooManyRows? <==> |sheet.data| > maxRows)
            && (verdict.MissingCodeColumn? <==>
                  |sheet.data| <= maxRows && forall i: nat | i < |header| :: !Matches(v, header, v.codes, i))
            && (verdict.MissingCodeColumn? || verdict.AmbiguousCodeColumn? ==>
                  |verdict.headers| == |header| && forall i: nat | i < |header| :: verdict.headers[i] == header[i].1)
            && (verdict.AmbiguousCodeColumn? <==>
                  |sheet.data| <= maxRows && exists i: nat, j: nat | i < j < |header| ::
                    Matches(v, header, v.codes, i) && Matches(v, header, v.codes, j))
            && (verdict.FormatErrors? || verdict.Valid? ==>
                  && Columns(v, header, v.codes) != []
                  && var column := Columns(v, header, v.codes)[0];
                     && (verdict.Valid? <==> forall row | row in sheet.data :: IsGood(row, column, NameColumnOf(v, sheet)))
                     && (verdict.FormatErrors? ==>
                           ErrorsOf(sheet.data, column, NameColumnOf(v, sheet), verdict.errors)))
  {
    var header := HeaderOf(sheet);
    ColumnsAreTheMatches(v, header, v.codes);
    if Columns(v, header, v.codes) != [] {
      var column, names := Columns(v, header, v.codes)[0], NameColumnOf(v, sheet);
      ErrorsAreTheFaults(sheet.data, column, names);
      NoErrorsIffAllGood(sheet.data, column, names, TakeRows(sheet.data, column, names).errors);
    }
    hide Matches, Columns, IsGood, ErrorsOf, TakeRows;
  }

  /**
   Conservation: when validation succeeds, candidates and duplicates together are the
   nonblank data rows, the candidates are the first rows with their codes and keep the names
   of those rows, their codes are canonical and distinct, and every row's code is among them.
   */
  lemma ValidationConserves(v: Vocabulary, sheet: Sheet, maxRows: nat)
    requires Validate(v, sheet, maxRows).Valid?
    ensures var verdict, column := Validate(v, sheet, maxRows), Columns(v, HeaderOf(sheet), v.codes)[0];
            var names := NameColumnOf(v, sheet);
            && |verdict.candidates| + verdict.duplicates == |sheet.data|
            && (forall i, j | 0 <= i < j < |verdict.candidates| ::
                  verdict.candidates[i].code != verdict.candidates[j].code)
            && (forall c | c in verdict.candidates :: IsFirst(sheet.data, column, names, c) && IsCanonicalCode(c.code))
            && (forall row | row in sheet.data ::
                  exists c | c in verdict.candidates :: CodeOf(row, column) == Some(c.code))
  {
    RowsAccounted(sheet.data, Columns(v, HeaderOf(sheet), v.codes)[0], NameColumnOf(v, sheet));
    hide IsFirst, CodeOf, IsCanonicalCode;
  }

  // ---------------------------------------------------------------------------
  // Phase two
  // ---------------------------------------------------------------------------

  /** The committed products: canonical code to name. */
  type Products = map<string, string>

  datatype Import = Imported(success: nat, duplicates: nat) | SystemError

  /**
   What happens to one candidate: its code may be taken, its token may collide until the
   retries run out, or it is inserted.
   */
  datatype Luck = TokenFound | TokensExhausted

  /** Insert every candidate, or nothing at all. */
  function InsertAll(products: Products, candidates: seq<Candidate>, luck: seq<Luck>): Option<(Products, nat, nat)>
    requires |luck| == |candidates|
  {
    if candidates == [] then Some((products, 0, 0))
    else
      var n := |candidates| - 1;
      match InsertAll(products, candidates[..n], luck[..n])
      case None => None
      case Some((p, success, duplicates)) =>
        var c := candidates[n];
        var code, name := NormalizeCode(c.code), NormalizeName(c.name);
        if code.None? || name.None? then None
        else if code.value in p then Some((p, success, duplicates + 1))
        else if luck[n].TokensExhausted? then None
        else Some((p[code.value := name.value], success + 1, duplicates))
  }

  /** One transaction over the product table. */
  class Catalogue {
    var products: Products

    constructor (products: Products)
      ensures this.products == products
    {
      this.products := products;
    }

    /** Insert in one transaction: a failure rolls back everything inserted before it. */
    method ImportCandidates(candidates: seq<Candidate>, fileDuplicates: nat, luck: seq<Luck>) returns (result: Import)
      requires |luck| == |candidates|
      modifies this
      ensures var inserted := InsertAll(old(products), candidates, luck);
              if inserted.None? then result == SystemError && products == old(products)
              else products == inserted.value.0
                   && result == Imported(inserted.value.1, fileDuplicates + inserted.value.2)
    {
      var before := products;
      var success, duplicates := 0, fileDuplicates;
      for i := 0 to |candidates|
        invariant InsertAll(old(products), candidates[..i], luck[..i]).Some?
        invariant var t := InsertAll(old(products), candidates[..i], luck[..i]).value;
                  products == t.0 && success == t.1 && duplicates == fileDuplicates + t.2
      {
        assert candidates[..i + 1][..i] == candidates[..i] && luck[..i + 1][..i] == luck[..i];
        var code, name := NormalizeCode(candidates[i].code), NormalizeName(candidates[i].name);
        if code.None? || name.None? {
          InsertionFails(old(products), candidates, luck, i + 1);
          products := before;
          return SystemError;
        }
        if code.value in products {
          duplicates := duplicates + 1;
        } else {
          if luck[i].TokensExhausted? {
            InsertionFails(old(products), candidates, luck, i + 1);
            products := before;
            return SystemError;
          }
          products := products[code.value := name.value];
          success := success + 1;
        }
      }
      assert candidates[..|candidates|] == candidates && luck[..|luck|] == luck;
      return Imported(success, duplicates);
    }
  }

  lemma {:induction false} InsertionFails(products: Products, candidates: seq<Candidate>, luck: seq<Luck>, i: nat)
    requires |luck| == |candidates| && i <= |candidates| && InsertAll(products, candidates[..i], luck[..i]).None?
    ensures InsertAll(products, candidates, luck).None?
    decreases |candidates| - i
  {
    if i < |candidates| {
      assert candidates[..i + 1][..i] == candidates[..i] && luck[..i + 1][..i] == luck[..i];
      InsertionFails(products, candidates, luck, i + 1);
    } else {
      assert candidates[..i] == candidates && luck[..i] == luck;
    }
  }

  function Codes(candidates: seq<Candidate>): set<string> {
    set c | c in candidates :: c.code
  }

  /** The table has grown by exactly these codes, one success for each it did not have. */
  predicate GrownBy(before: Products, after: Products, codes: set<string>, success: nat) {
    && after.Keys == before.Keys + codes
    && |after| == |before| + success
    && forall code | code in before :: after[code] == before[code]
  }

  lemma GrownTwice(a: Products, b: Products, c: Products, codes: set<string>, code: string, m: nat, n: nat)
    requires GrownBy(a, b, codes, m) && GrownBy(b, c, {code}, n)
    ensures GrownBy(a, c, codes + {code}, m + n)
  {
  }

  /** Every candidate is a success or a duplicate, and the table grows by exactly the new codes. */
  lemma {:induction false} ImportConserves(products: Products, candidates: seq<Candidate>, luck: seq<Luck>)
    requires |luck| == |candidates| && forall c | c in candidates :: IsCanonicalCode(c.code)
    requires InsertAll(products, candidates, luck).Some?
    ensures var (p, success, duplicates) := InsertAll(products, candidates, luck).value;
            success + duplicates == |candidates| && GrownBy(products, p, Codes(candidates), success)
  {
    if candidates != [] {
      hide InsertAll, NormalizeCode, NormalizeName, IsCanonicalCode, Codes, GrownBy;
      var n := |candidates| - 1;
      assert candidates[n] in candidates && forall c | c in candidates[..n] :: c in candidates;
      NormalizeCodeIsProjection(candidates[n].code);
      InsertOne(products, candidates, luck);
      ImportConserves(products, candidates[..n], luck[..n]);
      CodesOfOneMore(candidates);
      var (p, success, _) := InsertAll(products, candidates[..n], luck[..n]).value;
      var (p', success', _) := InsertAll(products, candidates, luck).value;
      GrownTwice(products, p, p', Codes(candidates[..n]), candidates[n].code, success, success' - success);
    }
  }

  lemma CodesOfOneMore(candidates: seq<Candidate>)
    requires candidates != []
    ensures var n := |candidates| - 1; Codes(candidates) == Codes(candidates[..n]) + {candidates[n].code}
  {
    var n := |candidates| - 1;
    assert candidates == candidates[..n] + [candidates[n]];
  }

  /** What the last candidate adds. */
  lemma InsertOne(products: Products, candidates: seq<Candidate>, luck: seq<Luck>)
    requires |luck| == |candidates| && candidates != []
    requires NormalizeCode(candidates[|candidates| - 1].code) == Some(candidates[|candidates| - 1].code)
    requires InsertAll(products, candidates, luck).Some?
    ensures var n := |candidates| - 1;
            && InsertAll(products, candidates[..n], luck[..n]).Some?
            && var (p, success, duplicates) := InsertAll(products, candidates[..n], luck[..n]).value;
               var (p', success', duplicates') := InsertAll(products, candidates, luck).value;
               && success' + duplicates' == success + duplicates + 1 && success' >= success
               && GrownBy(p, p', {candidates[n].code}, success' - success)
  {
    var n := |candidates| - 1;
    var (p, _, _) := InsertAll(products, candidates[..n], luck[..n]).value;
    var (p', _, _) := InsertAll(products, candidates, luck).value;
    hide NormalizeCode, NormalizeName;
    var code := candidates[n].code;
    if code in p {
      assert p.Keys + {code} == p.Keys;
    } else {
      assert p'.Keys == p.Keys + {code};
      assert |p'.Keys| == |p.Keys| + 1;
    }
  }

  /** Importing the same candidates again adds nothing, whatever happens with tokens. */
  lemma {:induction false} ReimportAddsNothing(products: Products, candidates: seq<Candidate>, luck: seq<Luck>)
    requires |luck| == |candidates|
    requires forall c | c in candidates :: IsCanonicalCode(c.code) && NormalizeName(c.name).Some?
    requires Codes(candidates) <= products.Keys
    ensures InsertAll(products, candidates, luck) == Some((products, 0, |candidates|))
  {
    if candidates != [] {
      var n := |candidates| - 1;
      assert forall c | c in candidates[..n] :: c in candidates;
      assert candidates[n] in candidates;
      assert candidates[n].code in Codes(candidates);
      assert forall code | code in Codes(candidates[..n]) :: code in Codes(candidates);
      ReimportAddsNothing(products, candidates[..n], luck[..n]);
      NormalizeCodeIsProjection(candidates[n].code);
      hide NormalizeCode, NormalizeName, IsCanonicalCode;
    }
  }

  lemma {:induction false} InsertedNamesAreValid(products: Products, candidates: seq<Candidate>, luck: seq<Luck>)
    requires |luck| == |candidates| && InsertAll(products, candidates, luck).Some?
    ensures forall c | c in candidates :: NormalizeName(c.name).Some?
  {
    if candidates != [] {
      var n := |candidates| - 1;
      InsertedNamesAreValid(products, candidates[..n], luck[..n]);
      assert forall c | c in candidates :: c in candidates[..n] || c == candidates[n];
      hide NormalizeName, NormalizeCode;
    }
  }

  /** The name that is stored under a code: the one it had, or else that of the first candidate with the code. */
  ghost predicate NameStored(before: Products, after: Products, candidates: seq<Candidate>, code: string)
    requires code in after
  {
    if code in before then after[code] == before[code]
    else exists i | 0 <= i < |candidates| ::
           && candidates[i].code == code && after[code] == Strip(candidates[i].name)
           && forall j | 0 <= j < i :: candidates[j].code != code
  }

  /** The last candidate is a duplicate, or brings its code and its trimmed name. */
  lemma LastIsStored(products: Products, candidates: seq<Candidate>, luck: seq<Luck>)
    requires |luck| == |candidates| && candidates != [] && IsCanonicalCode(candidates[|candidates| - 1].code)
    requires InsertAll(products, candidates, luck).Some?
    ensures var n := |candidates| - 1;
            && InsertAll(products, candidates[..n], luck[..n]).Some?
            && var p := InsertAll(products, candidates[..n], luck[..n]).value.0;
               var p' := InsertAll(products, candidates, luck).value.0;
               var code := candidates[n].code;
               if code in p then p' == p else p' == p[code := Strip(candidates[n].name)]
  {
    NormalizeCodeIsProjection(candidates[|candidates| - 1].code);
    NameIsTrimmed(candidates[|candidates| - 1].name);
    hide NormalizeCode, NormalizeName, IsCanonicalCode, Strip;
  }

  lemma NameStays(before: Products, p: Products, p': Products, candidates: seq<Candidate>, code: string)
    requires candidates != [] && code in p && NameStored(before, p, candidates[..|candidates| - 1], code)
    requires code in p' && p'[code] == p[code]
    ensures NameStored(before, p', candidates, code)
  {
    hide Strip;
    if code !in before {
      var n := |candidates| - 1;
      var i :| 0 <= i < n && candidates[..n][i].code == code && p[code] == Strip(candidates[..n][i].name)
        && forall j | 0 <= j < i :: candidates[..n][j].code != code;
      assert candidates[i] == candidates[..n][i];
      forall j | 0 <= j < i ensures candidates[j].code != code {
        assert candidates[j] == candidates[..n][j];
      }
    }
  }

  lemma NewNameIsStored(before: Products, p': Products, candidates: seq<Candidate>, code: string)
    requires candidates != [] && candidates[|candidates| - 1].code == code && code !in before
    requires code !in Codes(candidates[..|candidates| - 1])
    requires code in p' && p'[code] == Strip(candidates[|candidates| - 1].name)
    ensures NameStored(before, p', candidates, code)
  {
    hide Strip;
    var n := |candidates| - 1;
    forall j | 0 <= j < n ensures candidates[j].code != code {
      assert candidates[..n][j] in candidates[..n];
    }
  }

  lemma {:induction false} ImportKeepsNames(products: Products, candidates: seq<Candidate>, luck: seq<Luck>)
    requires |luck| == |candidates| && forall c | c in candidates :: IsCanonicalCode(c.code)
    requires InsertAll(products, candidates, luck).Some?
    ensures var p := InsertAll(products, candidates, luck).value.0;
            && p.Keys == products.Keys + Codes(candidates)
            && forall code | code in p :: NameStored(products, p, candidates, code)
  {
    if candidates != [] {
      var n := |candidates| - 1;
      assert candidates[n] in candidates && forall x | x in candidates[..n] :: x in candidates;
      hide InsertAll, IsCanonicalCode, Strip, NameStored, Codes;
      LastIsStored(products, candidates, luck);
      ImportKeepsNames(products, candidates[..n], luck[..n]);
      CodesOfOneMore(candidates);
      var p, p' := InsertAll(products, candidates[..n], luck[..n]).value.0, InsertAll(products, candidates, luck).value.0;
      forall code | code in p' ensures NameStored(products, p', candidates, code) {
        if code in p {
          NameStays(products, p, p', candidates, code);
        } else {
          NewNameIsStored(products, p', candidates, code);
        }
      }
    }
  }

  /** Whole file: a new product has the name of the first row with its code, or the code itself where that is blank. */
  lemma ImportedNameIsOfTheFirstRow(
    v: Vocabulary, sheet: Sheet, maxRows: nat, products: Products, luck: seq<Luck>, code: string)
    requires Validate(v, sheet, maxRows).Valid? && |luck| == |Validate(v, sheet, maxRows).candidates|
    requires InsertAll(products, Validate(v, sheet, maxRows).candidates, luck).Some?
    requires code in InsertAll(products, Validate(v, sheet, maxRows).candidates, luck).value.0
    ensures var name := InsertAll(products, Validate(v, sheet, maxRows).candidates, luck).value.0[code];
            var column := Columns(v, HeaderOf(sheet), v.codes)[0];
            if code in products then name == products[code]
            else exists i | 0 <= i < |sheet.data| ::
                   && CodeOf(sheet.data[i], column) == Some(code)
                   && name == NameOf(sheet.data[i], NameColumnOf(v, sheet), code)
                   && forall j | 0 <= j < i :: CodeOf(sheet.data[j], column) != Some(code)
  {
    var candidates := Validate(v, sheet, maxRows).candidates;
    ValidationConserves(v, sheet, maxRows);
    hide Validate, InsertAll, IsCanonicalCode, Strip, NameOf, CodeOf, Columns, NameColumnOf, IsFirst;
    ImportKeepsNames(products, candidates, luck);
    var p := InsertAll(products, candidates, luck).value.0;
    assert NameStored(products, p, candidates, code);
    if code !in products {
      var k :| 0 <= k < |candidates| && candidates[k].code == code && p[code] == Strip(candidates[k].name);
      assert candidates[k] in candidates;
      TrimmedNameOfFirst(sheet.data, Columns(v, HeaderOf(sheet), v.codes)[0], NameColumnOf(v, sheet), candidates[k]);
    }
  }

  lemma TrimmedNameOfFirst(rows: seq<Row>, codeColumn: int, nameColumn: Option<int>, c: Candidate)
    requires IsFirst(rows, codeColumn, nameColumn, c) && IsCanonicalCode(c.code)
    ensures exists i | 0 <= i < |rows| ::
              && CodeOf(rows[i], codeColumn) == Some(c.code) && Strip(c.name) == NameOf(rows[i], nameColumn, c.code)
              && forall j | 0 <= j < i :: CodeOf(rows[j], codeColumn) != Some(c.code)
  {
    hide NameOf, CodeOf, Strip, IsCanonicalCode;
    var i :| 0 <= i < |rows| && CodeOf(rows[i], codeColumn) == Some(c.code)
      && c.name == NameOf(rows[i], nameColumn, c.code)
      && forall j | 0 <= j < i :: CodeOf(rows[j], codeColumn) != Some(c.code);
    NamesAreTrimmed(rows[i], nameColumn, c.code);
  }

  lemma NamesAreTrimmed(row: Row, nameColumn: Option<int>, code: string)
    requires IsCanonicalCode(code)
    ensures Strip(NameOf(row, nameColumn, code)) == NameOf(row, nameColumn, code)
  {
    StripIsIdempotent(if nameColumn.Some? then Get(row.values, nameColumn.value) else "");
    StripNoSpace(code);
  }

  /**
   A whole successful import: successes and duplicates add up to the nonblank data rows, and
   importing the same file again adds nothing and reports every row as a duplicate.
   */
  lemma ImportThenReimport(v: Vocabulary, sheet: Sheet, maxRows: nat, products: Products,
                           luck: seq<Luck>, luckAgain: seq<Luck>)
    requires Validate(v, sheet, maxRows).Valid?
    requires |luck| == |luckAgain| == |Validate(v, sheet, maxRows).candidates|
    requires InsertAll(products, Validate(v, sheet, maxRows).candidates, luck).Some?
    ensures var verdict := Validate(v, sheet, maxRows);
            var (p, success, duplicates) := InsertAll(products, verdict.candidates, luck).value;
            && success + (verdict.duplicates + duplicates) == |sheet.data|
            && InsertAll(p, verdict.candidates, luckAgain) == Some((p, 0, |verdict.candidates|))
            && 0 + (verdict.duplicates + |verdict.candidates|) == |sheet.data|
  {
    var verdict := Validate(v, sheet, maxRows);
    ValidationConserves(v, sheet, maxRows);
    hide Validate, InsertAll, IsCanonicalCode, NormalizeName;
    ImportConserves(products, verdict.candidates, luck);
    InsertedNamesAreValid(products, verdict.candidates, luck);
    var (p, _, _) := InsertAll(products, verdict.candidates, luck).value;
    ReimportAddsNothing(p, verdict.candidates, luckAgain);
  }
}
