/** components/CSVUploadFilter.tsx: reading an uploaded CSV into the set of
    student ID numbers that restricts the visible roster. */
module CsvUploadFilter {
  import opened Wrappers
  import opened Text
  import opened Seqs
  import opened CsvText
  import JsNumber

  datatype CsvError = EmptyFile | NoValidIds {
    function Message(): string {
      match this
      case EmptyFile => "CSV file is empty"
      case NoValidIds => "No valid Student IDs found in CSV"
    }
  }

  /** A header cell that names the ID column. */
  predicate IsIdHeader(h: string) {
    Contains(h, "id") || Contains(h, "student") || Contains(h, "number")
  }

  /** The ID column: the first header (quotes stripped, trimmed, lower-cased)
      that mentions `id`, `student` or `number`, and column 0 when none does. */
  function IdColumn(headerLine: string): (k: nat)
    ensures k < |Cells(headerLine)|
  {
    var headers := HeaderCells(headerLine);
    var k := FirstIndex(IsIdHeader, headers);
    if k == |headers| then 0 else k
  }

  /** The chosen column is the first header naming an ID, or column 0 when no
      header does. */
  lemma IdColumnIsFirstMatch(headerLine: string)
    ensures var headers, k := HeaderCells(headerLine), IdColumn(headerLine);
            && (forall i :: 0 <= i < k ==> !IsIdHeader(headers[i]))
            && (IsIdHeader(headers[k]) || (k == 0 && forall i :: 0 <= i < |headers| ==> !IsIdHeader(headers[i])))
  {
    var headers := HeaderCells(headerLine);
    var j := FirstIndex(IsIdHeader, headers);
    assert j < |headers| ==> IsIdHeader(headers[j]);
  }

  /** Row 0 is a header, and data starts at row 1, exactly when its ID-column
      cell is not a number. */
  function DataStart(firstLine: string, idColumn: nat): (start: nat)
    requires idColumn < |Cells(firstLine)|
    ensures start <= 1
  {
    if JsNumber.IsNaN(CleanCell(Cells(firstLine)[idColumn])) then 1 else 0
  }

  /** What the parser may return as an ID: non-empty, free of quote characters,
      without white space at either end. */
  predicate WellFormedId(id: string) {
    id != [] && '\'' !in id && '"' !in id && IsTrimmed(id)
  }

  /** The ID a data row contributes: its cleaned ID-column cell, when the row
      has that column and the cell is not empty. */
  function RowId(line: string, idColumn: nat): (r: Option<string>)
    ensures r.Some? ==> WellFormedId(r.value)
  {
    var cells := Cells(line);
    if |cells| > idColumn && CleanCell(cells[idColumn]) != [] then Some(CleanCell(cells[idColumn])) else None
  }

  /** The ID each data row contributes, row by row. */
  function RowIds(rows: seq<string>, idColumn: nat): (r: seq<Option<string>>)
    ensures |r| == |rows|
    ensures forall i :: 0 <= i < |rows| ==> r[i] == RowId(rows[i], idColumn)
  {
    seq(|rows|, i requires 0 <= i < |rows| => RowId(rows[i], idColumn))
  }

  /** The IDs present in a run of optional IDs, duplicates collapsed. */
  function Collect(opts: seq<Option<string>>): (ids: set<string>)
    ensures |ids| <= |opts|
    ensures forall id :: id in ids ==> Some(id) in opts
  {
    if opts == [] then {}
    else
      var earlier := Collect(opts[..|opts| - 1]);
      assert forall id :: Some(id) in opts[..|opts| - 1] ==> Some(id) in opts;
      match opts[|opts| - 1]
      case Some(id) => earlier + {id}
      case None => earlier
  }

  /** Nothing is lost either: every present ID is collected. */
  lemma {:induction false} CollectMember(opts: seq<Option<string>>, id: string)
    ensures id in Collect(opts) <==> Some(id) in opts
  {
    if opts != [] {
      var front := opts[..|opts| - 1];
      CollectMember(front, id);
      assert opts == front + [opts[|opts| - 1]];
    }
  }

  /** The parse of the non-blank, trimmed lines of a file. */
  function ParseLines(lines: seq<string>): (r: Result<set<string>, CsvError>)
    ensures r.Success? ==> r.value != {} && forall id :: id in r.value ==> WellFormedId(id)
  {
    if lines == [] then Failure(EmptyFile)
    else
      var idColumn := IdColumn(lines[0]);
      var rowIds := RowIds(lines[DataStart(lines[0], idColumn)..], idColumn);
      var ids := Collect(rowIds);
      assert forall id :: id in ids ==> WellFormedId(id) by {
        forall id | id in ids ensures WellFormedId(id) {
          var i :| 0 <= i < |rowIds| && rowIds[i] == Some(id);
        }
      }
      if ids == {} then Failure(NoValidIds) else Success(ids)
  }

  /** The whole parse, as a function of the text. */
  function ParseIds(text: string): (r: Result<set<string>, CsvError>)
    ensures r.Success? ==> r.value != {} && forall id :: id in r.value ==> WellFormedId(id)
  {
    ParseLines(Lines(text))
  }

  /** Collecting one more optional ID adds it, if present. */
  lemma CollectStep(opts: seq<Option<string>>, k: nat)
    requires k < |opts|
    ensures Collect(opts[..k + 1]) == Collect(opts[..k]) + (if opts[k].Some? then {opts[k].value} else {})
  {
    assert opts[..k + 1][..k] == opts[..k];
  }

  /** The loop of `parseCSV`: the IDs of the data rows from `start` on,
      added one row at a time. */
  method CollectIds(lines: seq<string>, start: nat, idColumnIndex: nat) returns (studentIds: set<string>)
    requires start <= |lines|
    ensures studentIds == Collect(RowIds(lines[start..], idColumnIndex))
  {
    studentIds := {};
    ghost var rowIds := RowIds(lines[start..], idColumnIndex);
    for i := start to |lines|
      invariant studentIds == Collect(rowIds[..i - start])
    {
      var rowId := RowId(lines[i], idColumnIndex);
      assert lines[start..][i - start] == lines[i];
      assert rowIds[i - start] == rowId;
      CollectStep(rowIds, i - start);
      if rowId.Some? {
        studentIds := studentIds + {rowId.value};
      }
    }
    assert rowIds[..|lines| - start] == rowIds;
  }

  /** `parseCSV`. */
  method ParseCsv(csvText: string) returns (r: Result<set<string>, CsvError>)
    ensures r == ParseIds(csvText)
  {
    var lines := Lines(csvText);
    if |lines| == 0 {
      return Failure(EmptyFile);
    }
    var idColumnIndex := IdColumn(lines[0]);
    var dataStartIndex := DataStart(lines[0], idColumnIndex);
    var studentIds := CollectIds(lines, dataStartIndex, idColumnIndex);
    if |studentIds| == 0 {
      return Failure(NoValidIds);
    }
    return Success(studentIds);
  }

  /** The parse fails with "CSV file is empty" exactly when every line of the
      text is blank. */
  lemma EmptyIffBlank(text: string)
    ensures ParseIds(text) == Failure(EmptyFile) <==> forall piece :: piece in Split(text, '\n') ==> AllSpace(piece)
  {
    LinesEmpty(text);
  }

  /** Removing a blank or white-space-only line, in the middle, at the start
      or at the end, never changes the parse. */
  lemma BlankLinesIgnored(before: string, blank: string, after: string)
    requires AllSpace(blank) && '\n' !in blank
    ensures ParseIds(before + "\n" + blank + "\n" + after) == ParseIds(before + "\n" + after)
    ensures ParseIds(blank + "\n" + after) == ParseIds(after)
    ensures ParseIds(before + "\n" + blank) == ParseIds(before)
  {
    BlankLineIgnored(before, blank, after);
    BlankFirstLineIgnored(blank, after);
    BlankLastLineIgnored(before, blank);
  }

  /** The collected IDs of a run of rows are exactly the IDs its rows contribute. */
  lemma RowIdsMember(rows: seq<string>, idColumn: nat, id: string)
    ensures id in Collect(RowIds(rows, idColumn)) <==> exists i :: 0 <= i < |rows| && RowId(rows[i], idColumn) == Some(id)
  {
    var rowIds := RowIds(rows, idColumn);
    CollectMember(rowIds, id);
    if id in Collect(rowIds) {
      var j :| 0 <= j < |rowIds| && rowIds[j] == Some(id);
    }
  }

  lemma DataRowsMember(lines: seq<string>, start: nat, idColumn: nat, id: string)
    requires start <= |lines|
    ensures id in Collect(RowIds(lines[start..], idColumn)) <==> exists i :: start <= i < |lines| && RowId(lines[i], idColumn) == Some(id)
  {
    RowIdsMember(lines[start..], idColumn, id);
    if i :| 0 <= i < |lines[start..]| && RowId(lines[start..][i], idColumn) == Some(id) {
      assert lines[start..][i] == lines[start + i];
    }
    if i :| start <= i < |lines| && RowId(lines[i], idColumn) == Some(id) {
      assert lines[start..][i - start] == lines[i];
    }
  }

  /** A successful parse returns exactly the IDs of the data rows, which
      start after row 0 iff row 0 looks like a header. */
  lemma ParseLinesExactly(lines: seq<string>, id: string)
    requires ParseLines(lines).Success?
    ensures var idColumn := IdColumn(lines[0]);
            var start := DataStart(lines[0], idColumn);
            id in ParseLines(lines).value <==> exists i :: start <= i < |lines| && RowId(lines[i], idColumn) == Some(id)
  {
    var idColumn := IdColumn(lines[0]);
    var start := DataStart(lines[0], idColumn);
    assert ParseLines(lines).value == Collect(RowIds(lines[start..], idColumn));
    DataRowsMember(lines, start, idColumn, id);
  }

  /** Duplicates collapse: there are never more IDs than data rows. */
  lemma AtMostOneIdPerRow(lines: seq<string>)
    requires ParseLines(lines).Success?
    ensures |ParseLines(lines).value| <= |lines| - DataStart(lines[0], IdColumn(lines[0]))
  {
    var idColumn := IdColumn(lines[0]);
    var start := DataStart(lines[0], idColumn);
    assert ParseLines(lines).value == Collect(RowIds(lines[start..], idColumn));
  }

  /** The parse fails with "No valid Student IDs found in CSV" exactly when
      there are lines but no data row contributes an ID. */
  lemma NoIdsIffNoRowId(lines: seq<string>)
    requires lines != []
    ensures var idColumn := IdColumn(lines[0]);
            var start := DataStart(lines[0], idColumn);
            ParseLines(lines) == Failure(NoValidIds) <==> forall i :: start <= i < |lines| ==> RowId(lines[i], idColumn).None?
  {
    var idColumn := IdColumn(lines[0]);
    var start := DataStart(lines[0], idColumn);
    var ids := Collect(RowIds(lines[start..], idColumn));
    assert ParseLines(lines) == if ids == {} then Failure(NoValidIds) else Success(ids);
    if ids != {} {
      var id :| id in ids;
      DataRowsMember(lines, start, idColumn, id);
    } else {
      forall i | start <= i < |lines| ensures RowId(lines[i], idColumn).None? {
        if RowId(lines[i], idColumn).Some? {
          DataRowsMember(lines, start, idColumn, RowId(lines[i], idColumn).value);
        }
      }
    }
  }

  /** A first row whose ID-column cell is empty or all digits is data, not a
      header: its ID, when it has one, is returned. */
  lemma NumericFirstRowIsData(lines: seq<string>)
    requires lines != []
    requires var cell := CleanCell(Cells(lines[0])[IdColumn(lines[0])]);
             cell == [] || JsNumber.IsDecimalDigits(cell)
    ensures var idColumn := IdColumn(lines[0]);
            DataStart(lines[0], idColumn) == 0
            && (RowId(lines[0], idColumn).Some? ==> ParseLines(lines).Success? && RowId(lines[0], idColumn).value in ParseLines(lines).value)
  {
    var idColumn := IdColumn(lines[0]);
    var cell := CleanCell(Cells(lines[0])[idColumn]);
    JsNumber.DigitsAreNumbers(cell);
    assert DataStart(lines[0], idColumn) == 0;
    var ids := Collect(RowIds(lines[0..], idColumn));
    assert ParseLines(lines) == if ids == {} then Failure(NoValidIds) else Success(ids);
    if RowId(lines[0], idColumn).Some? {
      DataRowsMember(lines, 0, idColumn, RowId(lines[0], idColumn).value);
    }
  }

  /** A first row whose ID-column cell holds a word such as `id` or `Student`
      (a letter no number can hold, no white space, and not one of the
      spellings of `Infinity`) is a header and is skipped. */
  lemma WordFirstRowIsHeader(lines: seq<string>, j: nat)
    requires lines != []
    requires var cell := CleanCell(Cells(lines[0])[IdColumn(lines[0])]);
             && j < |cell| && JsNumber.IsForeignLetter(cell[j])
             && (forall k :: 0 <= k < |cell| ==> !IsSpace(cell[k]))
             && cell != "Infinity" && cell != "+Infinity" && cell != "-Infinity"
    ensures DataStart(lines[0], IdColumn(lines[0])) == 1
  {
    var cell := CleanCell(Cells(lines[0])[IdColumn(lines[0])]);
    JsNumber.LetterMakesNaN(cell, j);
  }

  /** The component's upload handler (`handleFileSelect` with its reader
      callbacks). The file's text is given; `None` stands for a read error. */
  class CsvUploadFilter {
    var error: string

    constructor ()
      ensures error == ""
    {
      error := "";
    }

    /** Returns the ID set handed to `onCsvUpload`, if any. */
    method HandleFileSelect(fileName: string, contents: Option<string>) returns (uploaded: Option<set<string>>)
      modifies this`error
      ensures !EndsWith(ToLower(fileName), ".csv") ==> uploaded == None && error == "Please select a CSV file"
      ensures EndsWith(ToLower(fileName), ".csv") && contents == None ==> uploaded == None && error == "Error reading file"
      ensures EndsWith(ToLower(fileName), ".csv") && contents.Some? ==>
        match ParseIds(contents.value)
        case Success(ids) => uploaded == Some(ids) && error == ""
        case Failure(e) => uploaded == None && error == e.Message()
    {
      if !EndsWith(ToLower(fileName), ".csv") {
        error := "Please select a CSV file";
        return None;
      }
      error := "";
      if contents == None {
        error := "Error reading file";
        return None;
      }
      var r := ParseCsv(contents.value);
      match r
      case Success(ids) =>
        uploaded := Some(ids);
      case Failure(e) =>
        error := e.Message();
        uploaded := None;
    }
  }
}
