/** components/StaffManager.tsx: the staff roster read from a CSV file or added
    by hand, with photos attached per record, and the selection of the records
    that go into a bulk PDF. */
module StaffManager {
  import opened Wrappers
  import opened Text
  import opened Seqs
  import opened CsvText
  import opened Types

  /** A staff record (the fields StaffManager.tsx reads and writes). */
  datatype Staff = Staff(id: string, name: string, staffId: string, issueDate: string, photoDataUrl: Option<string>)

  datatype StaffCsvError = EmptyFile | MissingColumns | NoValidStaff {
    function Message(): string {
      match this
      case EmptyFile => "CSV file is empty"
      case MissingColumns => "CSV must contain 'name' and 'id' columns"
      case NoValidStaff => "No valid staff data found in CSV"
    }
  }

  predicate IsNameHeader(h: string) {
    Contains(h, "name")
  }

  predicate IsStaffIdHeader(h: string) {
    Contains(h, "id") || Contains(h, "staff")
  }

  /** The two columns a staff CSV needs. */
  datatype Columns = Columns(name: nat, staffId: nat)

  /** The first header naming a name and the first naming an ID; `None` when
      either is missing. */
  function FindColumns(headerLine: string): (r: Option<Columns>)
    ensures r.Some? ==> r.value.name < |Cells(headerLine)| && r.value.staffId < |Cells(headerLine)|
  {
    var headers := HeaderCells(headerLine);
    var nameIndex := FirstIndex(IsNameHeader, headers);
    var idIndex := FirstIndex(IsStaffIdHeader, headers);
    if nameIndex == |headers| || idIndex == |headers| then None else Some(Columns(nameIndex, idIndex))
  }

  /** `None` exactly when no header names a name or no header names an ID;
      otherwise each column is the first header that names it. */
  lemma FindColumnsIsFirstMatch(headerLine: string)
    ensures var headers, r := HeaderCells(headerLine), FindColumns(headerLine);
            && (r.None? <==> (forall i :: 0 <= i < |headers| ==> !IsNameHeader(headers[i]))
                             || (forall i :: 0 <= i < |headers| ==> !IsStaffIdHeader(headers[i])))
            && (r.Some? ==> && IsNameHeader(headers[r.value.name])
                            && (forall i :: 0 <= i < r.value.name ==> !IsNameHeader(headers[i]))
                            && IsStaffIdHeader(headers[r.value.staffId])
                            && (forall i :: 0 <= i < r.value.staffId ==> !IsStaffIdHeader(headers[i])))
  {
    var headers := HeaderCells(headerLine);
    var n := FirstIndex(IsNameHeader, headers);
    var d := FirstIndex(IsStaffIdHeader, headers);
    assert n < |headers| ==> IsNameHeader(headers[n]);
    assert d < |headers| ==> IsStaffIdHeader(headers[d]);
  }

  /** The record id given to the staff member read from line `row`. */
  function RecordId(row: nat): (r: string)
    ensures StartsWith(r, "staff-") && |r| > 6
  {
    "staff-" + NatToString(row)
  }

  /** Lines give different record ids. */
  lemma RecordIdInjective(a: nat, b: nat)
    requires RecordId(a) == RecordId(b)
    ensures a == b
  {
    var p: string := "staff-";
    assert NatToString(a) == RecordId(a)[|p|..];
    assert NatToString(b) == RecordId(b)[|p|..];
    NatToStringInjective(a, b);
  }

  /** The record line `row` contributes: its cleaned name and staff ID cells,
      when the line reaches both columns and neither cell is empty. */
  function RowStaff(line: string, row: nat, columns: Columns, issueDate: string): (r: Option<Staff>)
    ensures r.Some? ==> && r.value.id == RecordId(row) && r.value.name != [] && r.value.staffId != []
                        && IsTrimmed(r.value.name) && IsTrimmed(r.value.staffId)
                        && '\'' !in r.value.name && '"' !in r.value.name
                        && '\'' !in r.value.staffId && '"' !in r.value.staffId
                        && r.value.photoDataUrl == None
  {
    var cells := Cells(line);
    if |cells| > columns.name && |cells| > columns.staffId
       && CleanCell(cells[columns.name]) != [] && CleanCell(cells[columns.staffId]) != []
    then Some(Staff(RecordId(row), CleanCell(cells[columns.name]), CleanCell(cells[columns.staffId]), issueDate, None))
    else None
  }

  /** What each line contributes; line 0, the header, contributes nothing. */
  function RowRecords(lines: seq<string>, columns: Columns, issueDate: string): (r: seq<Option<Staff>>)
    ensures |r| == |lines|
    ensures forall i :: 0 <= i < |lines| ==> r[i] == if i == 0 then None else RowStaff(lines[i], i, columns, issueDate)
  {
    seq(|lines|, i requires 0 <= i < |lines| => if i == 0 then None else RowStaff(lines[i], i, columns, issueDate))
  }

  /** The whole parse of the non-blank, trimmed lines of a file. */
  function ParseStaffLines(lines: seq<string>, issueDate: string): (r: Result<seq<Staff>, StaffCsvError>)
  {
    if lines == [] then Failure(EmptyFile)
    else
      match FindColumns(lines[0])
      case None => Failure(MissingColumns)
      case Some(columns) =>
        var staff := Somes(RowRecords(lines, columns, issueDate));
        if staff == [] then Failure(NoValidStaff) else Success(staff)
  }

  /** `parseCSV` as a function of the text; `issueDate` is today's date as
      the browser formats it. */
  function ParseStaff(text: string, issueDate: string): (r: Result<seq<Staff>, StaffCsvError>)
  {
    ParseStaffLines(Lines(text), issueDate)
  }

  /** The loop of `parseCSV`: each line after the header that gives a record
      is pushed in turn. */
  method CollectStaff(lines: seq<string>, columns: Columns, issueDate: string) returns (staffData: seq<Staff>)
    ensures staffData == Somes(RowRecords(lines, columns, issueDate))
  {
    staffData := [];
    ghost var records := RowRecords(lines, columns, issueDate);
    if |lines| == 0 {
      return;
    }
    SomesStep(records, 0);
    assert records[..0] == [];
    for i := 1 to |lines|
      invariant staffData == Somes(records[..i])
    {
      SomesStep(records, i);
      var row := RowStaff(lines[i], i, columns, issueDate);
      if row.Some? {
        staffData := staffData + [row.value];
      }
    }
    assert records[..|lines|] == records;
  }

  /** `parseCSV`. */
  method ParseCsv(csvText: string, issueDate: string) returns (r: Result<seq<Staff>, StaffCsvError>)
    ensures r == ParseStaff(csvText, issueDate)
  {
    var lines := Lines(csvText);
    if |lines| == 0 {
      return Failure(EmptyFile);
    }
    var found := FindColumns(lines[0]);
    if found.None? {
      return Failure(MissingColumns);
    }
    var staffData := CollectStaff(lines, found.value, issueDate);
    if |staffData| == 0 {
      return Failure(NoValidStaff);
    }
    return Success(staffData);
  }

  /** An empty file, or a header without both columns, fails; otherwise the
      parse fails iff no line after the header gives a record. */
  lemma ParseStaffErrors(lines: seq<string>, issueDate: string)
    ensures lines == [] ==> ParseStaffLines(lines, issueDate) == Failure(EmptyFile)
    ensures lines != [] && FindColumns(lines[0]).None? ==> ParseStaffLines(lines, issueDate) == Failure(MissingColumns)
    ensures lines != [] && FindColumns(lines[0]).Some? ==>
              (ParseStaffLines(lines, issueDate) == Failure(NoValidStaff)
               <==> forall r :: 1 <= r < |lines| ==> RowStaff(lines[r], r, FindColumns(lines[0]).value, issueDate).None?)
  {
    if lines != [] && FindColumns(lines[0]).Some? {
      var columns := FindColumns(lines[0]).value;
      var records := RowRecords(lines, columns, issueDate);
      SomesEmpty(records);
      assert ParseStaffLines(lines, issueDate) == if Somes(records) == [] then Failure(NoValidStaff) else Success(Somes(records));
      assert (forall i :: 0 <= i < |records| ==> records[i].None?)
         <==> forall r :: 1 <= r < |lines| ==> RowStaff(lines[r], r, columns, issueDate).None?;
    }
  }

  /** The records of the surviving lines after the header, in line order. */
  lemma RecordsOfRows(lines: seq<string>, columns: Columns, issueDate: string)
    ensures var staff, rows := Somes(RowRecords(lines, columns, issueDate)), SomeIndices(RowRecords(lines, columns, issueDate));
            && |rows| == |staff| && StrictlyIncreasing(rows)
            && (forall j :: 0 <= j < |rows| ==> 1 <= rows[j] < |lines| && RowStaff(lines[rows[j]], rows[j], columns, issueDate) == Some(staff[j]))
            && (forall r :: 1 <= r < |lines| && RowStaff(lines[r], r, columns, issueDate).Some? ==> r in rows)
  {
    var records := RowRecords(lines, columns, issueDate);
    var staff := Somes(records);
    SomesIndexed(records);
    var rows := SomeIndices(records);
    forall j | 0 <= j < |rows| ensures 1 <= rows[j] < |lines| && RowStaff(lines[rows[j]], rows[j], columns, issueDate) == Some(staff[j]) {
      assert records[rows[j]] == Some(staff[j]);
    }
    forall r | 1 <= r < |lines| && RowStaff(lines[r], r, columns, issueDate).Some? ensures r in rows {
      assert records[r].Some?;
    }
  }

  /** Records named after strictly increasing line numbers have distinct ids. */
  lemma RecordIdsDistinct(staff: seq<Staff>, rows: seq<nat>)
    requires |rows| == |staff| && StrictlyIncreasing(rows)
    requires forall j :: 0 <= j < |rows| ==> staff[j].id == RecordId(rows[j])
    ensures forall i, j :: 0 <= i < j < |staff| ==> staff[i].id != staff[j].id
  {
    forall i, j | 0 <= i < j < |staff| ensures staff[i].id != staff[j].id {
      if staff[i].id == staff[j].id {
        RecordIdInjective(rows[i], rows[j]);
      }
    }
  }

  /** A successful parse is the records of the surviving lines after the
      header, in line order; the record of line `r` is named `staff-<r>`, so
      record ids are distinct. */
  lemma ParseStaffRecords(lines: seq<string>, issueDate: string)
    requires ParseStaffLines(lines, issueDate).Success?
    ensures var staff, columns := ParseStaffLines(lines, issueDate).value, FindColumns(lines[0]).value;
            && (forall i, j :: 0 <= i < j < |staff| ==> staff[i].id != staff[j].id)
            && exists rows: seq<nat> ::
                 && |rows| == |staff| && StrictlyIncreasing(rows)
                 && (forall j :: 0 <= j < |rows| ==> 1 <= rows[j] < |lines| && RowStaff(lines[rows[j]], rows[j], columns, issueDate) == Some(staff[j]))
                 && (forall r :: 1 <= r < |lines| && RowStaff(lines[r], r, columns, issueDate).Some? ==> r in rows)
  {
    var columns := FindColumns(lines[0]).value;
    var staff := Somes(RowRecords(lines, columns, issueDate));
    assert ParseStaffLines(lines, issueDate).value == staff;
    RecordsOfRows(lines, columns, issueDate);
    var rows := SomeIndices(RowRecords(lines, columns, issueDate));
    RecordIdsDistinct(staff, rows);
  }

  /** The staff IDs of a list, in order. */
  function StaffIds(list: seq<Staff>): (r: seq<string>)
    ensures |r| == |list|
    ensures forall i :: 0 <= i < |list| ==> r[i] == list[i].staffId
  {
    seq(|list|, i requires 0 <= i < |list| => list[i].staffId)
  }

  /** The record ids of a list, in order. */
  function RecordIds(list: seq<Staff>): (r: seq<string>)
    ensures |r| == |list|
    ensures forall i :: 0 <= i < |list| ==> r[i] == list[i].id
  {
    seq(|list|, i requires 0 <= i < |list| => list[i].id)
  }

  /** `prev.map(staff => staff.id === id ? { ...staff, photoDataUrl } : staff)`. */
  function SetPhoto(list: seq<Staff>, id: string, photo: Option<string>): (r: seq<Staff>)
    ensures |r| == |list|
    ensures forall i :: 0 <= i < |list| ==> r[i] == if list[i].id == id then list[i].(photoDataUrl := photo) else list[i]
  {
    seq(|list|, i requires 0 <= i < |list| => if list[i].id == id then list[i].(photoDataUrl := photo) else list[i])
  }

  /** Setting a photo changes nothing but that photo: order, record ids and
      every field of every record are kept, other records are untouched, and
      the matching records all end up with the new photo. */
  lemma SetPhotoOnlyTouchesPhoto(list: seq<Staff>, id: string, photo: Option<string>)
    ensures var r := SetPhoto(list, id, photo);
            && RecordIds(r) == RecordIds(list)
            && StaffIds(r) == StaffIds(list)
            && (forall i :: 0 <= i < |r| && r[i].id == id ==> r[i].photoDataUrl == photo)
            && (forall i :: 0 <= i < |r| ==> r[i].(photoDataUrl := list[i].photoDataUrl) == list[i])
  {
  }

  /** The later of two photo updates for a record wins. */
  lemma SetPhotoTwice(list: seq<Staff>, id: string, p: Option<string>, q: Option<string>)
    ensures SetPhoto(SetPhoto(list, id, p), id, q) == SetPhoto(list, id, q)
  {
    var a, b := SetPhoto(SetPhoto(list, id, p), id, q), SetPhoto(list, id, q);
    assert forall i :: 0 <= i < |a| ==> a[i] == b[i];
  }

  /** `staff => staff.id !== id`. */
  function OtherThan(id: string): Staff -> bool {
    (s: Staff) => s.id != id
  }

  /** `prev.filter(staff => staff.id !== id)`. */
  function RemoveById(list: seq<Staff>, id: string): (r: seq<Staff>)
    ensures IsSubsequence(r, list)
    ensures forall s :: s in r <==> s in list && s.id != id
  {
    FilterIsSubsequence(OtherThan(id), list);
    Filter(OtherThan(id), list)
  }

  /** A record with the given id is never in the list after removal, and a
      second removal changes nothing. */
  lemma RemoveByIdIdempotent(list: seq<Staff>, id: string)
    ensures RemoveById(RemoveById(list, id), id) == RemoveById(list, id)
  {
    FilterKeepsAll(OtherThan(id), RemoveById(list, id));
  }

  predicate HasPhoto(s: Staff) {
    Truthy(s.photoDataUrl)
  }

  /** `staffList.filter(s => s.photoDataUrl)`: the records with a non-empty photo. */
  function StaffWithPhotos(list: seq<Staff>): (r: seq<Staff>)
    ensures IsSubsequence(r, list)
    ensures forall s :: s in r <==> s in list && Truthy(s.photoDataUrl)
  {
    FilterIsSubsequence(HasPhoto, list);
    Filter(HasPhoto, list)
  }

  /** Removing a photo takes that record out of the bulk selection; giving it
      a non-empty photo puts it in. */
  lemma PhotoDecidesBulk(list: seq<Staff>, id: string, i: nat, dataUrl: string)
    requires i < |list| && list[i].id == id
    ensures SetPhoto(list, id, None)[i] !in StaffWithPhotos(SetPhoto(list, id, None))
    ensures dataUrl != "" ==> SetPhoto(list, id, Some(dataUrl))[i] in StaffWithPhotos(SetPhoto(list, id, Some(dataUrl)))
  {
  }

  /** The record a manual entry creates: trimmed fields, id from the clock,
      and no photo yet. */
  function ManualStaff(name: string, staffId: string, nowMs: nat, issueDate: string): (s: Staff)
    ensures IsTrimmed(s.name) && IsTrimmed(s.staffId) && StartsWith(s.id, "staff-")
    ensures s.photoDataUrl == None
  {
    Staff(RecordId(nowMs), Trim(name), Trim(staffId), issueDate, None)
  }

  /** A file picked in the manual form's photo input. */
  datatype PhotoFile = PhotoFile(name: string, fileType: string)

  /** The component's roster state. The manual form holds the picked photo
      file; `pendingReads` are the manual records whose photo is still being
      read, each waiting for its reader's `onload` to append it. */
  class StaffManager {
    var staffList: seq<Staff>
    var error: string
    var manualName: string
    var manualStaffId: string
    var manualPhotoFile: Option<PhotoFile>
    var pendingReads: seq<Staff>

    constructor ()
      ensures staffList == [] && error == ""
      ensures manualName == "" && manualStaffId == "" && manualPhotoFile == None
      ensures pendingReads == []
    {
      staffList := [];
      error := "";
      manualName := "";
      manualStaffId := "";
      manualPhotoFile := None;
      pendingReads := [];
    }

    /** `handleFileSelect` with its reader callbacks: `contents` is the file's
        text, `None` a read error. A successful parse replaces the list. */
    method HandleFileSelect(fileName: string, contents: Option<string>, issueDate: string)
      modifies this`staffList, this`error
      ensures !EndsWith(ToLower(fileName), ".csv") ==> staffList == old(staffList) && error == "Please select a CSV file"
      ensures EndsWith(ToLower(fileName), ".csv") && contents == None ==> staffList == old(staffList) && error == "Error reading file"
      ensures EndsWith(ToLower(fileName), ".csv") && contents.Some? ==>
        match ParseStaff(contents.value, issueDate)
        case Success(staff) => staffList == staff && error == ""
        case Failure(e) => staffList == old(staffList) && error == e.Message()
    {
      if !EndsWith(ToLower(fileName), ".csv") {
        error := "Please select a CSV file";
        return;
      }
      error := "";
      if contents == None {
        error := "Error reading file";
        return;
      }
      var r := ParseCsv(contents.value, issueDate);
      match r
      case Success(staff) =>
        staffList := staff;
      case Failure(e) =>
        error := e.Message();
    }

    /** `handlePhotoUpload` once the reader has produced `dataUrl`. */
    method HandlePhotoUpload(id: string, dataUrl: string)
      modifies this`staffList
      ensures staffList == SetPhoto(old(staffList), id, Some(dataUrl))
    {
      staffList := SetPhoto(staffList, id, Some(dataUrl));
    }

    method RemovePhoto(id: string)
      modifies this`staffList
      ensures staffList == SetPhoto(old(staffList), id, None)
    {
      staffList := SetPhoto(staffList, id, None);
    }

    /** The form's text inputs. */
    method EditManualForm(name: string, staffId: string)
      modifies this`manualName, this`manualStaffId
      ensures manualName == name && manualStaffId == staffId
    {
      manualName := name;
      manualStaffId := staffId;
    }

    /** `handleManualPhotoSelect`: only a picked file of an `image/` type is
        taken; anything else leaves the form's photo as it was. */
    method HandleManualPhotoSelect(file: Option<PhotoFile>)
      modifies this`manualPhotoFile
      ensures file.Some? && StartsWith(file.value.fileType, "image/") ==> manualPhotoFile == file
      ensures !(file.Some? && StartsWith(file.value.fileType, "image/")) ==> manualPhotoFile == old(manualPhotoFile)
    {
      if file.Some? && StartsWith(file.value.fileType, "image/") {
        manualPhotoFile := file;
      }
    }

    /** `addManualStaff`: a blank name or staff ID, or a staff ID already in
        the list, is refused with a message and changes nothing else.
        Otherwise the form is reset and the error cleared, and the new record
        is appended at once when no photo was picked; with a photo it only
        starts waiting for the read, and the list is unchanged. */
    method AddManualStaff(nowMs: nat, issueDate: string)
      modifies this`staffList, this`error, this`manualName, this`manualStaffId, this`manualPhotoFile, this`pendingReads
      ensures Trim(old(manualName)) == [] || Trim(old(manualStaffId)) == [] ==>
                error == "Name and Staff ID are required"
                && staffList == old(staffList) && pendingReads == old(pendingReads)
                && manualName == old(manualName) && manualStaffId == old(manualStaffId)
                && manualPhotoFile == old(manualPhotoFile)
      ensures Trim(old(manualName)) != [] && Trim(old(manualStaffId)) != [] && Trim(old(manualStaffId)) in StaffIds(old(staffList)) ==>
                error == "Staff ID already exists"
                && staffList == old(staffList) && pendingReads == old(pendingReads)
                && manualName == old(manualName) && manualStaffId == old(manualStaffId)
                && manualPhotoFile == old(manualPhotoFile)
      ensures Trim(old(manualName)) != [] && Trim(old(manualStaffId)) != [] && Trim(old(manualStaffId)) !in StaffIds(old(staffList)) ==>
                && error == "" && manualName == "" && manualStaffId == "" && manualPhotoFile == None
                && var added := ManualStaff(old(manualName), old(manualStaffId), nowMs, issueDate);
                   if old(manualPhotoFile) == None then
                     staffList == old(staffList) + [added] && pendingReads == old(pendingReads)
                   else
                     staffList == old(staffList) && pendingReads == old(pendingReads) + [added]
      ensures NoDuplicates(StaffIds(old(staffList))) ==> NoDuplicates(StaffIds(staffList))
    {
      if Trim(manualName) == [] || Trim(manualStaffId) == [] {
        error := "Name and Staff ID are required";
        return;
      }
      if Trim(manualStaffId) in StaffIds(staffList) {
        error := "Staff ID already exists";
        return;
      }
      var newStaff := ManualStaff(manualName, manualStaffId, nowMs, issueDate);
      if manualPhotoFile.Some? {
        pendingReads := pendingReads + [newStaff];
      } else {
        ghost var before := staffList;
        staffList := staffList + [newStaff];
        assert StaffIds(staffList) == StaffIds(before) + [newStaff.staffId];
      }
      manualName := "";
      manualStaffId := "";
      manualPhotoFile := None;
      error := "";
    }

    /** The end of the photo read of pending record `k`: `Some(dataUrl)` is
        `onload`, which appends the record with that photo to the list as it
        is now, with no duplicate check; `None` is a failed read, which has no
        handler, so the record is dropped without a message. */
    method ManualPhotoRead(k: nat, outcome: Option<string>)
      requires k < |pendingReads|
      modifies this`staffList, this`pendingReads
      ensures pendingReads == old(pendingReads[..k] + pendingReads[k + 1..])
      ensures outcome.Some? ==> staffList == old(staffList) + [old(pendingReads[k]).(photoDataUrl := outcome)]
      ensures outcome.None? ==> staffList == old(staffList)
    {
      var record := pendingReads[k];
      pendingReads := pendingReads[..k] + pendingReads[k + 1..];
      if outcome.Some? {
        staffList := staffList + [record.(photoDataUrl := outcome)];
      }
    }

    method RemoveStaff(id: string)
      modifies this`staffList
      ensures staffList == RemoveById(old(staffList), id)
    {
      staffList := RemoveById(staffList, id);
    }

    /** The photo selection of `generateBulkPDF`: the records that go into
        the document, or an error when none has a photo. */
    method GenerateBulkPdf() returns (batch: Option<seq<Staff>>)
      modifies this`error
      ensures StaffWithPhotos(staffList) == [] ==> batch == None && error == "No staff members with photos to generate"
      ensures StaffWithPhotos(staffList) != [] ==> batch == Some(StaffWithPhotos(staffList)) && error == old(error)
    {
      var staffWithPhotos := StaffWithPhotos(staffList);
      if |staffWithPhotos| == 0 {
        error := "No staff members with photos to generate";
        return None;
      }
      return Some(staffWithPhotos);
    }

    method ClearData()
      modifies this`staffList, this`error
      ensures staffList == [] && error == ""
    {
      staffList := [];
      error := "";
    }
  }

  /** The duplicate check only sees the list, not the reads in flight: the
      same staff ID added twice, the first time with a photo, is accepted
      twice, and once the photo is read the list holds it twice. */
  method DuplicateWhilePhotoPending() returns (m: StaffManager)
    ensures fresh(m)
    ensures |m.staffList| == 2 && m.staffList[0].staffId == m.staffList[1].staffId
    ensures !NoDuplicates(StaffIds(m.staffList))
  {
    m := new StaffManager();
    m.EditManualForm("Ann", "S1");
    m.HandleManualPhotoSelect(Some(PhotoFile("ann.png", "image/png")));
    assert Trim("Ann") == "Ann" && Trim("S1") == "S1";
    m.AddManualStaff(1, "1/1/26");
    m.EditManualForm("Ann", "S1");
    m.AddManualStaff(2, "1/1/26");
    m.ManualPhotoRead(0, Some("data:image/png;base64,"));
    assert StaffIds(m.staffList)[0] == StaffIds(m.staffList)[1];
  }
}
