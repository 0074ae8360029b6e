/** components/StudentSelector.tsx: which students are chosen for ID cards,
    which are ticked on the right-hand list, the per-student expiration
    overrides, the CSV allow-list, and the filter chain that decides which
    students the right-hand list shows. */
module StudentSelector {
  import opened Wrappers
  import opened Text
  import opened Seqs
  import opened Types
  import opened UseStudents

  function NotSelected(selected: set<string>): Student -> bool {
    (s: Student) => s.id !in selected
  }

  function IsSelected(selected: set<string>): Student -> bool {
    (s: Student) => s.id in selected
  }

  function InCsv(csvIds: set<string>): Student -> bool {
    (s: Student) => s.idNumber in csvIds
  }

  /** The month filter: students without an arrival date always pass; an
      arrival date that does not parse never does (its year and month are
      `NaN`); otherwise (year, month) must not come before the threshold. */
  predicate ArrivedFrom(s: Student, threshold: YearMonth, parseDate: DateParser) {
    !Truthy(s.arrivalDate)
    || match parseDate(s.arrivalDate.value)
       case None => false
       case Some(d) => d.year > threshold.year || (d.year == threshold.year && d.month >= threshold.month)
  }

  function ArrivalFilter(threshold: YearMonth, parseDate: DateParser): Student -> bool {
    (s: Student) => ArrivedFrom(s, threshold, parseDate)
  }

  /** Step 1: drop the students already chosen. */
  function Available(all: seq<Student>, selected: set<string>): (r: seq<Student>)
    ensures IsSubsequence(r, all)
    ensures forall s :: s in r <==> s in all && s.id !in selected
  {
    FilterIsSubsequence(NotSelected(selected), all);
    Filter(NotSelected(selected), all)
  }

  /** Step 2: the CSV allow-list, only while it is active and not empty. */
  function CsvStage(list: seq<Student>, csvIds: set<string>, csvActive: bool): (r: seq<Student>)
    ensures IsSubsequence(r, list)
  {
    if csvActive && |csvIds| > 0 then
      FilterIsSubsequence(InCsv(csvIds), list);
      Filter(InCsv(csvIds), list)
    else
      SubsequenceReflexive(list);
      list
  }

  /** Step 3: the month filter, when one is set. */
  function MonthStage(list: seq<Student>, startDateFilter: Option<YearMonth>, parseDate: DateParser): (r: seq<Student>)
    ensures IsSubsequence(r, list)
  {
    match startDateFilter
    case None =>
      SubsequenceReflexive(list);
      list
    case Some(threshold) =>
      FilterIsSubsequence(ArrivalFilter(threshold, parseDate), list);
      Filter(ArrivalFilter(threshold, parseDate), list)
  }

  /** `filteredStudents`: steps 1 to 3, then the search of `useStudentSearch`. */
  function FilteredStudents(all: seq<Student>, selected: set<string>, csvIds: set<string>, csvActive: bool,
                            startDateFilter: Option<YearMonth>, searchTerm: string, parseDate: DateParser): (r: seq<Student>)
    ensures IsSubsequence(r, all)
  {
    var available := Available(all, selected);
    var csv := CsvStage(available, csvIds, csvActive);
    var month := MonthStage(csv, startDateFilter, parseDate);
    var searched := UseStudentSearch(month, searchTerm);
    SubsequenceTransitive(csv, available, all);
    SubsequenceTransitive(month, csv, all);
    SubsequenceTransitive(searched, month, all);
    searched
  }

  /** Exactly the students that pass every stage are shown: never a chosen
      one; with an active, non-empty CSV list only those whose ID number is on
      it (and the list has no effect otherwise); with a month set only those
      arriving in or after it; with a search term only the matching ones. */
  lemma FilteredStudentsExactly(all: seq<Student>, selected: set<string>, csvIds: set<string>, csvActive: bool,
                                startDateFilter: Option<YearMonth>, searchTerm: string, parseDate: DateParser, s: Student)
    ensures s in FilteredStudents(all, selected, csvIds, csvActive, startDateFilter, searchTerm, parseDate) <==>
              && s in all
              && s.id !in selected
              && (csvActive && |csvIds| > 0 ==> s.idNumber in csvIds)
              && (startDateFilter.Some? ==> ArrivedFrom(s, startDateFilter.value, parseDate))
              && (searchTerm != "" ==> MatchesSearch(s, ToLower(searchTerm)))
  {
    var available := Available(all, selected);
    var csv := CsvStage(available, csvIds, csvActive);
    var month := MonthStage(csv, startDateFilter, parseDate);
    assert s in available <==> s in all && s.id !in selected;
    assert s in csv <==> s in available && (csvActive && |csvIds| > 0 ==> s.idNumber in csvIds);
    assert s in month <==> s in csv && (startDateFilter.Some? ==> ArrivedFrom(s, startDateFilter.value, parseDate));
  }

  /** `selectedStudents`: the chosen students, in roster order. */
  function SelectedStudents(all: seq<Student>, selected: set<string>): (r: seq<Student>)
    ensures IsSubsequence(r, all)
    ensures forall s :: s in r <==> s in all && s.id in selected
  {
    FilterIsSubsequence(IsSelected(selected), all);
    Filter(IsSelected(selected), all)
  }

  /** A student is either shown on the right or listed as chosen, never both. */
  lemma ShownOrChosen(all: seq<Student>, selected: set<string>, csvIds: set<string>, csvActive: bool,
                      startDateFilter: Option<YearMonth>, searchTerm: string, parseDate: DateParser, s: Student)
    requires s in all
    ensures !(s in FilteredStudents(all, selected, csvIds, csvActive, startDateFilter, searchTerm, parseDate)
              && s in SelectedStudents(all, selected))
    ensures csvActive == false && startDateFilter == None && searchTerm == "" ==>
              (s in FilteredStudents(all, selected, csvIds, csvActive, startDateFilter, searchTerm, parseDate)
               || s in SelectedStudents(all, selected))
  {
    FilteredStudentsExactly(all, selected, csvIds, csvActive, startDateFilter, searchTerm, parseDate, s);
  }

  /** The ids of a list of students. */
  function IdsOf(list: seq<Student>): (r: set<string>)
    ensures forall id :: id in r <==> exists s :: s in list && s.id == id
  {
    set s | s in list :: s.id
  }

  /** `handleTempToggleSelection` on a set: flip the membership of one id. */
  function Toggle(ids: set<string>, id: string): (r: set<string>)
    ensures id in r <==> id !in ids
    ensures forall other :: other != id ==> (other in r <==> other in ids)
  {
    if id in ids then ids - {id} else ids + {id}
  }

  /** Toggling twice restores the set. */
  lemma ToggleTwice(ids: set<string>, id: string)
    ensures Toggle(Toggle(ids, id), id) == ids
  {
  }

  /** The expiration date printed on a card: a non-empty override, else the
      roster's own date. */
  function CardExpiration(customExpirationDates: map<string, string>, s: Student): (date: string)
    ensures date == s.expirationDate || (s.id in customExpirationDates && date == customExpirationDates[s.id] && date != "")
  {
    if s.id in customExpirationDates && customExpirationDates[s.id] != "" then customExpirationDates[s.id] else s.expirationDate
  }

  /** `studentsWithCustomDates`: the chosen students with their card dates. */
  function CardStudents(all: seq<Student>, selected: set<string>, customExpirationDates: map<string, string>): (r: seq<Student>)
    ensures |r| == |SelectedStudents(all, selected)|
    ensures forall i :: 0 <= i < |r| ==>
              r[i] == SelectedStudents(all, selected)[i].(expirationDate := CardExpiration(customExpirationDates, SelectedStudents(all, selected)[i]))
  {
    var chosen := SelectedStudents(all, selected);
    seq(|chosen|, i requires 0 <= i < |chosen| => chosen[i].(expirationDate := CardExpiration(customExpirationDates, chosen[i])))
  }

  /** An override takes effect iff it is non-empty; setting one for a student
      changes no other student's card date. */
  lemma OverrideTakesEffect(customExpirationDates: map<string, string>, s: Student, t: Student, date: string)
    requires t.id != s.id
    ensures CardExpiration(customExpirationDates[s.id := date], s) == if date != "" then date else s.expirationDate
    ensures CardExpiration(customExpirationDates[s.id := date], t) == CardExpiration(customExpirationDates, t)
  {
  }

  /** The component's state. The roster and the date parser are fixed for the
      lifetime of the component. The ticked ids are always roster ids that
      are not chosen: the list only offers ticks for the students it shows,
      and it never shows a chosen one. */
  class StudentSelector {
    const allStudents: seq<Student>
    const parseDate: DateParser
    var selectedStudentIds: set<string>
    var tempSelectedIds: set<string>
    var customExpirationDates: map<string, string>
    var searchTerm: string
    var startDateFilter: Option<YearMonth>
    var csvStudentIds: set<string>
    var csvFilterActive: bool

    constructor (allStudents: seq<Student>, parseDate: DateParser)
      ensures this.allStudents == allStudents && this.parseDate == parseDate
      ensures selectedStudentIds == {} && tempSelectedIds == {} && customExpirationDates == map[]
      ensures searchTerm == "" && startDateFilter == None && csvStudentIds == {} && !csvFilterActive
      ensures Valid()
    {
      this.allStudents := allStudents;
      this.parseDate := parseDate;
      selectedStudentIds := {};
      tempSelectedIds := {};
      customExpirationDates := map[];
      searchTerm := "";
      startDateFilter := None;
      csvStudentIds := {};
      csvFilterActive := false;
    }

    /** Ticked students are on the roster and not chosen. */
    ghost predicate Valid()
      reads this
    {
      tempSelectedIds !! selectedStudentIds && tempSelectedIds <= IdsOf(allStudents)
    }

    /** The students the right-hand list shows. */
    function Filtered(): seq<Student>
      reads this
    {
      FilteredStudents(allStudents, selectedStudentIds, csvStudentIds, csvFilterActive, startDateFilter, searchTerm, parseDate)
    }

    /** The shown students are roster students that are not chosen. */
    lemma FilteredIdsAvailable()
      ensures IdsOf(Filtered()) !! selectedStudentIds
      ensures IdsOf(Filtered()) <= IdsOf(allStudents)
    {
      forall id | id in IdsOf(Filtered()) ensures id !in selectedStudentIds && id in IdsOf(allStudents) {
        var s :| s in Filtered() && s.id == id;
        FilteredStudentsExactly(allStudents, selectedStudentIds, csvStudentIds, csvFilterActive, startDateFilter, searchTerm, parseDate, s);
      }
    }

    /** `handleTempToggleSelection`, offered only on a shown student's tick
        box, so for an id that is ticked or shown. */
    method TempToggleSelection(studentId: string)
      requires Valid()
      requires studentId in tempSelectedIds || studentId in IdsOf(Filtered())
      modifies this`tempSelectedIds
      ensures tempSelectedIds == Toggle(old(tempSelectedIds), studentId)
      ensures Valid()
    {
      FilteredIdsAvailable();
      var newTempSelected := tempSelectedIds;
      if studentId in newTempSelected {
        newTempSelected := newTempSelected - {studentId};
      } else {
        newTempSelected := newTempSelected + {studentId};
      }
      tempSelectedIds := newTempSelected;
    }

    /** `handleAddStudent`: the id becomes chosen and is unticked. */
    method AddStudent(studentId: string)
      requires Valid()
      modifies this`selectedStudentIds, this`tempSelectedIds
      ensures selectedStudentIds == old(selectedStudentIds) + {studentId}
      ensures tempSelectedIds == old(tempSelectedIds) - {studentId}
      ensures Valid()
    {
      selectedStudentIds := selectedStudentIds + {studentId};
      tempSelectedIds := tempSelectedIds - {studentId};
    }

    /** `handleAddSelectedStudents`: every ticked id becomes chosen. */
    method AddSelectedStudents()
      requires Valid()
      modifies this`selectedStudentIds, this`tempSelectedIds
      ensures selectedStudentIds == old(selectedStudentIds) + old(tempSelectedIds)
      ensures tempSelectedIds == {}
      ensures Valid()
    {
      selectedStudentIds := selectedStudentIds + tempSelectedIds;
      tempSelectedIds := {};
    }

    /** `handleDeselectAll`: ticks are kept. */
    method DeselectAll()
      requires Valid()
      modifies this`selectedStudentIds, this`customExpirationDates
      ensures selectedStudentIds == {} && customExpirationDates == map[]
      ensures Valid()
    {
      selectedStudentIds := {};
      customExpirationDates := map[];
    }

    /** `handleRemoveStudent`: the id and its override go; ticks are kept. */
    method RemoveStudent(studentId: string)
      requires Valid()
      modifies this`selectedStudentIds, this`customExpirationDates
      ensures selectedStudentIds == old(selectedStudentIds) - {studentId}
      ensures customExpirationDates == old(customExpirationDates) - {studentId}
      ensures Valid()
    {
      selectedStudentIds := selectedStudentIds - {studentId};
      customExpirationDates := customExpirationDates - {studentId};
    }

    method ExpirationDateChange(studentId: string, date: string)
      requires Valid()
      modifies this`customExpirationDates
      ensures customExpirationDates == old(customExpirationDates)[studentId := date]
      ensures Valid()
    {
      customExpirationDates := customExpirationDates[studentId := date];
    }

    method CsvUpload(studentIds: set<string>)
      requires Valid()
      modifies this`csvStudentIds, this`csvFilterActive
      ensures csvStudentIds == studentIds && csvFilterActive
      ensures Valid()
    {
      csvStudentIds := studentIds;
      csvFilterActive := true;
    }

    method ClearCsv()
      requires Valid()
      modifies this`csvStudentIds, this`csvFilterActive
      ensures csvStudentIds == {} && !csvFilterActive
      ensures Valid()
    {
      csvStudentIds := {};
      csvFilterActive := false;
    }

    method SearchChange(term: string)
      requires Valid()
      modifies this`searchTerm
      ensures searchTerm == term
      ensures Valid()
    {
      searchTerm := term;
    }

    method StartDateFilterChange(month: Option<YearMonth>)
      requires Valid()
      modifies this`startDateFilter
      ensures startDateFilter == month
      ensures Valid()
    {
      startDateFilter := month;
    }

    /** `handleSelectAllVisible`: the ticks become exactly the shown students'
        ids, none of which is chosen. */
    method SelectAllVisible()
      requires Valid()
      modifies this`tempSelectedIds
      ensures tempSelectedIds == IdsOf(Filtered())
      ensures tempSelectedIds !! selectedStudentIds
      ensures Valid()
    {
      FilteredIdsAvailable();
      tempSelectedIds := IdsOf(Filtered());
    }

    /** The students the cards are generated for, with their card dates. */
    function StudentsForCards(): seq<Student>
      reads this
    {
      CardStudents(allStudents, selectedStudentIds, customExpirationDates)
    }
  }
}
