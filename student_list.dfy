/** components/StudentList.tsx: the right-hand list's own facet filter
    (search, programme, campus) and the distinct options of its two
    drop-downs. */
module StudentList {
  import opened Wrappers
  import opened Text
  import opened Seqs
  import opened Types

  /** The list's search: name, programme, ID number and a non-empty email,
      lower-cased; unlike `useStudentSearch`, the degree is not searched. */
  predicate ListMatchesSearch(s: Student, searchTerm: string) {
    var search := ToLower(searchTerm);
    || searchTerm == ""
    || Contains(ToLower(s.name), search)
    || Contains(ToLower(s.programme), search)
    || Contains(ToLower(s.idNumber), search)
    || (Truthy(s.email) && Contains(ToLower(s.email.value), search))
  }

  /** A facet that is not chosen (empty) keeps everyone; a chosen one keeps
      exactly the students whose field equals it. */
  predicate MatchesFacets(s: Student, filterProgramme: string, filterCampus: string) {
    && (filterProgramme == "" || s.programme == filterProgramme)
    && (filterCampus == "" || s.campus == Some(filterCampus))
  }

  function FacetKeeps(searchTerm: string, filterProgramme: string, filterCampus: string): Student -> bool {
    (s: Student) => ListMatchesSearch(s, searchTerm) && MatchesFacets(s, filterProgramme, filterCampus)
  }

  /** `filteredStudents` of the list. */
  function ListFiltered(students: seq<Student>, searchTerm: string, filterProgramme: string, filterCampus: string): (r: seq<Student>)
    ensures IsSubsequence(r, students)
    ensures forall s :: s in r <==> s in students && ListMatchesSearch(s, searchTerm) && MatchesFacets(s, filterProgramme, filterCampus)
  {
    FilterIsSubsequence(FacetKeeps(searchTerm, filterProgramme, filterCampus), students);
    Filter(FacetKeeps(searchTerm, filterProgramme, filterCampus), students)
  }

  /** The filter is per student, so filtering its own output changes nothing. */
  lemma ListFilteredIdempotent(students: seq<Student>, searchTerm: string, filterProgramme: string, filterCampus: string)
    ensures var once := ListFiltered(students, searchTerm, filterProgramme, filterCampus);
            ListFiltered(once, searchTerm, filterProgramme, filterCampus) == once
  {
    FilterIdempotent(FacetKeeps(searchTerm, filterProgramme, filterCampus), students);
  }

  /** With no search and no facet, every student is listed. */
  lemma NoFilterKeepsAll(students: seq<Student>)
    ensures ListFiltered(students, "", "", "") == students
  {
    FilterKeepsAll(FacetKeeps("", "", ""), students);
  }

  /** The list's search never looks at the degree: changing a student's
      degree never changes whether the search keeps them. */
  lemma SearchIgnoresDegree(s: Student, searchTerm: string, degree: string)
    ensures ListMatchesSearch(s.(degree := degree), searchTerm) <==> ListMatchesSearch(s, searchTerm)
  {
  }

  /** A student whose only match is the degree is listed by `useStudentSearch`
      but not here: the two searches differ. */
  lemma DegreeNotSearched()
    ensures var s := Student("1", "Ann", "bachelor", "Design", "42", "", "", None, None, None, None);
            !ListMatchesSearch(s, "bachelor")
  {
    var s := Student("1", "Ann", "bachelor", "Design", "42", "", "", None, None, None, None);
    NoRoom(ToLower(s.name), "bachelor");
    NoRoom(ToLower(s.programme), "bachelor");
    NoRoom(ToLower(s.idNumber), "bachelor");
  }

  lemma NoRoom(s: string, sub: string)
    requires |s| < |sub|
    ensures !Contains(s, sub)
  {
    if Contains(s, sub) {
      ContainsNeedsRoom(s, sub);
    }
  }

  /** `students.map(s => s.programme).filter(Boolean)`. */
  function ProgrammeValues(students: seq<Student>): (r: seq<string>)
    ensures forall p :: p in r <==> p != "" && exists s :: s in students && s.programme == p
  {
    if students == [] then []
    else
      var rest := ProgrammeValues(students[1..]);
      assert forall s :: s in students <==> s == students[0] || s in students[1..];
      (if students[0].programme != "" then [students[0].programme] else []) + rest
  }

  /** `students.map(s => s.campus).filter(Boolean)`. */
  function CampusValues(students: seq<Student>): (r: seq<string>)
    ensures forall c :: c in r <==> c != "" && exists s :: s in students && s.campus == Some(c)
  {
    if students == [] then []
    else
      var rest := CampusValues(students[1..]);
      assert forall s :: s in students <==> s == students[0] || s in students[1..];
      (if Truthy(students[0].campus) then [students[0].campus.value] else []) + rest
  }

  /** `programmes`: each non-empty programme once, in the order of first
      appearance. */
  function Programmes(students: seq<Student>): (r: seq<string>)
    ensures NoDuplicates(r)
    ensures forall i, j :: 0 <= i < j < |r| ==>
              FirstOccurrence(ProgrammeValues(students), r[i]) < FirstOccurrence(ProgrammeValues(students), r[j])
    ensures forall p :: p in r <==> p != "" && exists s :: s in students && s.programme == p
  {
    Distinct(ProgrammeValues(students))
  }

  /** `campuses`: each non-empty campus once, in the order of first
      appearance. */
  function Campuses(students: seq<Student>): (r: seq<string>)
    ensures NoDuplicates(r)
    ensures forall i, j :: 0 <= i < j < |r| ==>
              FirstOccurrence(CampusValues(students), r[i]) < FirstOccurrence(CampusValues(students), r[j])
    ensures forall c :: c in r <==> c != "" && exists s :: s in students && s.campus == Some(c)
  {
    Distinct(CampusValues(students))
  }

  /** Choosing any offered programme leaves at least one student listed when
      there is no search and no campus. */
  lemma OfferedProgrammeNotEmpty(students: seq<Student>, p: string)
    requires p in Programmes(students)
    ensures ListFiltered(students, "", p, "") != []
  {
    var s :| s in students && s.programme == p;
    assert s in ListFiltered(students, "", p, "");
  }
}
