/** hooks/useStudents.ts: the roster query's timing constants, its capped
    exponential retry delay, and the free-text student search. */
module UseStudents {
  import opened Wrappers
  import opened Text
  import opened Seqs
  import opened Types

  /** Ten minutes, in milliseconds: data younger than this is not refetched. */
  const StaleTimeMs: nat := 1000 * 60 * 10
  /** One hour, in milliseconds: how long unused data stays cached. */
  const GcTimeMs: nat := 1000 * 60 * 60
  /** Failed fetches are retried three times. */
  const RetryCount: nat := 3
  /** No retry waits longer than 30 seconds. */
  const MaxRetryDelayMs: nat := 30000

  function Pow2(i: nat): (r: nat)
    ensures r >= 1
  {
    if i == 0 then 1 else 2 * Pow2(i - 1)
  }

  lemma {:induction false} Pow2Monotone(i: nat, j: nat)
    requires i <= j
    ensures Pow2(i) <= Pow2(j)
    decreases j
  {
    if i < j {
      Pow2Monotone(i, j - 1);
    }
  }

  /** `Math.min(1000 * 2 ** attemptIndex, 30000)`. */
  function RetryDelay(attemptIndex: nat): (ms: nat)
    ensures ms <= MaxRetryDelayMs
    ensures ms <= 1000 * Pow2(attemptIndex)
    ensures ms == MaxRetryDelayMs || ms == 1000 * Pow2(attemptIndex)
  {
    var backoff := 1000 * Pow2(attemptIndex);
    if backoff < MaxRetryDelayMs then backoff else MaxRetryDelayMs
  }

  /** A later attempt never waits less. */
  lemma RetryDelayMonotone(i: nat, j: nat)
    requires i <= j
    ensures RetryDelay(i) <= RetryDelay(j)
  {
    Pow2Monotone(i, j);
  }

  /** The first five attempts double the wait from one second: 1, 2, 4, 8, 16 s. */
  lemma RetryDelayDoubles(i: nat)
    requires i <= 4
    ensures RetryDelay(i) == 1000 * Pow2(i)
  {
    Pow2Monotone(i, 4);
    assert Pow2(4) == 16;
  }

  /** From the sixth attempt on, the wait is the 30-second cap. */
  lemma RetryDelayCapped(i: nat)
    requires i >= 5
    ensures RetryDelay(i) == MaxRetryDelayMs
  {
    Pow2Monotone(5, i);
    assert Pow2(5) == 32;
  }

  /** Whether a student matches an already lower-cased search text: a substring
      of the lower-cased name, programme, degree or ID number, or of the email
      when there is a non-empty one. */
  predicate MatchesSearch(s: Student, search: string) {
    || Contains(ToLower(s.name), search)
    || Contains(ToLower(s.programme), search)
    || Contains(ToLower(s.degree), search)
    || Contains(ToLower(s.idNumber), search)
    || (Truthy(s.email) && Contains(ToLower(s.email.value), search))
  }

  /** The predicate `useStudentSearch` filters with. */
  function SearchKeeps(searchTerm: string): Student -> bool {
    (s: Student) => searchTerm == "" || MatchesSearch(s, ToLower(searchTerm))
  }

  /** `useStudentSearch`: an empty term keeps the list as it is; otherwise the
      students matching the lower-cased term, in their order. */
  function UseStudentSearch(students: seq<Student>, searchTerm: string): (r: seq<Student>)
    ensures IsSubsequence(r, students)
    ensures searchTerm == "" ==> r == students
    ensures forall s :: s in r <==> s in students && (searchTerm == "" || MatchesSearch(s, ToLower(searchTerm)))
  {
    FilterIsSubsequence(SearchKeeps(searchTerm), students);
    assert searchTerm == "" ==> Filter(SearchKeeps(searchTerm), students) == students by {
      if searchTerm == "" {
        FilterKeepsAll(SearchKeeps(searchTerm), students);
      }
    }
    Filter(SearchKeeps(searchTerm), students)
  }

  /** Searching the result of a search for the same term changes nothing. */
  lemma UseStudentSearchIdempotent(students: seq<Student>, searchTerm: string)
    ensures UseStudentSearch(UseStudentSearch(students, searchTerm), searchTerm) == UseStudentSearch(students, searchTerm)
  {
    FilterIdempotent(SearchKeeps(searchTerm), students);
  }

  /** Searching for a student's own ID number finds it. */
  lemma IdNumberSearchFinds(s: Student, students: seq<Student>)
    requires s in students
    ensures s in UseStudentSearch(students, s.idNumber)
  {
    var search := ToLower(s.idNumber);
    assert OccursAt(ToLower(s.idNumber), search, 0) by {
      assert ToLower(s.idNumber)[0..|search|] == search;
    }
    ContainsAt(ToLower(s.idNumber), search);
  }
}
