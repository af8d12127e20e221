/** The search box and team selector the student tables share: a case-insensitive
    substring match on the name or the roll number, and an exact match on the team,
    where "All" matches every team. */
module StudentFilter {
  import opened Seqs
  import opened Text
  import opened Store

  /** `name.toLowerCase().includes(q.toLowerCase()) || rollNumber?.toLowerCase().includes(...) || false`:
      an absent roll number never matches. */
  predicate MatchesSearch(name: string, rollNumber: Option<string>, query: string) {
    Includes(ToLower(name), ToLower(query))
    || (rollNumber.Some? && Includes(ToLower(rollNumber.value), ToLower(query)))
  }

  /** `selectedTeam === "All" || team === selectedTeam`; an absent team equals no selection. */
  predicate MatchesTeam(team: Option<string>, selected: string) {
    selected == "All" || team == Some(selected)
  }

  predicate StudentMatches(s: StudentView, query: string, selected: string) {
    MatchesSearch(s.name, s.rollNumber, query) && MatchesTeam(s.category, selected)
  }

  /** `students.filter(...)` of the take-attendance and manage-students pages. */
  function FilterStudents(students: seq<StudentView>, query: string, selected: string): seq<StudentView> {
    Keep(students, (s: StudentView) => StudentMatches(s, query, selected))
  }

  // ---------------------------------------------------------------- properties

  /** The search ignores case in the query: a query matches exactly where its lower-case
      form does, and where some lower-case occurrence exists in the name or roll number. */
  lemma MatchesSearchIff(name: string, rollNumber: Option<string>, query: string)
    ensures MatchesSearch(name, rollNumber, query) == MatchesSearch(name, rollNumber, ToLower(query))
    ensures MatchesSearch(name, rollNumber, query) <==>
      (exists k :: OccursAt(ToLower(name), ToLower(query), k))
      || (rollNumber.Some? && exists k :: OccursAt(ToLower(rollNumber.value), ToLower(query), k))
  {
    ToLowerIdempotent(query);
    IncludesIff(ToLower(name), ToLower(query));
    if rollNumber.Some? {
      IncludesIff(ToLower(rollNumber.value), ToLower(query));
    }
  }

  /** An empty query matches every student. */
  lemma EmptyQueryMatches(name: string, rollNumber: Option<string>)
    ensures MatchesSearch(name, rollNumber, "")
  {
    assert ToLower("") == "";
    IncludesEmpty(ToLower(name));
  }

  /** "All" with an empty query keeps every student, in order. */
  lemma FilterAllKeepsEveryone(students: seq<StudentView>)
    ensures FilterStudents(students, "", "All") == students
  {
    forall i | 0 <= i < |students| ensures StudentMatches(students[i], "", "All") {
      EmptyQueryMatches(students[i].name, students[i].rollNumber);
    }
    KeepAll(students, (s: StudentView) => StudentMatches(s, "", "All"));
  }

  /** The filter keeps an order-preserving subsequence: a student is kept exactly when it
      matches, as often as it occurs. */
  lemma FilterStudentsSpec(students: seq<StudentView>, query: string, selected: string, s: StudentView)
    ensures IsSubsequence(FilterStudents(students, query, selected), students)
    ensures Occurrences(FilterStudents(students, query, selected), s) ==
      if StudentMatches(s, query, selected) then Occurrences(students, s) else 0
  {
    KeepIsSubsequence(students, (s: StudentView) => StudentMatches(s, query, selected));
    KeepOccurrences(students, (s: StudentView) => StudentMatches(s, query, selected), s);
  }
}
