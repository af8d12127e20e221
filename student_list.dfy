/** The local student list of the reports page and of its "Manage Students" panel:
    numeric ids, every field a string, changed only on the client (add, edit, delete). */
module StudentList {
  import opened Seqs
  import StudentFilter

  datatype SampleStudent = SampleStudent(id: int, name: string, rollNumber: string, team: string)

  /** The add form (`newStudent`). */
  datatype StudentForm = StudentForm(name: string, rollNumber: string, team: string)

  function EmptyForm(): StudentForm {
    StudentForm("", "", "")
  }

  /** The eight students both components start with. */
  function SampleStudents(): seq<SampleStudent> {
    [ SampleStudent(1, "Alex Johnson", "ST001", "Football"),
      SampleStudent(2, "Jamie Smith", "ST002", "Football"),
      SampleStudent(3, "Casey Williams", "ST003", "Basketball"),
      SampleStudent(4, "Jordan Taylor", "ST004", "Basketball"),
      SampleStudent(5, "Morgan Brown", "ST005", "Swimming"),
      SampleStudent(6, "Riley Davis", "ST006", "Swimming"),
      SampleStudent(7, "Taylor Wilson", "ST007", "Football"),
      SampleStudent(8, "Sam Martinez", "ST008", "Basketball") ]
  }

  /** `newStudent.name && newStudent.rollNumber && newStudent.team` */
  predicate FormComplete(f: StudentForm) {
    f.name != "" && f.rollNumber != "" && f.team != ""
  }

  /** `editingStudent && editingStudent.name && editingStudent.rollNumber && editingStudent.team` */
  predicate EditComplete(e: Option<SampleStudent>) {
    e.Some? && e.value.name != "" && e.value.rollNumber != "" && e.value.team != ""
  }

  /** `[...students, { id: students.length + 1, ...newStudent }]` */
  function Added(students: seq<SampleStudent>, f: StudentForm): seq<SampleStudent> {
    students + [SampleStudent(|students| + 1, f.name, f.rollNumber, f.team)]
  }

  /** `students.map(s => s.id === edited.id ? edited : s)` */
  function Edited(students: seq<SampleStudent>, edited: SampleStudent): (r: seq<SampleStudent>)
    ensures |r| == |students|
    ensures forall i :: 0 <= i < |r| ==> r[i] == if students[i].id == edited.id then edited else students[i]
  {
    seq(|students|, i requires 0 <= i < |students| =>
      if students[i].id == edited.id then edited else students[i])
  }

  function OtherThan(id: int): SampleStudent -> bool {
    (s: SampleStudent) => s.id != id
  }

  /** `students.filter(s => s.id !== id)` */
  function Deleted(students: seq<SampleStudent>, id: int): seq<SampleStudent> {
    Keep(students, OtherThan(id))
  }

  /** The reports page's `filteredStudents`: the same search and team rule as the
      API-backed pages, on a student whose roll number and team are always present. */
  function Filtered(students: seq<SampleStudent>, query: string, selected: string): seq<SampleStudent> {
    Keep(students, (s: SampleStudent) =>
      StudentFilter.MatchesSearch(s.name, Some(s.rollNumber), query)
      && StudentFilter.MatchesTeam(Some(s.team), selected))
  }

  // ---------------------------------------------------------------- properties

  /** An add keeps every earlier student in place and appends one whose id is the old
      length plus one and whose fields are the form's. */
  lemma AddedSpec(students: seq<SampleStudent>, f: StudentForm)
    ensures |Added(students, f)| == |students| + 1
    ensures Added(students, f)[..|students|] == students
    ensures Added(students, f)[|students|] == SampleStudent(|students| + 1, f.name, f.rollNumber, f.team)
  {
    assert Added(students, f)[..|students|] == students;
  }

  /** The sample list numbers its students 1, 2, ... in order. */
  lemma SampleIdsSequential()
    ensures forall i :: 0 <= i < |SampleStudents()| ==> SampleStudents()[i].id == i + 1
  {
  }

  /** The new id can already be taken: in a list numbered 1, 2, ..., n, delete student 1
      and add someone, and the last two students both carry id n. The sample list is such
      a list (n = 8). */
  lemma AddedIdCanCollide(students: seq<SampleStudent>, f: StudentForm)
    requires |students| >= 2
    requires forall i :: 0 <= i < |students| ==> students[i].id == i + 1
    ensures var r := Added(Deleted(students, 1), f);
      |r| == |students| && r[|r| - 2].id == |students| && r[|r| - 1].id == |students|
  {
    var s := students;
    assert s == [s[0]] + s[1..];
    KeepAppend([s[0]], s[1..], OtherThan(1));
    KeepAll(s[1..], OtherThan(1));
  }

  /** Deleting the id an add just gave out restores the list, provided no earlier student
      carried that id. */
  lemma AddThenDelete(students: seq<SampleStudent>, f: StudentForm)
    requires forall i :: 0 <= i < |students| ==> students[i].id != |students| + 1
    ensures Deleted(Added(students, f), |students| + 1) == students
  {
    var n := |students| + 1;
    KeepAppend(students, [SampleStudent(n, f.name, f.rollNumber, f.team)], OtherThan(n));
    KeepAll(students, OtherThan(n));
  }

  /** An edit keeps every id, so it never changes which students an id names. */
  lemma EditedKeepsIds(students: seq<SampleStudent>, edited: SampleStudent)
    ensures forall i :: 0 <= i < |students| ==> Edited(students, edited)[i].id == students[i].id
  {
  }

  /** An edit lands on the students its id names: when the id is present the edited record
      is in the list; when it is absent the list is unchanged; and every other student in the
      result was already there. */
  lemma EditedLookup(students: seq<SampleStudent>, edited: SampleStudent)
    ensures (exists i :: 0 <= i < |students| && students[i].id == edited.id) ==>
      edited in Edited(students, edited)
    ensures (forall i :: 0 <= i < |students| ==> students[i].id != edited.id) ==>
      Edited(students, edited) == students
    ensures forall s :: s in Edited(students, edited) && s.id != edited.id ==> s in students
  {
  }

  /** Editing twice with the same values changes nothing the second time. */
  lemma EditedIdempotent(students: seq<SampleStudent>, edited: SampleStudent)
    ensures Edited(Edited(students, edited), edited) == Edited(students, edited)
  {
  }

  /** A delete removes every student with that id and keeps every other one, each as often
      as before and in the same order. */
  lemma DeletedSpec(students: seq<SampleStudent>, id: int, s: SampleStudent)
    ensures forall i :: 0 <= i < |Deleted(students, id)| ==> Deleted(students, id)[i].id != id
    ensures Occurrences(Deleted(students, id), s) == if s.id == id then 0 else Occurrences(students, s)
    ensures IsSubsequence(Deleted(students, id), students)
  {
    KeepOccurrences(students, OtherThan(id), s);
    KeepIsSubsequence(students, OtherThan(id));
  }

  /** With "All" and an empty query the reports table shows every student. */
  lemma FilteredAllKeepsEveryone(students: seq<SampleStudent>)
    ensures Filtered(students, "", "All") == students
  {
    forall i | 0 <= i < |students|
      ensures StudentFilter.MatchesSearch(students[i].name, Some(students[i].rollNumber), "")
    {
      StudentFilter.EmptyQueryMatches(students[i].name, Some(students[i].rollNumber));
    }
    KeepAll(students, (s: SampleStudent) =>
      StudentFilter.MatchesSearch(s.name, Some(s.rollNumber), "")
      && StudentFilter.MatchesTeam(Some(s.team), "All"));
  }

  /** The reports filter is an order-preserving subsequence. */
  lemma FilteredIsSubsequence(students: seq<SampleStudent>, query: string, selected: string)
    ensures IsSubsequence(Filtered(students, query, selected), students)
  {
    KeepIsSubsequence(students, (s: SampleStudent) =>
      StudentFilter.MatchesSearch(s.name, Some(s.rollNumber), query)
      && StudentFilter.MatchesTeam(Some(s.team), selected));
  }
}
