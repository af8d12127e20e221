/** `app/reports/page.tsx`: the coach's report view over a local list of sample
    students and sample attendance days — the present/absent lookup for one day,
    the attendance percentage of a student, the filtered table, and local add,
    edit and delete. */
module ReportsPage {
  import opened Seqs
  import opened Text
  import opened StudentList

  /** One loaded day: its date text and, per student id, whether the student was present. */
  datatype Day = Day(date: string, data: map<int, bool>)

  function SampleAttendance(): seq<Day> {
    [ Day("2025-03-15", map[1 := true, 2 := true, 3 := false, 4 := true, 5 := true, 6 := false, 7 := true, 8 := true]),
      Day("2025-03-14", map[1 := true, 2 := true, 3 := true, 4 := false, 5 := true, 6 := true, 7 := false, 8 := true]),
      Day("2025-03-13", map[1 := false, 2 := true, 3 := true, 4 := true, 5 := false, 6 := true, 7 := true, 8 := false]) ]
  }

  /** `attendanceData.find(d => d.date === selectedDate)?.data || {}` */
  function GetAttendanceForDate(days: seq<Day>, selected: string): (m: map<int, bool>)
    ensures (forall i :: 0 <= i < |days| ==> days[i].date != selected) ==> m == map[]
    ensures (exists i :: 0 <= i < |days| && days[i].date == selected) ==>
      exists i :: 0 <= i < |days| && days[i].date == selected && m == days[i].data
                  && forall j :: 0 <= j < i ==> days[j].date != selected
  {
    if days == [] then map[]
    else if days[0].date == selected then days[0].data
    else
      GetAttendanceForDate(days[1..], selected)
  }

  /** `attendance[student.id] === true`: an absent entry shows as Absent. */
  predicate IsPresent(m: map<int, bool>, id: int) {
    id in m && m[id]
  }

  /** The days that have an entry for the student (`day.data[id] !== undefined`). */
  function TotalDays(days: seq<Day>, id: int): nat {
    if days == [] then 0
    else TotalDays(days[..|days| - 1], id) + (if id in days[|days| - 1].data then 1 else 0)
  }

  /** The days whose entry for the student is `true`. */
  function PresentDays(days: seq<Day>, id: int): nat {
    if days == [] then 0
    else PresentDays(days[..|days| - 1], id) + (if IsPresent(days[|days| - 1].data, id) then 1 else 0)
  }

  /** `b * (a / b)` is the largest multiple of `b` not above `a`. */
  lemma DivBounds(a: nat, b: nat)
    requires 0 < b
    ensures b * (a / b) <= a < b * (a / b) + b
  {
  }

  lemma MulMono(x: int, y: int, c: nat)
    requires x <= y
    ensures x * c <= y * c
  {
  }

  /** A quotient is determined by the multiples of the divisor around the dividend. */
  lemma DivUnique(a: nat, b: nat, q: nat)
    requires 0 < b
    requires b * q <= a < b * q + b
    ensures a / b == q
  {
    DivBounds(a, b);
    var d := a / b;
    if d < q {
      MulMono(d + 1, q, b);
    } else if q < d {
      MulMono(q + 1, d, b);
    }
  }

  lemma RoundedRatioBounds(present: nat, total: nat)
    requires 0 < total
    requires present <= total
    ensures var t := (2000 * present + total) / (2 * total);
      t <= 1000 && 2 * total * t <= 2000 * present + total < 2 * total * t + 2 * total
  {
    var a, b := 2000 * present + total, 2 * total;
    DivBounds(a, b);
    MulMono(present, total, 2000);
    if a / b > 1000 {
      MulMono(1001, a / b, b);
    }
  }

  /** `(present / total) * 100`, to one decimal, as a number of tenths of a percent rounded
      half up: the exact ratio lies within half a tenth of the result. */
  function Tenths(present: nat, total: nat): (t: nat)
    requires 0 < total
    requires present <= total
    ensures t <= 1000
    ensures 2 * total * t <= 2000 * present + total < 2 * total * t + 2 * total
  {
    RoundedRatioBounds(present, total);
    (2000 * present + total) / (2 * total)
  }

  /** A number of tenths written as `toFixed(1)` does, followed by "%". */
  function FormatTenths(t: nat): string {
    DecimalString(t / 10) + "." + [DigitChar(t % 10)] + "%"
  }

  /** The text of the percentage column: "N/A" when no day has an entry. */
  function Rendered(present: nat, total: nat): string
    requires present <= total
  {
    if total > 0 then FormatTenths(Tenths(present, total)) else "N/A"
  }

  // ---------------------------------------------------------------- properties

  /** 0 <= present <= total <= the number of loaded days. */
  lemma {:induction false} DayCounts(days: seq<Day>, id: int)
    ensures PresentDays(days, id) <= TotalDays(days, id) <= |days|
  {
    if days != [] {
      DayCounts(days[..|days| - 1], id);
    }
  }

  /** The total is zero exactly when no loaded day has an entry for the student. */
  lemma {:induction false} TotalZeroIff(days: seq<Day>, id: int)
    ensures TotalDays(days, id) == 0 <==> forall i :: 0 <= i < |days| ==> id !in days[i].data
  {
    if days != [] {
      var init := days[..|days| - 1];
      TotalZeroIff(init, id);
      assert forall i :: 0 <= i < |init| ==> init[i] == days[i];
    }
  }

  /** A formatted percentage is never "N/A": it starts with a digit. */
  lemma FormatTenthsNotNA(t: nat)
    ensures FormatTenths(t) != "N/A"
  {
    DigitsAreDigits(t / 10);
    assert FormatTenths(t)[0] == Digits(t / 10)[0];
  }

  /** Full attendance shows "100.0%". */
  lemma RenderedAllPresent(n: nat)
    requires 0 < n
    ensures Rendered(n, n) == "100.0%"
  {
    DivUnique(2000 * n + n, 2 * n, 1000);
    assert Digits(100) == Digits(10) + ['0'];
    assert Digits(10) == Digits(1) + ['0'];
  }

  /** No attendance shows "0.0%". */
  lemma RenderedNonePresent(n: nat)
    requires 0 < n
    ensures Rendered(0, n) == "0.0%"
  {
    assert Tenths(0, n) == 0;
  }

  /** Half attendance — one of two days, or any p of 2p — shows "50.0%". */
  lemma RenderedHalf(p: nat)
    requires 0 < p
    ensures Rendered(p, 2 * p) == "50.0%"
  {
    DivUnique(2000 * p + 2 * p, 4 * p, 500);
    assert Digits(50) == Digits(5) + ['0'];
  }

  /** The row's badge: Present exactly when the first day with the selected date holds
      `true` for the student; a missing day or a missing entry shows Absent. */
  lemma ShownPresentIff(days: seq<Day>, selected: string, id: int)
    ensures IsPresent(GetAttendanceForDate(days, selected), id) <==>
      exists i :: 0 <= i < |days| && days[i].date == selected
                  && (forall j :: 0 <= j < i ==> days[j].date != selected)
                  && IsPresent(days[i].data, id)
  {
    var m := GetAttendanceForDate(days, selected);
    if exists i :: 0 <= i < |days| && days[i].date == selected {
      var i :| 0 <= i < |days| && days[i].date == selected && m == days[i].data
               && forall j :: 0 <= j < i ==> days[j].date != selected;
      forall i' | 0 <= i' < |days| && days[i'].date == selected
                  && (forall j :: 0 <= j < i' ==> days[j].date != selected)
        ensures i' == i
      {
      }
    }
  }

  /** The page's state: the fields it keeps with `useState` that the modelled handlers read
      or write. */
  class CoachView {
    var searchQuery: string
    var selectedTeam: string
    var selectedDate: string
    var students: seq<SampleStudent>
    var newStudent: StudentForm
    var attendanceData: seq<Day>
    var editingStudent: Option<SampleStudent>
    var isAddDialogOpen: bool
    var isEditDialogOpen: bool

    constructor ()
      ensures searchQuery == "" && selectedTeam == "All" && selectedDate == "2025-03-15"
      ensures students == SampleStudents() && newStudent == EmptyForm()
      ensures attendanceData == SampleAttendance() && editingStudent == None
      ensures !isAddDialogOpen && !isEditDialogOpen
    {
      searchQuery := "";
      selectedTeam := "All";
      selectedDate := "2025-03-15";
      students := SampleStudents();
      newStudent := EmptyForm();
      attendanceData := SampleAttendance();
      editingStudent := None;
      isAddDialogOpen := false;
      isEditDialogOpen := false;
    }

    /** `calculateAttendancePercentage`: one pass over the loaded days counting the days with
        an entry and the days marked present; "N/A" exactly when no day has an entry. */
    method CalculateAttendancePercentage(studentId: int) returns (s: string)
      ensures PresentDays(attendanceData, studentId) <= TotalDays(attendanceData, studentId)
      ensures s == Rendered(PresentDays(attendanceData, studentId), TotalDays(attendanceData, studentId))
      ensures s == "N/A" <==> forall i :: 0 <= i < |attendanceData| ==> studentId !in attendanceData[i].data
    {
      var present, total := 0, 0;
      var i := 0;
      while i < |attendanceData|
        invariant 0 <= i <= |attendanceData|
        invariant present == PresentDays(attendanceData[..i], studentId)
        invariant total == TotalDays(attendanceData[..i], studentId)
      {
        var day := attendanceData[i];
        assert attendanceData[..i + 1][..i] == attendanceData[..i];
        if studentId in day.data {
          total := total + 1;
          if day.data[studentId] {
            present := present + 1;
          }
        }
        i := i + 1;
      }
      assert attendanceData[..i] == attendanceData;
      DayCounts(attendanceData, studentId);
      TotalZeroIff(attendanceData, studentId);
      if total > 0 {
        FormatTenthsNotNA(Tenths(present, total));
        s := FormatTenths(Tenths(present, total));
      } else {
        s := "N/A";
      }
    }

    /** `handleAddStudent`: only a complete form adds a student (appended, id = length + 1),
        clears the form and closes the dialog; otherwise nothing changes. */
    method HandleAddStudent()
      modifies this
      ensures FormComplete(old(newStudent)) ==>
        students == Added(old(students), old(newStudent)) && newStudent == EmptyForm() && !isAddDialogOpen
      ensures !FormComplete(old(newStudent)) ==>
        students == old(students) && newStudent == old(newStudent) && isAddDialogOpen == old(isAddDialogOpen)
      ensures searchQuery == old(searchQuery) && selectedTeam == old(selectedTeam)
      ensures selectedDate == old(selectedDate) && attendanceData == old(attendanceData)
      ensures editingStudent == old(editingStudent) && isEditDialogOpen == old(isEditDialogOpen)
    {
      if FormComplete(newStudent) {
        students := Added(students, newStudent);
        newStudent := EmptyForm();
        isAddDialogOpen := false;
      }
    }

    /** `handleEditStudent`: only a complete edit replaces the students with its id and
        closes the dialog; otherwise nothing changes. */
    method HandleEditStudent()
      modifies this
      ensures EditComplete(old(editingStudent)) ==>
        students == Edited(old(students), old(editingStudent).value) && !isEditDialogOpen
      ensures !EditComplete(old(editingStudent)) ==>
        students == old(students) && isEditDialogOpen == old(isEditDialogOpen)
      ensures searchQuery == old(searchQuery) && selectedTeam == old(selectedTeam)
      ensures selectedDate == old(selectedDate) && attendanceData == old(attendanceData)
      ensures newStudent == old(newStudent) && isAddDialogOpen == old(isAddDialogOpen)
      ensures editingStudent == old(editingStudent)
    {
      if EditComplete(editingStudent) {
        students := Edited(students, editingStudent.value);
        isEditDialogOpen := false;
      }
    }

    /** `handleDeleteStudent`: when the user confirms, every student with that id goes. */
    method HandleDeleteStudent(studentId: int, confirmed: bool)
      modifies this`students
      ensures students == if confirmed then Deleted(old(students), studentId) else old(students)
    {
      if confirmed {
        students := Deleted(students, studentId);
      }
    }
  }
}
