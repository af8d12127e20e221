/** `app/take-attendance/page.tsx`: the roll-call page. It loads the students from
    the students API with every present flag off, lets the user toggle students
    and mark a whole team present, builds the submission payload from every loaded
    student, and disables saving once the check for the chosen date reports
    attendance as marked. */
module TakeAttendancePage {
  import opened Seqs
  import opened Clock
  import opened Store
  import opened StudentFilter
  import AttendanceRoute
  import SubmitRoute

  /** A loaded student with its present flag. */
  datatype Attendee = Attendee(student: StudentView, present: bool)

  /** `data.students.map(s => ({ ...s, present: false }))` */
  function Loaded(fetched: seq<StudentView>): seq<Attendee> {
    seq(|fetched|, i requires 0 <= i < |fetched| => Attendee(fetched[i], false))
  }

  /** `toggleAttendance(id)`: flips the flag of the students whose id is `id`. */
  function Toggled(xs: seq<Attendee>, id: string): seq<Attendee> {
    seq(|xs|, i requires 0 <= i < |xs| =>
      if xs[i].student.id == id then xs[i].(present := !xs[i].present) else xs[i])
  }

  /** `markAllPresent`: sets the flag of every student of the selected team ("All": everyone). */
  function MarkedAll(xs: seq<Attendee>, selected: string): seq<Attendee> {
    seq(|xs|, i requires 0 <= i < |xs| =>
      if MatchesTeam(xs[i].student.category, selected) then xs[i].(present := true) else xs[i])
  }

  /** The `attendances` of the submission: every loaded student, filtered or not. */
  function Payload(xs: seq<Attendee>): seq<Entry> {
    seq(|xs|, i requires 0 <= i < |xs| =>
      Entry(xs[i].student.id, Some(if xs[i].present then "PRESENT" else "ABSENT")))
  }

  function Shown(query: string, selected: string): Attendee -> bool {
    (a: Attendee) => StudentMatches(a.student, query, selected)
  }

  /** The table's `filteredStudents`. */
  function Filtered(xs: seq<Attendee>, query: string, selected: string): seq<Attendee> {
    Keep(xs, Shown(query, selected))
  }

  /** `disabled={result?.attendanceMarked}`: only a successful check that reported the
      date as marked disables saving. */
  predicate SaveDisabled(result: Option<Reply<CheckBody>>) {
    result.Some? && result.value.Ok? && result.value.body.attendanceMarked
  }

  // ---------------------------------------------------------------- properties

  /** Freshly loaded students are the fetched ones, in order, all marked absent. */
  lemma LoadedAllAbsent(fetched: seq<StudentView>)
    ensures |Loaded(fetched)| == |fetched|
    ensures forall i :: 0 <= i < |fetched| ==> Loaded(fetched)[i].student == fetched[i] && !Loaded(fetched)[i].present
  {
  }

  /** A toggle changes no student record and flips exactly the flags whose id matches. */
  lemma ToggledSpec(xs: seq<Attendee>, id: string)
    ensures |Toggled(xs, id)| == |xs|
    ensures forall i :: 0 <= i < |xs| ==>
      && Toggled(xs, id)[i].student == xs[i].student
      && (Toggled(xs, id)[i].present != xs[i].present <==> xs[i].student.id == id)
  {
  }

  /** Toggling the same id twice restores the list. */
  lemma ToggledInvolution(xs: seq<Attendee>, id: string)
    ensures Toggled(Toggled(xs, id), id) == xs
  {
    var once := Toggled(xs, id);
    var twice := Toggled(once, id);
    forall i | 0 <= i < |xs| ensures twice[i] == xs[i] {
      assert once[i].student == xs[i].student;
    }
  }

  /** Marking all present sets the flag of every student of the team and touches no other
      student; the search query plays no part. */
  lemma MarkedAllSpec(xs: seq<Attendee>, selected: string)
    ensures |MarkedAll(xs, selected)| == |xs|
    ensures forall i :: 0 <= i < |xs| ==>
      && MarkedAll(xs, selected)[i].student == xs[i].student
      && MarkedAll(xs, selected)[i].present == (MatchesTeam(xs[i].student.category, selected) || xs[i].present)
  {
  }

  /** Marking all present twice is the same as once. */
  lemma MarkedAllIdempotent(xs: seq<Attendee>, selected: string)
    ensures MarkedAll(MarkedAll(xs, selected), selected) == MarkedAll(xs, selected)
  {
    var once := MarkedAll(xs, selected);
    forall i | 0 <= i < |xs| ensures MarkedAll(once, selected)[i] == once[i] {
      assert once[i].student == xs[i].student;
    }
  }

  /** The payload has one entry per loaded student, in order, with status "PRESENT"
      exactly for the students marked present and "ABSENT" for the others. */
  lemma PayloadSpec(xs: seq<Attendee>)
    ensures |Payload(xs)| == |xs|
    ensures forall i :: 0 <= i < |xs| ==>
      && Payload(xs)[i].studentId == xs[i].student.id
      && Payload(xs)[i].status.Some?
      && (Payload(xs)[i].status.value == "PRESENT" <==> xs[i].present)
      && (Payload(xs)[i].status.value == "ABSENT" <==> !xs[i].present)
  {
  }

  /** Saved through the attendance route, the recorded status of each student is "PRESENT"
      exactly when the student was marked present. */
  lemma SavedStatuses(session: Option<Session>, xs: seq<Attendee>, date: string, now: int, store: seq<Record>)
    requires AttendanceRoute.Post(session, Some(AttendanceBody(Some(Payload(xs)), Some(date))), now, store).0.Ok?
    ensures var after := AttendanceRoute.Post(session, Some(AttendanceBody(Some(Payload(xs)), Some(date))), now, store).1;
      && |after| == |store| + |xs|
      && forall i :: 0 <= i < |xs| ==>
           && after[|store| + i].studentId == xs[i].student.id
           && (after[|store| + i].status == "PRESENT" <==> xs[i].present)
  {
    PayloadSpec(xs);
    forall i | 0 <= i < |xs| ensures ResolveStatus(Payload(xs)[i]) == Payload(xs)[i].status.value {
      assert Payload(xs)[i].status.value != "";
    }
  }

  /** As written, the page posts to the attendance route, which ignores the payload's
      `date` and stamps the rows with the instant of saving: for a chosen day other than
      today, the marked check for that day sees none of the new rows. */
  lemma SaveIgnoresChosenDate(session: Option<Session>, xs: seq<Attendee>, date: string,
                              parse: string -> Option<int>, now: int, store: seq<Record>)
    requires AttendanceRoute.Post(session, Some(AttendanceBody(Some(Payload(xs)), Some(date))), now, store).0.Ok?
    requires date != "" && parse(date).Some?
    requires LocalDayNumber(parse(date).value) != LocalDayNumber(now)
    ensures var after := AttendanceRoute.Post(session, Some(AttendanceBody(Some(Payload(xs)), Some(date))), now, store).1;
      CheckMarked(Some(date), parse, after) == CheckMarked(Some(date), parse, store)
  {
    var d := parse(date).value;
    var lo, hi := StartOfDay(d), EndOfDay(d);
    var rows := BuildRecords(Payload(xs), session.value.userId, now, |store|);
    InDayWindowIff(d, now);
    KeepAppend(store, rows, r => InWindow(r, lo, hi));
    assert Keep(rows, r => InWindow(r, lo, hi)) == [] by {
      var k := Keep(rows, r => InWindow(r, lo, hi));
      if k != [] {
        assert k[0] in rows;
      }
    }
    var after := store + rows;
    assert forall i :: 0 <= i < |after| && LocalDayNumber(after[i].date) == LocalDayNumber(d) ==>
      i < |store| && after[i] == store[i];
  }

  /** Sent to the submit route instead, the same payload is stamped on the chosen day, and
      the marked check for that day reports it with every new row counted. */
  lemma SaveThroughSubmit(session: Option<Session>, xs: seq<Attendee>, date: string,
                          parse: string -> Option<int>, now: int, store: seq<Record>)
    requires SubmitRoute.Post(session, Some(AttendanceBody(Some(Payload(xs)), Some(date))), parse, now, store).0.Ok?
    requires date != ""
    ensures var after := SubmitRoute.Post(session, Some(AttendanceBody(Some(Payload(xs)), Some(date))), parse, now, store).1;
      && CheckMarked(Some(date), parse, after).body.attendanceMarked
      && CheckMarked(Some(date), parse, after).body.count == CheckMarked(Some(date), parse, store).body.count + |xs|
  {
    SubmitRoute.SubmitThenCheck(session, Some(AttendanceBody(Some(Payload(xs)), Some(date))), parse, now, store);
  }

  /** Once the marked check for the chosen date has answered, saving is disabled exactly
      when some stored row falls on that local day. */
  lemma SaveDisabledIff(date: string, parse: string -> Option<int>, store: seq<Record>)
    requires date != "" && parse(date).Some?
    ensures SaveDisabled(Some(CheckMarked(Some(date), parse, store))) <==>
      exists i :: 0 <= i < |store| && LocalDayNumber(store[i].date) == LocalDayNumber(parse(date).value)
  {
  }

  /** The table shows an order-preserving subsequence of the loaded students. */
  lemma FilteredIsSubsequence(xs: seq<Attendee>, query: string, selected: string)
    ensures IsSubsequence(Filtered(xs, query, selected), xs)
  {
    KeepIsSubsequence(xs, Shown(query, selected));
  }

  /** The page's state. */
  class RollCall {
    var searchQuery: string
    var selectedTeam: string
    var attendanceData: seq<Attendee>
    var date: string
    var result: Option<Reply<CheckBody>>

    /** `today` is `new Date().toISOString().split("T")[0]`. */
    constructor (today: string)
      ensures searchQuery == "" && selectedTeam == "All" && attendanceData == []
      ensures date == today && result == None
    {
      searchQuery := "";
      selectedTeam := "All";
      attendanceData := [];
      date := today;
      result := None;
    }

    /** `getStudents` on a successful response: the fetched students, all absent. */
    method GetStudents(fetched: seq<StudentView>)
      modifies this`attendanceData
      ensures attendanceData == Loaded(fetched)
    {
      attendanceData := Loaded(fetched);
    }

    method ToggleAttendance(studentId: string)
      modifies this`attendanceData
      ensures attendanceData == Toggled(old(attendanceData), studentId)
    {
      attendanceData := Toggled(attendanceData, studentId);
    }

    method MarkAllPresent()
      modifies this`attendanceData
      ensures attendanceData == MarkedAll(old(attendanceData), selectedTeam)
    {
      attendanceData := MarkedAll(attendanceData, selectedTeam);
    }

    /** `checkAttendance` with the server's reply for the current date; an empty date
        sends no request and keeps the previous result. */
    method CheckAttendance(reply: Reply<CheckBody>)
      modifies this`result
      ensures result == if date == "" then old(result) else Some(reply)
    {
      if date != "" {
        result := Some(reply);
      }
    }

    /** The body `saveAttendance` posts: the chosen date and one entry per loaded student. */
    method SaveAttendance() returns (body: AttendanceBody)
      ensures body.date == Some(date)
      ensures body.attendances.Some? && |body.attendances.value| == |attendanceData|
      ensures forall i :: 0 <= i < |attendanceData| ==>
        && body.attendances.value[i].studentId == attendanceData[i].student.id
        && (body.attendances.value[i].status == Some("PRESENT") <==> attendanceData[i].present)
        && (!attendanceData[i].present ==> body.attendances.value[i].status == Some("ABSENT"))
      ensures body.attendances.value == Payload(attendanceData)
    {
      PayloadSpec(attendanceData);
      body := AttendanceBody(Some(Payload(attendanceData)), Some(date));
    }
  }
}
