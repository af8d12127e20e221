/** `app/api/attendance/route.ts`: the bulk attendance POST that sets no date on
    its rows (the store's default instant is used), and the day-window check
    `Store.CheckMarked` as its GET. */
module AttendanceRoute {
  import opened Seqs
  import opened Clock
  import opened Store

  /** Only a session whose role is COACH or CAPTAIN may mark attendance. */
  predicate MayMark(session: Option<Session>) {
    session.Some? && (session.value.role == "COACH" || session.value.role == "CAPTAIN")
  }

  /** `POST`: the role gate (403), then the JSON body (malformed JSON or a missing
      `attendances` throws inside the try: 500), then an empty `attendances` (400), then
      one row per entry appended to the store. `now` is the store's default for the
      row's date, the instant of insertion. Returns the reply and the new store. */
  function Post(session: Option<Session>, body: Option<AttendanceBody>, now: int, store: seq<Record>)
    : (out: (Reply<string>, seq<Record>))
    ensures !MayMark(session) ==> out.0.Err? && out.0.code == Forbidden
    ensures MayMark(session) && (body.None? || body.value.attendances.None?) ==>
      out.0.Err? && out.0.code == ServerError
    ensures MayMark(session) && body.Some? && body.value.attendances == Some([]) ==>
      out.0.Err? && out.0.code == BadRequest
    ensures out.0.Ok? <==>
      MayMark(session) && body.Some? && body.value.attendances.Some? && body.value.attendances.value != []
    ensures out.0.Err? ==> out.1 == store
    ensures out.0.Ok? ==>
      var entries := body.value.attendances.value;
      && out.0.code == Created
      && |out.1| == |store| + |entries|
      && out.1[..|store|] == store
      && forall i :: 0 <= i < |entries| ==>
           && out.1[|store| + i].studentId == entries[i].studentId
           && out.1[|store| + i].status == ResolveStatus(entries[i])
           && out.1[|store| + i].markedById == session.value.userId
           && out.1[|store| + i].date == now
  {
    if !MayMark(session) then
      (Err(Forbidden, "Unauthorized: Only coaches or captains can mark attendance"), store)
    else if body.None? || body.value.attendances.None? then
      (Err(ServerError, "Something went wrong while marking attendance"), store)
    else if body.value.attendances.value == [] then
      (Err(BadRequest, "Invalid payload: sessionId and attendances array required"), store)
    else
      var rows := BuildRecords(body.value.attendances.value, session.value.userId, now, |store|);
      assert (store + rows)[..|store|] == store;
      (Ok(Created, "Attendance marked successfully"), store + rows)
  }

  /** A successful POST at instant `now` makes the GET for any date string that parses to
      a time on `now`'s local day report the attendance as marked, its count grown by
      exactly the number of entries. */
  lemma PostThenCheck(session: Option<Session>, body: Option<AttendanceBody>, now: int, store: seq<Record>,
                      dateStr: string, parse: string -> Option<int>)
    requires Post(session, body, now, store).0.Ok?
    requires dateStr != "" && parse(dateStr).Some?
    requires LocalDayNumber(parse(dateStr).value) == LocalDayNumber(now)
    ensures var after := CheckMarked(Some(dateStr), parse, Post(session, body, now, store).1);
            var before := CheckMarked(Some(dateStr), parse, store);
            && after.Ok? && after.body.attendanceMarked
            && after.body.count == before.body.count + |body.value.attendances.value|
  {
    var d := parse(dateStr).value;
    var lo, hi := StartOfDay(d), EndOfDay(d);
    var rows := BuildRecords(body.value.attendances.value, session.value.userId, now, |store|);
    InDayWindowIff(d, now);
    CountAppend(store, rows, lo, hi);
    CountAllInWindow(rows, lo, hi);
    CountIsFilterLength(store + rows, lo, hi);
    CountIsFilterLength(store, lo, hi);
    assert |store + rows| > |store|;
    assert LocalDayNumber((store + rows)[|store|].date) == LocalDayNumber(d);
  }
}
