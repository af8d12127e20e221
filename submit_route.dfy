/** `app/api/attendance/submit/route.ts`: the bulk attendance POST that stamps
    every new row with the submitted calendar day at the current local time of
    day, and the day-window check `Store.CheckMarked` as its GET. */
module SubmitRoute {
  import opened Seqs
  import opened Clock
  import opened Store
  import AttendanceRoute

  /** The instant every row of one submission carries: the local calendar day of the
      parsed `date`, at `now`'s local time of day. */
  function Stamp(date: int, now: int): (t: int)
    ensures StartOfDay(date) <= t <= EndOfDay(date)
    ensures t == LocalMidnight(date) + TimeOfDay(now)
  {
    WithTimeOfDayInWindow(date, now);
    WithTimeOfDay(date, now)
  }

  /** `POST`: the role gate (403); the JSON body (malformed JSON or a missing `attendances`
      throws: 500); an empty `attendances` (400); then `new Date(date)` — an absent or
      unparseable date throws inside the try, so it is a 500, not a 400; then one row per
      entry, all stamped with `Stamp(date, now)`. Returns the reply and the new store. */
  function Post(session: Option<Session>, body: Option<AttendanceBody>, parse: string -> Option<int>,
                now: int, store: seq<Record>)
    : (out: (Reply<string>, seq<Record>))
    ensures !AttendanceRoute.MayMark(session) ==> out.0.Err? && out.0.code == Forbidden
    ensures AttendanceRoute.MayMark(session) && (body.None? || body.value.attendances.None?) ==>
      out.0.Err? && out.0.code == ServerError
    ensures AttendanceRoute.MayMark(session) && body.Some? && body.value.attendances == Some([]) ==>
      out.0.Err? && out.0.code == BadRequest
    ensures AttendanceRoute.MayMark(session) && body.Some? && body.value.attendances.Some?
            && body.value.attendances.value != []
            && (body.value.date.None? || parse(body.value.date.value).None?) ==>
      out.0.Err? && out.0.code == ServerError
    ensures out.0.Ok? <==>
      && AttendanceRoute.MayMark(session) && body.Some?
      && body.value.attendances.Some? && body.value.attendances.value != []
      && body.value.date.Some? && parse(body.value.date.value).Some?
    ensures out.0.Err? ==> out.1 == store
    ensures out.0.Ok? ==>
      var entries := body.value.attendances.value;
      var d := parse(body.value.date.value).value;
      && out.0.code == Created
      && |out.1| == |store| + |entries|
      && out.1[..|store|] == store
      && forall i :: 0 <= i < |entries| ==>
           && out.1[|store| + i].studentId == entries[i].studentId
           && out.1[|store| + i].status == ResolveStatus(entries[i])
           && out.1[|store| + i].markedById == session.value.userId
           && out.1[|store| + i].date == LocalMidnight(d) + TimeOfDay(now)
           && LocalDayNumber(out.1[|store| + i].date) == LocalDayNumber(d)
  {
    if !AttendanceRoute.MayMark(session) then
      (Err(Forbidden, "Unauthorized: Only coaches or captains can mark attendance"), store)
    else if body.None? || body.value.attendances.None? then
      (Err(ServerError, "Something went wrong while marking attendance"), store)
    else if body.value.attendances.value == [] then
      (Err(BadRequest, "Invalid payload: sessionId and attendances array required"), store)
    else if body.value.date.None? || parse(body.value.date.value).None? then
      (Err(ServerError, "Something went wrong while marking attendance"), store)
    else
      var d := parse(body.value.date.value).value;
      var t := Stamp(d, now);
      InDayWindowIff(d, t);
      var rows := BuildRecords(body.value.attendances.value, session.value.userId, t, |store|);
      assert (store + rows)[..|store|] == store;
      (Ok(Created, "Attendance marked successfully"), store + rows)
  }

  /** A successful submission is seen by the GET for the same date string: attendance is
      reported as marked and the count grows by exactly the number of entries. */
  lemma SubmitThenCheck(session: Option<Session>, body: Option<AttendanceBody>, parse: string -> Option<int>,
                        now: int, store: seq<Record>)
    requires Post(session, body, parse, now, store).0.Ok?
    requires body.value.date.value != ""
    ensures var after := CheckMarked(body.value.date, parse, Post(session, body, parse, now, store).1);
            var before := CheckMarked(body.value.date, parse, store);
            && after.Ok? && after.body.attendanceMarked
            && after.body.count == before.body.count + |body.value.attendances.value|
  {
    var d := parse(body.value.date.value).value;
    var lo, hi := StartOfDay(d), EndOfDay(d);
    var t := Stamp(d, now);
    var rows := BuildRecords(body.value.attendances.value, session.value.userId, t, |store|);
    var after := Post(session, body, parse, now, store).1;
    assert after == store + rows;
    CountAppend(store, rows, lo, hi);
    CountAllInWindow(rows, lo, hi);
    CountIsFilterLength(after, lo, hi);
    CountIsFilterLength(store, lo, hi);
    assert after[|store|] == rows[0];
    InDayWindowIff(d, t);
  }
}
