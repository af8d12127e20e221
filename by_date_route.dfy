/** `app/api/attendance/byDate/route.ts`: every attendance row of one local
    calendar day, joined with its student. */
module ByDateRoute {
  import opened Seqs
  import opened Clock
  import opened Store

  datatype ByDateBody = ByDateBody(date: string, attendanceMarked: bool, records: seq<RecordView>)

  /** The rows of the local day of `d`, in store order (no team filter). */
  function RowsOfDay(store: seq<Record>, d: int): seq<Record> {
    Between(store, StartOfDay(d), EndOfDay(d))
  }

  /** `GET`: no session gives 401 before the date is looked at; a missing or unparseable
      date gives 400; a row whose student is missing makes the join throw (500); otherwise
      the joined rows of that day, and `attendanceMarked` says whether there are any. */
  function Get(session: Option<Session>, dateParam: Option<string>, parse: string -> Option<int>,
               store: seq<Record>, users: seq<User>): (r: Reply<ByDateBody>)
    ensures session.None? ==> r == Err(Unauthorized, "Unauthorized")
    ensures session.Some? && !Truthy(dateParam) ==> r.Err? && r.code == BadRequest
    ensures session.Some? && Truthy(dateParam) && parse(dateParam.value).None? ==>
      r.Err? && r.code == BadRequest
    ensures session.Some? && Truthy(dateParam) && parse(dateParam.value).Some? ==>
      var rows := RowsOfDay(store, parse(dateParam.value).value);
      && (r.Ok? <==> forall i :: 0 <= i < |rows| ==> FindUser(users, rows[i].studentId).Some?)
      && (r.Err? ==> r.code == ServerError)
    ensures r.Ok? ==>
      var rows := RowsOfDay(store, parse(dateParam.value).value);
      && r.code == OkCode
      && r.body.date == dateParam.value
      && r.body.records == JoinAll(rows, users).value
      && (r.body.attendanceMarked <==> |r.body.records| > 0)
      && |r.body.records| == |rows|
      && forall i :: 0 <= i < |rows| ==>
           && r.body.records[i].id == rows[i].id
           && r.body.records[i].studentId == rows[i].studentId
           && r.body.records[i].status == rows[i].status
  {
    if session.None? then Err(Unauthorized, "Unauthorized")
    else if !Truthy(dateParam) then Err(BadRequest, "Date parameter is required")
    else match parse(dateParam.value)
      case None => Err(BadRequest, "Invalid date format")
      case Some(d) =>
        var rows := RowsOfDay(store, d);
        match JoinAll(rows, users)
        case None => Err(ServerError, "Failed to fetch attendance details")
        case Some(views) => Ok(OkCode, ByDateBody(dateParam.value, |rows| > 0, views))
  }

  /** A stored row is among the rows of a day exactly when it falls on that local calendar day. */
  lemma RowsOfDayIff(store: seq<Record>, d: int, i: int)
    requires 0 <= i < |store|
    ensures store[i] in RowsOfDay(store, d) <==> LocalDayNumber(store[i].date) == LocalDayNumber(d)
  {
    InDayWindowIff(d, store[i].date);
    var rows := RowsOfDay(store, d);
    if store[i] in rows {
      var j :| 0 <= j < |rows| && rows[j] == store[i];
      InDayWindowIff(d, rows[j].date);
    }
  }

  /** The view's roll number is the student's number printed in decimal, and it reads back. */
  lemma ViewRollNumber(r: Record, users: seq<User>)
    requires FindUser(users, r.studentId).Some?
    requires FindUser(users, r.studentId).value.rollNumber.Some?
    ensures JoinView(r, users).value.rollNumber.Some?
    ensures Text.ParseDecimal(JoinView(r, users).value.rollNumber.value)
            == FindUser(users, r.studentId).value.rollNumber
  {
    Text.DecimalRoundTrip(FindUser(users, r.studentId).value.rollNumber.value);
  }
}
