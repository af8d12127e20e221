/** The data the attendance routes share: the acting user's session, the user
    and attendance tables (as sequences of rows in store order), HTTP replies,
    the day-window selection every date query uses, the construction of new
    attendance rows, and the join of a row with its student. */
module Store {
  import opened Seqs
  import opened Text
  import opened Clock

  const OkCode: int := 200
  const Created: int := 201
  const BadRequest: int := 400
  const Unauthorized: int := 401
  const Forbidden: int := 403
  const Conflict: int := 409
  const ServerError: int := 500

  /** The acting user of a request (`session.user.id`, `session.user.role`). */
  datatype Session = Session(userId: string, role: string)

  /** A row of the user table; students are the users whose role is "STUDENT". */
  datatype User = User(id: string, name: string, email: string, role: string,
                       category: Option<string>, rollNumber: Option<int>)

  /** A row of the attendance table. */
  datatype Record = Record(id: nat, studentId: string, status: string, markedById: string, date: int)

  /** One element of the `attendances` array of a request body; `status` may be absent. */
  datatype Entry = Entry(studentId: string, status: Option<string>)

  /** The JSON body of an attendance POST. */
  datatype AttendanceBody = AttendanceBody(attendances: Option<seq<Entry>>, date: Option<string>)

  /** An HTTP response: a success code with its JSON body, or an error code with its message. */
  datatype Reply<T> = Ok(code: int, body: T) | Err(code: int, message: string)

  /** An attendance row joined with its student, as the date and range queries return it. */
  datatype RecordView = RecordView(id: nat, studentId: string, status: string, studentName: string,
                                   rollNumber: Option<string>, category: Option<string>)

  /** A student as the students API returns it and the pages hold it; `Category` and
      `rollNumber` are optional in the client's type. */
  datatype StudentView = StudentView(id: string, name: string, email: string, role: string,
                                     category: Option<string>, rollNumber: Option<string>)

  /** The reply of the "is attendance marked" check. */
  datatype CheckBody = CheckBody(date: string, attendanceMarked: bool, count: nat)

  /** JavaScript truthiness of an optional string: present and not empty. */
  predicate Truthy(s: Option<string>) {
    s.Some? && s.value != ""
  }

  /** The user whose id is `id` (ids are unique in the table), if any. */
  function FindUser(users: seq<User>, id: string): (r: Option<User>)
    ensures r.Some? <==> exists i :: 0 <= i < |users| && users[i].id == id
    ensures r.Some? ==> r.value in users && r.value.id == id
  {
    if users == [] then None
    else if users[0].id == id then Some(users[0])
    else FindUser(users[1..], id)
  }

  /** `where: { date: { gte: lo, lte: hi } }` */
  predicate InWindow(r: Record, lo: int, hi: int) {
    lo <= r.date <= hi
  }

  /** The rows a date-window query selects, in store order. */
  function Between(store: seq<Record>, lo: int, hi: int): seq<Record> {
    Keep(store, r => InWindow(r, lo, hi))
  }

  /** `prisma.attendance.count` over a window. */
  function CountBetween(store: seq<Record>, lo: int, hi: int): (n: nat)
    ensures n <= |store|
  {
    if store == [] then 0
    else (if InWindow(store[0], lo, hi) then 1 else 0) + CountBetween(store[1..], lo, hi)
  }

  /** The status stored for an entry: `entry.status || "PRESENT"`. */
  function ResolveStatus(e: Entry): string {
    if Truthy(e.status) then e.status.value else "PRESENT"
  }

  /** The rows a bulk insert creates: one per entry, in order, all marked by the same user at the same instant. */
  function BuildRecords(entries: seq<Entry>, markedById: string, date: int, firstId: nat): seq<Record> {
    seq(|entries|, i requires 0 <= i < |entries| =>
      Record(firstId + i, entries[i].studentId, ResolveStatus(entries[i]), markedById, date))
  }

  /** `record.student` selected and reshaped; `rollNumber?.toString()`. A row whose student is
      missing has a null relation, and reading `record.student.name` throws. */
  function JoinView(r: Record, users: seq<User>): Option<RecordView> {
    match FindUser(users, r.studentId)
    case None => None
    case Some(u) =>
      Some(RecordView(r.id, r.studentId, r.status, u.name,
                      if u.rollNumber.Some? then Some(DecimalString(u.rollNumber.value)) else None,
                      u.category))
  }

  /** `records.map(...)` into views; fails (the route then answers 500) when some student is missing. */
  function JoinAll(rs: seq<Record>, users: seq<User>): (r: Option<seq<RecordView>>)
    ensures r.Some? <==> forall i :: 0 <= i < |rs| ==> FindUser(users, rs[i].studentId).Some?
    ensures r.Some? ==> |r.value| == |rs|
    ensures r.Some? ==> forall i :: 0 <= i < |rs| ==>
      && r.value[i].id == rs[i].id
      && r.value[i].studentId == rs[i].studentId
      && r.value[i].status == rs[i].status
      && r.value[i] == JoinView(rs[i], users).value
  {
    if rs == [] then Some([])
    else
      match JoinView(rs[0], users)
      case None => None
      case Some(v) =>
        match JoinAll(rs[1..], users)
        case None => None
        case Some(vs) => Some([v] + vs)
  }

  /** `GET` of the marked check (identical in both attendance POST routes): `!dateStr` gives 400,
      an unparseable date gives 400, otherwise the rows of that local day are counted. */
  function CheckMarked(dateParam: Option<string>, parse: string -> Option<int>, store: seq<Record>): (r: Reply<CheckBody>)
    ensures !Truthy(dateParam) ==> r == Err(BadRequest, "Date parameter is required")
    ensures Truthy(dateParam) && parse(dateParam.value).None? ==> r == Err(BadRequest, "Invalid date format")
    ensures Truthy(dateParam) && parse(dateParam.value).Some? ==>
      var d := parse(dateParam.value).value;
      && r.Ok? && r.code == OkCode && r.body.date == dateParam.value
      && r.body.count == |Between(store, StartOfDay(d), EndOfDay(d))|
      && (r.body.attendanceMarked <==>
            exists i :: 0 <= i < |store| && LocalDayNumber(store[i].date) == LocalDayNumber(d))
  {
    if !Truthy(dateParam) then Err(BadRequest, "Date parameter is required")
    else match parse(dateParam.value)
      case None => Err(BadRequest, "Invalid date format")
      case Some(d) =>
        var n := CountBetween(store, StartOfDay(d), EndOfDay(d));
        CountIsFilterLength(store, StartOfDay(d), EndOfDay(d));
        CountPositiveIffSameDay(store, d);
        Ok(OkCode, CheckBody(dateParam.value, n > 0, n))
  }

  // ---------------------------------------------------------------- properties

  /** The count agrees with the list the same window selects. */
  lemma {:induction false} CountIsFilterLength(store: seq<Record>, lo: int, hi: int)
    ensures CountBetween(store, lo, hi) == |Between(store, lo, hi)|
  {
    if store != [] {
      CountIsFilterLength(store[1..], lo, hi);
    }
  }

  /** The count over a day window is positive exactly when some row falls on that local day. */
  lemma {:induction false} CountPositiveIffSameDay(store: seq<Record>, d: int)
    ensures CountBetween(store, StartOfDay(d), EndOfDay(d)) > 0 <==>
      exists i :: 0 <= i < |store| && LocalDayNumber(store[i].date) == LocalDayNumber(d)
  {
    if store != [] {
      CountPositiveIffSameDay(store[1..], d);
      InDayWindowIff(d, store[0].date);
      if exists i :: 0 <= i < |store| && LocalDayNumber(store[i].date) == LocalDayNumber(d) {
        var i :| 0 <= i < |store| && LocalDayNumber(store[i].date) == LocalDayNumber(d);
        if i > 0 {
          assert store[1..][i - 1] == store[i];
        }
      }
      if exists i :: 0 <= i < |store[1..]| && LocalDayNumber(store[1..][i].date) == LocalDayNumber(d) {
        var i :| 0 <= i < |store[1..]| && LocalDayNumber(store[1..][i].date) == LocalDayNumber(d);
        assert store[i + 1] == store[1..][i];
      }
    }
  }

  /** Appending rows adds their count: the store only grows, so no earlier answer shrinks. */
  lemma {:induction false} CountAppend(a: seq<Record>, b: seq<Record>, lo: int, hi: int)
    ensures CountBetween(a + b, lo, hi) == CountBetween(a, lo, hi) + CountBetween(b, lo, hi)
  {
    if a == [] {
      assert a + b == b;
    } else {
      assert (a + b)[1..] == a[1..] + b;
      CountAppend(a[1..], b, lo, hi);
    }
  }

  /** Rows that all share one instant inside the window are all counted. */
  lemma {:induction false} CountAllInWindow(rs: seq<Record>, lo: int, hi: int)
    requires forall i :: 0 <= i < |rs| ==> InWindow(rs[i], lo, hi)
    ensures CountBetween(rs, lo, hi) == |rs|
  {
    if rs != [] {
      CountAllInWindow(rs[1..], lo, hi);
    }
  }

  /** The falsy-status default: an absent or empty status becomes "PRESENT", any other is kept. */
  lemma ResolveStatusDefault(e: Entry)
    ensures ResolveStatus(e) == "PRESENT" <==> !Truthy(e.status) || e.status.value == "PRESENT"
    ensures Truthy(e.status) ==> ResolveStatus(e) == e.status.value
  {
  }
}
