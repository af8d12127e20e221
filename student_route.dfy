/** `app/api/student/route.ts`: listing, creating, updating and deleting students.
    Only a COACH may write. A new student gets a synthetic e-mail made from the name
    and the current instant. An update writes only the fields given with a truthy
    value. */
module StudentRoute {
  import opened Seqs
  import opened Text
  import opened Store

  /** The JSON body of a create request; a field that is not sent is absent. */
  datatype CreateBody = CreateBody(name: Option<string>, rollNumber: Option<string>, team: Option<string>)

  /** The JSON body of an update request. */
  datatype UpdateBody = UpdateBody(id: Option<string>, name: Option<string>, team: Option<string>,
                                   rollNumber: Option<string>)

  datatype CreatedStudent = CreatedStudent(id: string, name: string, email: string, role: string)
  datatype UpdatedStudent = UpdatedStudent(id: string, name: string, role: string, rollNumber: string)

  const ServerErrorMessage: string := "Something went wrong: Server Error"

  /** `!session || session.user.role !== "COACH"` fails this. */
  predicate IsCoach(session: Option<Session>) {
    session.Some? && session.value.role == "COACH"
  }

  /** The rows `findMany({ where: { role: "STUDENT" } })` selects, in table order. */
  function Students(users: seq<User>): seq<User> {
    Keep(users, (u: User) => u.role == "STUDENT")
  }

  /** `${name.toLowerCase().replace(/\s+/g, "")}${Date.now()}@mail.com` */
  function Email(name: string, now: int): string {
    StripWhitespace(ToLower(name)) + DecimalString(now) + "@mail.com"
  }

  predicate EmailTaken(users: seq<User>, email: string) {
    exists i :: 0 <= i < |users| && users[i].email == email
  }

  /** The student rows reshaped with `rollNumber.toString()`; a student without a roll
      number makes that call throw. */
  function StudentViews(us: seq<User>): (r: Option<seq<StudentView>>)
    ensures r.Some? <==> forall i :: 0 <= i < |us| ==> us[i].rollNumber.Some?
    ensures r.Some? ==> |r.value| == |us|
    ensures r.Some? ==> forall i :: 0 <= i < |us| ==>
      r.value[i] == StudentView(us[i].id, us[i].name, us[i].email, us[i].role, us[i].category,
                                Some(DecimalString(us[i].rollNumber.value)))
  {
    if us == [] then Some([])
    else if us[0].rollNumber.None? then None
    else
      match StudentViews(us[1..])
      case None => None
      case Some(vs) =>
        Some([StudentView(us[0].id, us[0].name, us[0].email, us[0].role, us[0].category,
                          Some(DecimalString(us[0].rollNumber.value)))] + vs)
  }

  /** `GET`: every user whose role is STUDENT, with the roll number as text. */
  function Get(users: seq<User>): (r: Reply<seq<StudentView>>)
    ensures r.Ok? <==> forall i :: 0 <= i < |Students(users)| ==> Students(users)[i].rollNumber.Some?
    ensures r.Err? ==> r.code == ServerError
    ensures r.Ok? ==> r.code == OkCode && |r.body| == |Students(users)|
    ensures r.Ok? ==> forall i :: 0 <= i < |r.body| ==>
      && r.body[i].role == "STUDENT"
      && exists j :: 0 <= j < |users| && users[j].id == r.body[i].id && users[j].role == "STUDENT"
    ensures r.Ok? ==> r.body == StudentViews(Students(users)).value
  {
    var students := Students(users);
    match StudentViews(students)
    case None =>
      Err(ServerError, ServerErrorMessage)
    case Some(vs) => Ok(OkCode, vs)
  }

  /** `POST`: the COACH gate comes first (403); a body that is not JSON throws (500); a falsy
      name, team or roll number gives 400; an e-mail already in use gives 409; a roll number
      the integer column does not accept throws (500); otherwise the student is created. */
  function Post(session: Option<Session>, body: Option<CreateBody>, now: int, newId: string, users: seq<User>)
    : (out: (Reply<CreatedStudent>, seq<User>))
    ensures !IsCoach(session) ==> out.0.Err? && out.0.code == Forbidden
    ensures IsCoach(session) && body.None? ==> out.0.Err? && out.0.code == ServerError
    ensures IsCoach(session) && body.Some?
            && (!Truthy(body.value.name) || !Truthy(body.value.team) || !Truthy(body.value.rollNumber)) ==>
      out.0.Err? && out.0.code == BadRequest
    ensures IsCoach(session) && body.Some? && Truthy(body.value.name) && Truthy(body.value.team)
            && Truthy(body.value.rollNumber) && EmailTaken(users, Email(body.value.name.value, now)) ==>
      out.0 == Err(Conflict, "Email already in use")
    ensures out.0.Ok? <==>
      && IsCoach(session) && body.Some?
      && Truthy(body.value.name) && Truthy(body.value.team) && Truthy(body.value.rollNumber)
      && !EmailTaken(users, Email(body.value.name.value, now))
      && ParseDecimal(body.value.rollNumber.value).Some?
    ensures out.0.Err? ==> out.1 == users
    ensures out.0.Ok? ==>
      var b := body.value;
      var email := Email(b.name.value, now);
      && out.0.code == Created
      && out.0.body == CreatedStudent(newId, b.name.value, email, "STUDENT")
      && out.1 == users + [User(newId, b.name.value, email, "STUDENT", Some(b.team.value),
                                ParseDecimal(b.rollNumber.value))]
  {
    if !IsCoach(session) then (Err(Forbidden, "Unauthorized: Only coaches can add students"), users)
    else if body.None? then (Err(ServerError, ServerErrorMessage), users)
    else
      var b := body.value;
      if !Truthy(b.name) || !Truthy(b.team) || !Truthy(b.rollNumber) then
        (Err(BadRequest, "Name, Roll Number, and Team are required"), users)
      else
        var email := Email(b.name.value, now);
        if EmailTaken(users, email) then (Err(Conflict, "Email already in use"), users)
        else match ParseDecimal(b.rollNumber.value)
          case None => (Err(ServerError, ServerErrorMessage), users)
          case Some(roll) =>
            (Ok(Created, CreatedStudent(newId, b.name.value, email, "STUDENT")),
             users + [User(newId, b.name.value, email, "STUDENT", Some(b.team.value), Some(roll))])
  }

  /** The `data` of the update: `...(name && { name })`, `...(team && { Category: team })`,
      `...(rollNumber && { rollNumber })`, with the roll number already converted. */
  function Merged(u: User, name: Option<string>, team: Option<string>, roll: Option<int>): User {
    u.(name := if Truthy(name) then name.value else u.name,
       category := if Truthy(team) then team else u.category,
       rollNumber := if roll.Some? then roll else u.rollNumber)
  }

  /** The user table with the row of `id` replaced. */
  function Replaced(users: seq<User>, id: string, v: User): (r: seq<User>)
    ensures |r| == |users|
    ensures forall i :: 0 <= i < |users| ==> r[i] == if users[i].id == id then v else users[i]
  {
    seq(|users|, i requires 0 <= i < |users| => if users[i].id == id then v else users[i])
  }

  /** An update request names a student and at least one field to write. */
  predicate UpdateNamesField(b: UpdateBody) {
    Truthy(b.id) && (Truthy(b.name) || Truthy(b.team) || Truthy(b.rollNumber))
  }

  /** The roll number an update writes, when it sends a truthy one. */
  function UpdateRoll(b: UpdateBody): Option<int> {
    if Truthy(b.rollNumber) then ParseDecimal(b.rollNumber.value) else None
  }

  /** A sent roll number the integer column accepts. */
  predicate UpdateRollAccepted(b: UpdateBody) {
    Truthy(b.rollNumber) ==> ParseDecimal(b.rollNumber.value).Some?
  }

  /** `PUT`: the COACH gate (403); a body that is not JSON (500); no id, or none of name,
      team and roll number truthy, gives 400; an unknown id or a roll number the column does
      not accept makes the update throw (500, nothing written); otherwise the row is
      merged. When the row then has no roll number, `toString` throws after the write: the
      reply is 500 but the update stays. */
  function Put(session: Option<Session>, body: Option<UpdateBody>, users: seq<User>)
    : (out: (Reply<UpdatedStudent>, seq<User>))
    ensures !IsCoach(session) ==> out.0.Err? && out.0.code == Forbidden && out.1 == users
    ensures IsCoach(session) && body.None? ==> out.0.Err? && out.0.code == ServerError && out.1 == users
    ensures IsCoach(session) && body.Some? && !UpdateNamesField(body.value) ==>
      out.0.Err? && out.0.code == BadRequest && out.1 == users
    ensures IsCoach(session) && body.Some? && UpdateNamesField(body.value)
            && FindUser(users, body.value.id.value).None? ==>
      out == (Err(ServerError, ServerErrorMessage), users)
    ensures IsCoach(session) && body.Some? && UpdateNamesField(body.value)
            && FindUser(users, body.value.id.value).Some? && !UpdateRollAccepted(body.value) ==>
      out == (Err(ServerError, ServerErrorMessage), users)
    ensures IsCoach(session) && body.Some? && UpdateNamesField(body.value)
            && FindUser(users, body.value.id.value).Some? && UpdateRollAccepted(body.value) ==>
      var b := body.value;
      var v := Merged(FindUser(users, b.id.value).value, b.name, b.team, UpdateRoll(b));
      && out.1 == Replaced(users, b.id.value, v)
      && (out.0.Ok? <==> v.rollNumber.Some?)
      && (v.rollNumber.Some? ==>
            out.0 == Ok(OkCode, UpdatedStudent(v.id, v.name, v.role, DecimalString(v.rollNumber.value))))
      && (v.rollNumber.None? ==> out.0 == Err(ServerError, ServerErrorMessage))
    ensures out.0.Ok? <==>
      && IsCoach(session) && body.Some? && UpdateNamesField(body.value)
      && FindUser(users, body.value.id.value).Some? && UpdateRollAccepted(body.value)
      && Merged(FindUser(users, body.value.id.value).value, body.value.name, body.value.team,
                UpdateRoll(body.value)).rollNumber.Some?
  {
    if !IsCoach(session) then (Err(Forbidden, "Unauthorized: Only coaches can update students"), users)
    else if body.None? then (Err(ServerError, ServerErrorMessage), users)
    else
      var b := body.value;
      if !UpdateNamesField(b) then
        (Err(BadRequest, "Student ID and at least one field to update are required"), users)
      else match FindUser(users, b.id.value)
        case None => (Err(ServerError, ServerErrorMessage), users)
        case Some(u) =>
          if !UpdateRollAccepted(b) then (Err(ServerError, ServerErrorMessage), users)
          else
            var v := Merged(u, b.name, b.team, UpdateRoll(b));
            var after := Replaced(users, b.id.value, v);
            if v.rollNumber.None? then (Err(ServerError, ServerErrorMessage), after)
            else (Ok(OkCode, UpdatedStudent(v.id, v.name, v.role, DecimalString(v.rollNumber.value))), after)
  }

  function OtherThan(id: string): User -> bool {
    (u: User) => u.id != id
  }

  /** `DELETE`: a missing id gives 400 before the session is looked at; then the COACH gate
      (403); an unknown id makes the delete throw (500); otherwise the row goes. */
  function Delete(session: Option<Session>, idParam: Option<string>, users: seq<User>)
    : (out: (Reply<string>, seq<User>))
    ensures !Truthy(idParam) ==> out == (Err(BadRequest, "Student ID is required"), users)
    ensures Truthy(idParam) && !IsCoach(session) ==> out.0.Err? && out.0.code == Forbidden && out.1 == users
    ensures Truthy(idParam) && IsCoach(session) && FindUser(users, idParam.value).None? ==>
      out.0.Err? && out.0.code == ServerError && out.1 == users
    ensures out.0.Ok? <==> Truthy(idParam) && IsCoach(session) && FindUser(users, idParam.value).Some?
    ensures out.0.Ok? ==> out.0.code == OkCode && out.1 == Keep(users, OtherThan(idParam.value))
    ensures out.0.Err? ==> out.1 == users
  {
    if !Truthy(idParam) then (Err(BadRequest, "Student ID is required"), users)
    else if !IsCoach(session) then (Err(Forbidden, "Unauthorized: Only coaches can delete students"), users)
    else if FindUser(users, idParam.value).None? then (Err(ServerError, ServerErrorMessage), users)
    else (Ok(OkCode, "Student deleted successfully"), Keep(users, OtherThan(idParam.value)))
  }

  // ---------------------------------------------------------------- properties

  /** The e-mail contains no whitespace and ends in "@mail.com". */
  lemma EmailShape(name: string, now: int)
    ensures forall i :: 0 <= i < |Email(name, now)| ==> !IsSpace(Email(name, now)[i])
    ensures |Email(name, now)| >= 9 && Email(name, now)[|Email(name, now)| - 9..] == "@mail.com"
  {
    var stripped := StripWhitespace(ToLower(name));
    var num := DecimalString(now);
    var suffix := "@mail.com";
    StripWhitespaceSpec(ToLower(name));
    DecimalStringNoSpace(now);
    var e := Email(name, now);
    assert e == stripped + num + suffix;
    forall i | 0 <= i < |e| ensures !IsSpace(e[i]) {
      if i < |stripped| {
        assert e[i] == stripped[i];
      } else if i < |stripped| + |num| {
        assert e[i] == num[i - |stripped|];
      } else {
        assert e[i] == suffix[i - |stripped| - |num|];
      }
    }
    assert e[|e| - 9..] == suffix;
  }

  /** For one name, e-mails made at different instants differ. */
  lemma EmailDistinctInTime(name: string, t1: int, t2: int)
    requires Email(name, t1) == Email(name, t2)
    ensures t1 == t2
  {
    var p := StripWhitespace(ToLower(name));
    var e1, e2 := Email(name, t1), Email(name, t2);
    assert |DecimalString(t1)| == |DecimalString(t2)|;
    assert DecimalString(t1) == e1[|p|..|e1| - 9];
    assert DecimalString(t2) == e2[|p|..|e2| - 9];
    DecimalStringInjective(t1, t2);
  }

  /** Names that differ only in case and whitespace get the same e-mail at the same instant:
      once one of them is created, creating the other in the same millisecond gives 409 and
      creates nothing. */
  lemma SameInstantCollision(session: Option<Session>, b1: CreateBody, b2: CreateBody, now: int,
                             id1: string, id2: string, users: seq<User>)
    requires Post(session, Some(b1), now, id1, users).0.Ok?
    requires Truthy(b2.name) && Truthy(b2.team) && Truthy(b2.rollNumber)
    requires StripWhitespace(ToLower(b1.name.value)) == StripWhitespace(ToLower(b2.name.value))
    ensures var after := Post(session, Some(b1), now, id1, users).1;
      Post(session, Some(b2), now, id2, after) == (Err(Conflict, "Email already in use"), after)
  {
    var after := Post(session, Some(b1), now, id1, users).1;
    assert after[|users|].email == Email(b2.name.value, now);
  }

  /** A successful listing holds only students, each roll number reading back as the stored
      integer. */
  lemma GetRollNumbers(users: seq<User>)
    requires Get(users).Ok?
    ensures forall i :: 0 <= i < |Get(users).body| ==>
      && Get(users).body[i].rollNumber.Some?
      && ParseDecimal(Get(users).body[i].rollNumber.value) == Students(users)[i].rollNumber
  {
    var students := Students(users);
    forall i | 0 <= i < |Get(users).body|
      ensures ParseDecimal(Get(users).body[i].rollNumber.value) == students[i].rollNumber
    {
      DecimalRoundTrip(students[i].rollNumber.value);
    }
  }

  /** The merge writes only the truthy fields: id, e-mail and role never change, and a field
      sent empty or not at all keeps its old value. Merging the same update again changes
      nothing. */
  lemma MergedSpec(u: User, name: Option<string>, team: Option<string>, roll: Option<int>)
    ensures var v := Merged(u, name, team, roll);
      && v.id == u.id && v.email == u.email && v.role == u.role
      && (Truthy(name) ==> v.name == name.value) && (!Truthy(name) ==> v.name == u.name)
      && (Truthy(team) ==> v.category == team) && (!Truthy(team) ==> v.category == u.category)
      && (roll.None? ==> v.rollNumber == u.rollNumber)
    ensures Merged(Merged(u, name, team, roll), name, team, roll) == Merged(u, name, team, roll)
  {
  }

  /** After a replacement by a row that keeps the id, looking the id up finds the new row
      (when the id was present), and looking up any other id finds what it found before. */
  lemma {:induction false} ReplacedLookup(users: seq<User>, id: string, v: User, other: string)
    requires v.id == id
    ensures FindUser(Replaced(users, id, v), id) == if FindUser(users, id).Some? then Some(v) else None
    ensures other != id ==> FindUser(Replaced(users, id, v), other) == FindUser(users, other)
    decreases |users|
  {
    if users != [] {
      var r := Replaced(users, id, v);
      assert r[1..] == Replaced(users[1..], id, v);
      ReplacedLookup(users[1..], id, v, other);
    }
  }

  /** A successful delete removes the row with that id and keeps every other row in order. */
  lemma DeleteSpec(session: Option<Session>, idParam: Option<string>, users: seq<User>, w: User)
    requires Delete(session, idParam, users).0.Ok?
    ensures var after := Delete(session, idParam, users).1;
      && (forall i :: 0 <= i < |after| ==> after[i].id != idParam.value)
      && Occurrences(after, w) == (if w.id == idParam.value then 0 else Occurrences(users, w))
      && IsSubsequence(after, users)
      && |after| < |users|
  {
    var id := idParam.value;
    KeepOccurrences(users, OtherThan(id), w);
    KeepIsSubsequence(users, OtherThan(id));
    var u := FindUser(users, id).value;
    KeepOccurrences(users, OtherThan(id), u);
    OccurrencesOfMember(users, u);
    LengthBound(users, OtherThan(id), u);
  }

  lemma {:induction false} OccurrencesOfMember<T>(xs: seq<T>, x: T)
    requires x in xs
    ensures Occurrences(xs, x) > 0
  {
    if xs[0] != x {
      assert x in xs[1..];
      OccurrencesOfMember(xs[1..], x);
    }
  }

  /** Filtering out an element that occurs shortens the list. */
  lemma {:induction false} LengthBound<T>(xs: seq<T>, p: T -> bool, x: T)
    requires Occurrences(xs, x) > 0 && !p(x)
    ensures |Keep(xs, p)| < |xs|
  {
    if xs[0] != x {
      LengthBound(xs[1..], p, x);
    }
  }
}
