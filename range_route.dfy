/** `app/api/attendance/range/route.ts`: the attendance rows between the local
    start of one day and the local end of another, optionally restricted to a
    team, sorted by date and grouped by their ISO (UTC) calendar date. */
module RangeRoute {
  import opened Seqs
  import opened Clock
  import opened Store

  datatype DateGroup = DateGroup(date: int, records: seq<RecordView>)
  datatype RangeBody = RangeBody(startDate: string, endDate: string, team: Option<string>, dates: seq<DateGroup>)

  /** The `student` part of the where clause: no restriction for "All", otherwise the
      student's `Category` must equal the parameter — also when it is absent (null), which
      selects the students without a category. */
  predicate TeamMatches(r: Record, team: Option<string>, users: seq<User>) {
    team == Some("All") ||
    (FindUser(users, r.studentId).Some? && FindUser(users, r.studentId).value.category == team)
  }

  /** The rows the `findMany` selects, before ordering. */
  function Selected(store: seq<Record>, lo: int, hi: int, team: Option<string>, users: seq<User>): seq<Record> {
    Keep(store, r => InWindow(r, lo, hi) && TeamMatches(r, team, users))
  }

  predicate SortedByDate(rs: seq<Record>) {
    forall i, j :: 0 <= i < j < |rs| ==> rs[i].date <= rs[j].date
  }

  /** Inserts `x` after every row not later than it. */
  function InsertByDate(s: seq<Record>, x: Record): (r: seq<Record>)
    ensures multiset(r) == multiset(s) + multiset{x}
  {
    if s == [] then [x]
    else if x.date < s[0].date then [x] + s
    else
      assert s == [s[0]] + s[1..];
      [s[0]] + InsertByDate(s[1..], x)
  }

  /** Insertion keeps a sorted list sorted. */
  lemma {:induction false} InsertSorted(s: seq<Record>, x: Record)
    requires SortedByDate(s)
    ensures SortedByDate(InsertByDate(s, x))
  {
    if s != [] && x.date >= s[0].date {
      InsertSorted(s[1..], x);
      var rest := InsertByDate(s[1..], x);
      forall k | 0 <= k < |rest| ensures s[0].date <= rest[k].date {
        assert rest[k] in multiset(rest);
        if rest[k] != x {
          assert rest[k] in multiset(s[1..]);
          var m :| 0 <= m < |s[1..]| && s[1..][m] == rest[k];
          assert s[m + 1] == rest[k];
        }
      }
    }
  }

  /** `orderBy: { date: "asc" }`, as a stable insertion sort (rows with equal dates keep
      their store order). */
  function SortByDate(rs: seq<Record>): (r: seq<Record>)
    ensures SortedByDate(r)
    ensures multiset(r) == multiset(rs)
  {
    if rs == [] then []
    else
      assert rs == rs[..|rs| - 1] + [rs[|rs| - 1]];
      InsertSorted(SortByDate(rs[..|rs| - 1]), rs[|rs| - 1]);
      InsertByDate(SortByDate(rs[..|rs| - 1]), rs[|rs| - 1])
  }

  /** `date.toISOString().split("T")[0]` of each row, as a day number. */
  function Keys(rs: seq<Record>): (ks: seq<int>)
    ensures |ks| == |rs|
    ensures forall i :: 0 <= i < |rs| ==> ks[i] == UtcDayKey(rs[i].date)
  {
    seq(|rs|, i requires 0 <= i < |rs| => UtcDayKey(rs[i].date))
  }

  /** `[...new Set(ks)]`: each key once, in order of first occurrence. */
  function Dedup(ks: seq<int>): (u: seq<int>)
    ensures forall i, j :: 0 <= i < j < |u| ==> u[i] != u[j]
    ensures forall k :: k in u <==> k in ks
  {
    if ks == [] then []
    else
      var u := Dedup(ks[..|ks| - 1]);
      assert ks == ks[..|ks| - 1] + [ks[|ks| - 1]];
      if ks[|ks| - 1] in u then u else u + [ks[|ks| - 1]]
  }

  /** The filter predicate of one date key. */
  function OnKey(k: int): Record -> bool {
    (r: Record) => UtcDayKey(r.date) == k
  }

  /** `attendanceRecords.filter(...)` for one date key. */
  function RecordsOn(rs: seq<Record>, k: int): seq<Record> {
    Keep(rs, OnKey(k))
  }

  /** The groups in key order: one per distinct key. */
  function Groups(rs: seq<Record>, ks: seq<int>): (gs: seq<seq<Record>>)
    ensures |gs| == |ks|
    ensures forall i :: 0 <= i < |ks| ==> gs[i] == RecordsOn(rs, ks[i])
  {
    seq(|ks|, i requires 0 <= i < |ks| => RecordsOn(rs, ks[i]))
  }

  /** The date keys of the response, in order. */
  function DayKeys(rs: seq<Record>): seq<int> {
    Dedup(Keys(rs))
  }

  function Flatten(gs: seq<seq<Record>>): seq<Record> {
    if gs == [] then [] else Flatten(gs[..|gs| - 1]) + gs[|gs| - 1]
  }

  /** The response's `dates`: for each key, in order, the joined rows of that key. */
  function JoinGroups(fetched: seq<Record>, keys: seq<int>, users: seq<User>): (dates: seq<DateGroup>)
    requires JoinAll(fetched, users).Some?
    ensures |dates| == |keys|
    ensures forall i :: 0 <= i < |keys| ==> dates[i].date == keys[i]
    ensures forall i :: 0 <= i < |keys| ==> JoinAll(RecordsOn(fetched, keys[i]), users) == Some(dates[i].records)
  {
    if keys == [] then []
    else
      JoinedGroup(fetched, keys[0], users);
      [DateGroup(keys[0], JoinAll(RecordsOn(fetched, keys[0]), users).value)]
        + JoinGroups(fetched, keys[1..], users)
  }

  /** The rows `findMany` returns: selected, then ordered by date. */
  function Fetch(store: seq<Record>, lo: int, hi: int, team: Option<string>, users: seq<User>): seq<Record> {
    SortByDate(Selected(store, lo, hi, team, users))
  }

  /** `GET`: no session gives 401 before any parameter is read; a missing (or empty) `start`
      or `end` gives 400; an unparseable one gives 400; a selected row whose student is
      missing makes the mapping throw (500); otherwise one group per distinct ISO date. */
  function Get(session: Option<Session>, startParam: Option<string>, endParam: Option<string>,
               team: Option<string>, parse: string -> Option<int>, store: seq<Record>, users: seq<User>)
    : (r: Reply<RangeBody>)
    ensures session.None? ==> r == Err(Unauthorized, "Unauthorized")
    ensures session.Some? && (!Truthy(startParam) || !Truthy(endParam)) ==> r.Err? && r.code == BadRequest
    ensures session.Some? && Truthy(startParam) && Truthy(endParam)
            && (parse(startParam.value).None? || parse(endParam.value).None?) ==>
      r.Err? && r.code == BadRequest
    ensures session.Some? && Truthy(startParam) && Truthy(endParam)
            && parse(startParam.value).Some? && parse(endParam.value).Some? ==>
      var fetched := Fetch(store, StartOfDay(parse(startParam.value).value),
                           EndOfDay(parse(endParam.value).value), team, users);
      && (r.Ok? <==> JoinAll(fetched, users).Some?)
      && (r.Err? ==> r.code == ServerError)
    ensures r.Ok? ==>
      var fetched := Fetch(store, StartOfDay(parse(startParam.value).value),
                           EndOfDay(parse(endParam.value).value), team, users);
      && session.Some?
      && r.code == OkCode
      && r.body.startDate == startParam.value && r.body.endDate == endParam.value
      && r.body.team == team
      && JoinAll(fetched, users).Some?
      && r.body.dates == JoinGroups(fetched, DayKeys(fetched), users)
  {
    if session.None? then Err(Unauthorized, "Unauthorized")
    else if !Truthy(startParam) || !Truthy(endParam) then
      Err(BadRequest, "Start and end date parameters are required")
    else if parse(startParam.value).None? || parse(endParam.value).None? then
      Err(BadRequest, "Invalid date format")
    else
      var lo := StartOfDay(parse(startParam.value).value);
      var hi := EndOfDay(parse(endParam.value).value);
      var fetched := Fetch(store, lo, hi, team, users);
      if JoinAll(fetched, users).None? then Err(ServerError, "Failed to fetch attendance range")
      else Ok(OkCode, RangeBody(startParam.value, endParam.value, team, JoinGroups(fetched, DayKeys(fetched), users)))
  }

  // ---------------------------------------------------------------- properties

  /** A group of rows whose students are all known joins as well. */
  lemma JoinedGroup(rs: seq<Record>, k: int, users: seq<User>)
    requires JoinAll(rs, users).Some?
    ensures JoinAll(RecordsOn(rs, k), users).Some?
  {
    var g := RecordsOn(rs, k);
    forall i | 0 <= i < |g| ensures FindUser(users, g[i].studentId).Some? {
      var j :| 0 <= j < |rs| && rs[j] == g[i];
    }
  }

  /** A row is fetched exactly when it lies between local midnight of `start` and local
      23:59:59.999 of `end`, both ends inclusive, and its team matches; ordering loses and
      adds nothing. */
  lemma FetchedIff(store: seq<Record>, lo: int, hi: int, team: Option<string>, users: seq<User>, x: Record)
    ensures x in Fetch(store, lo, hi, team, users) <==>
      x in store && lo <= x.date <= hi && TeamMatches(x, team, users)
  {
    var sel := Selected(store, lo, hi, team, users);
    assert x in SortByDate(sel) <==> x in multiset(sel);
    if x in store && lo <= x.date <= hi && TeamMatches(x, team, users) {
      var i :| 0 <= i < |store| && store[i] == x;
    }
    if x in sel {
      var i :| 0 <= i < |sel| && sel[i] == x;
    }
  }

  /** "All" applies no team restriction; any other value, including an absent one, keeps
      only rows whose student's category equals it. */
  lemma TeamFilter(r: Record, team: Option<string>, users: seq<User>)
    ensures team == Some("All") ==> TeamMatches(r, team, users)
    ensures team != Some("All") ==>
      (TeamMatches(r, team, users) <==>
         exists u :: u in users && u.id == r.studentId && FindUser(users, r.studentId) == Some(u) && u.category == team)
  {
  }

  predicate NonDecreasing(ks: seq<int>) {
    forall i, j :: 0 <= i < j < |ks| ==> ks[i] <= ks[j]
  }

  predicate StrictlyIncreasing(ks: seq<int>) {
    forall i, j :: 0 <= i < j < |ks| ==> ks[i] < ks[j]
  }

  /** Rows sorted by instant have non-decreasing ISO date keys. */
  lemma SortedKeys(rs: seq<Record>)
    requires SortedByDate(rs)
    ensures NonDecreasing(Keys(rs))
  {
    forall i, j | 0 <= i < j < |rs| ensures Keys(rs)[i] <= Keys(rs)[j] {
      UtcDayKeyMonotone(rs[i].date, rs[j].date);
    }
  }

  /** The first-occurrence order of non-decreasing keys is strictly increasing. */
  lemma {:induction false} DedupStrictlyIncreasing(ks: seq<int>)
    requires NonDecreasing(ks)
    ensures StrictlyIncreasing(Dedup(ks))
  {
    if ks != [] {
      var init := ks[..|ks| - 1];
      var last := ks[|ks| - 1];
      DedupStrictlyIncreasing(init);
      var u := Dedup(init);
      if last !in u {
        forall i | 0 <= i < |u| ensures u[i] < last {
          assert u[i] in init;
          var j :| 0 <= j < |init| && init[j] == u[i];
          assert ks[j] <= ks[|ks| - 1];
        }
      }
    }
  }

  /** The response's date keys are pairwise distinct and strictly ascending. */
  lemma DayKeysAscending(rs: seq<Record>)
    requires SortedByDate(rs)
    ensures StrictlyIncreasing(DayKeys(rs))
  {
    SortedKeys(rs);
    DedupStrictlyIncreasing(Keys(rs));
  }

  /** Every row lands in exactly one group — the one of its own ISO date — and no group is
      empty. */
  lemma GroupsPartition(rs: seq<Record>, j: int)
    requires 0 <= j < |rs|
    ensures var keys := DayKeys(rs);
      && (forall i :: 0 <= i < |keys| ==> (rs[j] in Groups(rs, keys)[i] <==> keys[i] == UtcDayKey(rs[j].date)))
      && (exists i :: 0 <= i < |keys| && keys[i] == UtcDayKey(rs[j].date))
      && (forall i, i' :: (0 <= i < |keys| && 0 <= i' < |keys| && keys[i] == UtcDayKey(rs[j].date)
                           && keys[i'] == UtcDayKey(rs[j].date)) ==> i == i')
  {
    var keys := DayKeys(rs);
    assert Keys(rs)[j] in Keys(rs);
    forall i | 0 <= i < |keys| ensures rs[j] in Groups(rs, keys)[i] <==> keys[i] == UtcDayKey(rs[j].date) {
      var g := RecordsOn(rs, keys[i]);
      if rs[j] in g {
        var m :| 0 <= m < |g| && g[m] == rs[j];
      }
    }
  }

  /** No group is empty. */
  lemma GroupsNonEmpty(rs: seq<Record>, i: int)
    requires 0 <= i < |DayKeys(rs)|
    ensures Groups(rs, DayKeys(rs))[i] != []
  {
    var k := DayKeys(rs)[i];
    assert k in Keys(rs);
    var j :| 0 <= j < |rs| && Keys(rs)[j] == k;
    assert rs[j] in RecordsOn(rs, k);
  }

  lemma RecordsOnSnoc(p: seq<Record>, x: Record, k: int)
    ensures RecordsOn(p + [x], k) == RecordsOn(p, k) + (if UtcDayKey(x.date) == k then [x] else [])
  {
    KeepAppend(p, [x], OnKey(k));
  }

  /** A key has an empty group exactly when no row carries it. */
  lemma RecordsOnEmptyIff(p: seq<Record>, k: int)
    ensures RecordsOn(p, k) == [] <==> k !in Keys(p)
  {
    var g := RecordsOn(p, k);
    if k in Keys(p) {
      var j :| 0 <= j < |p| && Keys(p)[j] == k;
      assert p[j] in g;
    }
    if g != [] {
      var j :| 0 <= j < |p| && p[j] == g[0];
      assert Keys(p)[j] == k;
    }
  }

  lemma SortedPrefix(p: seq<Record>, x: Record)
    requires SortedByDate(p + [x])
    ensures SortedByDate(p)
  {
    forall i, j | 0 <= i < j < |p| ensures p[i].date <= p[j].date {
      assert (p + [x])[i] == p[i] && (p + [x])[j] == p[j];
    }
  }

  lemma FlattenSnoc(gs: seq<seq<Record>>, g: seq<Record>)
    ensures Flatten(gs + [g]) == Flatten(gs) + g
  {
    assert (gs + [g])[..|gs|] == gs;
  }

  /** Appending a row appends its key to the Set's order only when the key is new. */
  lemma DayKeysSnoc(p: seq<Record>, x: Record)
    ensures DayKeys(p + [x]) ==
      if UtcDayKey(x.date) in DayKeys(p) then DayKeys(p) else DayKeys(p) + [UtcDayKey(x.date)]
  {
    var rs := p + [x];
    assert Keys(rs)[..|rs| - 1] == Keys(p);
  }

  /** In a sorted list, a key already seen before the last row is the last key of the Set. */
  lemma SeenKeyIsLast(p: seq<Record>, x: Record)
    requires SortedByDate(p + [x])
    requires UtcDayKey(x.date) in DayKeys(p)
    ensures DayKeys(p)[|DayKeys(p)| - 1] == UtcDayKey(x.date)
  {
    var u := DayKeys(p);
    var kx := UtcDayKey(x.date);
    var n := |u| - 1;
    SortedPrefix(p, x);
    DayKeysAscending(p);
    var i :| 0 <= i < |u| && u[i] == kx;
    assert u[n] in Keys(p);
    var j :| 0 <= j < |p| && Keys(p)[j] == u[n];
    assert (p + [x])[j] == p[j] && (p + [x])[|p|] == x;
    UtcDayKeyMonotone(p[j].date, x.date);
  }

  /** A row whose key was seen joins the last group. */
  lemma ConcatSeenKey(p: seq<Record>, x: Record)
    requires SortedByDate(p + [x])
    requires UtcDayKey(x.date) in DayKeys(p)
    ensures Flatten(Groups(p + [x], DayKeys(p + [x]))) == Flatten(Groups(p, DayKeys(p))) + [x]
  {
    var u := DayKeys(p);
    DayKeysSnoc(p, x);
    SeenKeyIsLast(p, x);
    var n := |u| - 1;
    var gOld, gNew := Groups(p, u), Groups(p + [x], u);
    forall i | 0 <= i < n ensures gNew[i] == gOld[i] {
      RecordsOnSnoc(p, x, u[i]);
    }
    RecordsOnSnoc(p, x, u[n]);
    assert gNew[n] == gOld[n] + [x];
    FlattenExtendLast(gOld, gNew, x);
  }

  lemma FlattenExtendLast(gs: seq<seq<Record>>, hs: seq<seq<Record>>, x: Record)
    requires |gs| == |hs| > 0
    requires forall i :: 0 <= i < |gs| - 1 ==> hs[i] == gs[i]
    requires hs[|hs| - 1] == gs[|gs| - 1] + [x]
    ensures Flatten(hs) == Flatten(gs) + [x]
  {
    var n := |gs| - 1;
    assert gs[..n] == hs[..n];
  }

  /** A row with a new key opens a new last group holding just that row. */
  lemma ConcatNewKey(p: seq<Record>, x: Record)
    requires UtcDayKey(x.date) !in DayKeys(p)
    ensures Flatten(Groups(p + [x], DayKeys(p + [x]))) == Flatten(Groups(p, DayKeys(p))) + [x]
  {
    var u := DayKeys(p);
    var kx := UtcDayKey(x.date);
    DayKeysSnoc(p, x);
    var gOld, gNew := Groups(p, u), Groups(p + [x], u + [kx]);
    var want := gOld + [[x]];
    RecordsOnEmptyIff(p, kx);
    forall i | 0 <= i < |u| + 1 ensures gNew[i] == want[i] {
      RecordsOnSnoc(p, x, (u + [kx])[i]);
    }
    assert gNew == want;
    FlattenSnoc(gOld, [x]);
  }

  /** For rows sorted by instant, the groups are consecutive runs: concatenating them in
      key order gives back the fetched list. */
  lemma {:induction false} GroupsConcatenate(rs: seq<Record>)
    requires SortedByDate(rs)
    ensures Flatten(Groups(rs, DayKeys(rs))) == rs
  {
    if rs != [] {
      var p, x := rs[..|rs| - 1], rs[|rs| - 1];
      assert rs == p + [x];
      assert SortedByDate(p);
      GroupsConcatenate(p);
      if UtcDayKey(x.date) in DayKeys(p) {
        ConcatSeenKey(p, x);
      } else {
        ConcatNewKey(p, x);
      }
    }
  }

  /** Within a group the rows keep their fetched order. */
  lemma GroupKeepsOrder(rs: seq<Record>, k: int)
    ensures IsSubsequence(RecordsOn(rs, k), rs)
  {
    KeepIsSubsequence(rs, OnKey(k));
  }

  /** The groups of a successful reply come in strictly ascending date order, one per date. */
  lemma GetDatesAscending(session: Option<Session>, startParam: Option<string>, endParam: Option<string>,
                          team: Option<string>, parse: string -> Option<int>, store: seq<Record>, users: seq<User>)
    requires Get(session, startParam, endParam, team, parse, store, users).Ok?
    ensures var dates := Get(session, startParam, endParam, team, parse, store, users).body.dates;
      forall i, j :: 0 <= i < j < |dates| ==> dates[i].date < dates[j].date
  {
    var fetched := Fetch(store, StartOfDay(parse(startParam.value).value),
                         EndOfDay(parse(endParam.value).value), team, users);
    DayKeysAscending(fetched);
  }
}
