/** `app/manage-students/page.tsx`: the student administration table. It shows the
    students from the students API, filtered by search text and team, ten to a
    page, with next/previous buttons and a return to the first page whenever the
    search text or the team changes. */
module ManageStudentsPage {
  import opened Seqs
  import opened Store
  import opened StudentFilter

  const PageSize: int := 10

  /** The edit dialog's form: every field a string. */
  datatype EditForm = EditForm(id: string, name: string, rollNumber: string, team: string)

  function Max(a: int, b: int): int { if a < b then b else a }
  function Min(a: int, b: int): int { if a < b then a else b }

  /** Where `slice` starts or stops for an index: negative indices count from the end;
      the result is clamped to `[0, n]`. */
  function SliceIndex(k: int, n: nat): (r: int)
    ensures 0 <= r <= n
    ensures 0 <= k ==> r == Min(k, n)
    ensures k < 0 ==> r == Max(n + k, 0)
  {
    if k < 0 then Max(n + k, 0) else Min(k, n)
  }

  /** `xs.slice(start, end)` */
  function JsSlice<T>(xs: seq<T>, start: int, end: int): seq<T> {
    var from, to := SliceIndex(start, |xs|), SliceIndex(end, |xs|);
    if from < to then xs[from..to] else []
  }

  /** `paginatedStudents`: `filtered.slice((page - 1) * 10, (page - 1) * 10 + 10)` */
  function Paginate<T>(xs: seq<T>, page: int): seq<T> {
    JsSlice(xs, (page - 1) * PageSize, (page - 1) * PageSize + PageSize)
  }

  /** `Math.ceil(n / 10)` */
  function TotalPages(n: nat): (t: nat)
    ensures n <= PageSize * t < n + PageSize
    ensures t == 0 <==> n == 0
  {
    (n + PageSize - 1) / PageSize
  }

  /** `handleEditClick`: a falsy roll number becomes "", a falsy team becomes "Unknown". */
  function EditFormOf(s: StudentView): EditForm {
    EditForm(s.id, s.name,
             if Truthy(s.rollNumber) then s.rollNumber.value else "",
             if Truthy(s.category) then s.category.value else "Unknown")
  }

  /** Pages 1 to `k`, concatenated in order. */
  function PagesUpTo<T>(xs: seq<T>, k: nat): seq<T> {
    if k == 0 then [] else PagesUpTo(xs, k - 1) + Paginate(xs, k)
  }

  // ---------------------------------------------------------------- properties

  /** From page 1 on, a page is the run of at most ten students starting at (page - 1) * 10. */
  lemma PaginateSpec<T>(xs: seq<T>, page: int)
    requires 1 <= page
    ensures var start := (page - 1) * PageSize;
      Paginate(xs, page) == xs[Min(start, |xs|)..Min(start + PageSize, |xs|)]
    ensures |Paginate(xs, page)| <= PageSize
  {
  }

  /** Every page from 1 to `TotalPages` holds at least one student. */
  lemma PageNonEmpty<T>(xs: seq<T>, page: int)
    requires 1 <= page <= TotalPages(|xs|)
    ensures Paginate(xs, page) != []
  {
    PaginateSpec(xs, page);
    assert (page - 1) * PageSize <= (TotalPages(|xs|) - 1) * PageSize;
  }

  /** The first `k` pages together are the first `10 k` students. */
  lemma {:induction false} PagesUpToPrefix<T>(xs: seq<T>, k: nat)
    ensures PagesUpTo(xs, k) == xs[..Min(PageSize * k, |xs|)]
  {
    if k > 0 {
      PagesUpToPrefix(xs, k - 1);
      PaginateSpec(xs, k);
      var a, b := Min(PageSize * (k - 1), |xs|), Min(PageSize * k, |xs|);
      assert xs[..a] + xs[a..b] == xs[..b];
    }
  }

  /** The pages 1 to `TotalPages`, concatenated in order, are exactly the filtered list. */
  lemma PagesConcatenate<T>(xs: seq<T>)
    ensures PagesUpTo(xs, TotalPages(|xs|)) == xs
  {
    PagesUpToPrefix(xs, TotalPages(|xs|));
    assert xs[..|xs|] == xs;
  }

  /** The edit form keeps a student's own non-empty roll number and team, and only then. */
  lemma EditFormDefaults(s: StudentView)
    ensures EditFormOf(s).rollNumber == "" <==> !Truthy(s.rollNumber)
    ensures Truthy(s.rollNumber) ==> EditFormOf(s).rollNumber == s.rollNumber.value
    ensures Truthy(s.category) ==> EditFormOf(s).team == s.category.value
    ensures !Truthy(s.category) ==> EditFormOf(s).team == "Unknown"
    ensures EditFormOf(s).id == s.id && EditFormOf(s).name == s.name
  {
  }

  /** The page's state. */
  class StudentTable {
    var selectedTeam: string
    var searchQuery: string
    var students: seq<StudentView>
    var page: int
    var editingStudent: Option<EditForm>

    predicate Valid()
      reads this
    {
      page >= 1
    }

    /** The students that pass the search and team filters. */
    function Filtered(): seq<StudentView>
      reads this
    {
      FilterStudents(students, searchQuery, selectedTeam)
    }

    constructor ()
      ensures Valid()
      ensures selectedTeam == "All" && searchQuery == "" && students == [] && page == 1
      ensures editingStudent == None
    {
      selectedTeam := "All";
      searchQuery := "";
      students := [];
      page := 1;
      editingStudent := None;
    }

    /** The rows on screen. */
    method PaginatedStudents() returns (rows: seq<StudentView>)
      requires Valid()
      ensures |rows| <= PageSize
      ensures rows == Paginate(Filtered(), page)
      ensures page <= TotalPages(|Filtered()|) ==> rows != []
    {
      PaginateSpec(Filtered(), page);
      if page <= TotalPages(|Filtered()|) {
        PageNonEmpty(Filtered(), page);
      }
      rows := Paginate(Filtered(), page);
    }

    /** `goToNextPage`: moves on only while there is a later page. */
    method GoToNextPage()
      requires Valid()
      modifies this`page
      ensures Valid()
      ensures page == if old(page) < TotalPages(|Filtered()|) then old(page) + 1 else old(page)
      ensures old(page) <= TotalPages(|Filtered()|) ==> page <= TotalPages(|Filtered()|)
    {
      if page < TotalPages(|Filtered()|) {
        page := page + 1;
      }
    }

    /** `goToPrevPage`: moves back only from page 2 on, so the page never drops below 1. */
    method GoToPrevPage()
      requires Valid()
      modifies this`page
      ensures Valid()
      ensures page == if old(page) > 1 then old(page) - 1 else old(page)
    {
      if page > 1 {
        page := page - 1;
      }
    }

    /** Typing in the search box; the reset effect returns to page 1 when the text changes. */
    method SetSearchQuery(q: string)
      requires Valid()
      modifies this`searchQuery, this`page
      ensures Valid()
      ensures searchQuery == q
      ensures page == if q != old(searchQuery) then 1 else old(page)
    {
      if q != searchQuery {
        page := 1;
      }
      searchQuery := q;
    }

    /** Choosing a team; the reset effect returns to page 1 when the team changes. */
    method SetSelectedTeam(team: string)
      requires Valid()
      modifies this`selectedTeam, this`page
      ensures Valid()
      ensures selectedTeam == team
      ensures page == if team != old(selectedTeam) then 1 else old(page)
    {
      if team != selectedTeam {
        page := 1;
      }
      selectedTeam := team;
    }

    /** `getStudents` on a successful response; the page is left where it was. */
    method SetStudents(fetched: seq<StudentView>)
      requires Valid()
      modifies this`students
      ensures Valid()
      ensures students == fetched
    {
      students := fetched;
    }

    /** `handleEditClick` */
    method HandleEditClick(s: StudentView)
      modifies this`editingStudent
      ensures editingStudent == Some(EditFormOf(s))
    {
      editingStudent := Some(EditFormOf(s));
    }
  }
}
