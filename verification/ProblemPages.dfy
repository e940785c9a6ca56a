/**
 Keyset pagination of problems. A page is read by comparing every row with the anchor row; following the
 cursors is proved to be the same as cutting the sorted, filtered list into consecutive slices.
 */
module ProblemPages {
  import opened Foundation
  import opened ProblemOrder

  const MAX_PAGE_SIZE := 200

  const MAX_RESPONSE_BYTES := 1_048_576

  datatype GenerationState = ActiveGeneration | HistoricalGeneration

  datatype Filters = Filters(
    tenantId: string,
    sourceId: Option<string>,
    resourceId: Option<string>,
    generationState: GenerationState,
    problemState: Option<string>,
    severity: Option<string>,
    openedFrom: Option<int>,
    openedTo: Option<int>)

  function GenerationStateOf(r: Row): GenerationState {
    if r.generation == r.activeGeneration then ActiveGeneration else HistoricalGeneration
  }

  predicate Matches(r: Row, f: Filters) {
    && r.tenantId == f.tenantId
    && (f.sourceId.Some? ==> r.sourceId == f.sourceId.value)
    && (f.resourceId.Some? ==> r.resourceId == f.resourceId.value)
    && GenerationStateOf(r) == f.generationState
    && (f.problemState.Some? ==> r.problemState == f.problemState.value)
    && (f.severity.Some? ==> r.severity == f.severity.value)
    && (f.openedFrom.Some? ==> f.openedFrom.value <= r.openedAt)
    && (f.openedTo.Some? ==> r.openedAt < f.openedTo.value)
  }

  /** Problem ids are unique inside a tenant and have a legal length. */
  ghost predicate TableWellFormed(table: seq<Row>) {
    && (forall i, j | 0 <= i < j < |table| && table[i].tenantId == table[j].tenantId ::
          table[i].problemId != table[j].problemId)
    && (forall i | 0 <= i < |table| :: 1 <= |table[i].problemId| <= 512)
  }

  // ----- The fixed repository -----

  function Eligible(table: seq<Row>, f: Filters): seq<Row> {
    if table == [] then []
    else (if Matches(table[0], f) then [table[0]] else []) + Eligible(table[1..], f)
  }

  /** The keyset predicate of the query: opened earlier, or at the same time with a greater id. */
  predicate PastAnchor(anchor: Row, r: Row) {
    r.openedAt < anchor.openedAt || (r.openedAt == anchor.openedAt && TextBefore(anchor.problemId, r.problemId))
  }

  function Past(rows: seq<Row>, anchor: Row): seq<Row> {
    if rows == [] then []
    else (if PastAnchor(anchor, rows[0]) then [rows[0]] else []) + Past(rows[1..], anchor)
  }

  function Find(rows: seq<Row>, id: string): Option<Row> {
    if rows == [] then None
    else if rows[0].problemId == id then Some(rows[0])
    else Find(rows[1..], id)
  }

  function Take(rows: seq<Row>, n: nat): seq<Row> {
    if |rows| <= n then rows else rows[..n]
  }

  /** Filter, drop what is not past the anchor, order, limit. */
  function FetchRows(table: seq<Row>, f: Filters, anchor: Option<Row>, n: nat): seq<Row> {
    var eligible := Eligible(table, f);
    Take(StableSort(ByBoth, if anchor.Some? then Past(eligible, anchor.value) else eligible), n)
  }

  // ----- list_problem_page -----

  datatype Page = Page(items: seq<Row>, nextCursor: Option<string>)

  function Bytes(rows: seq<Row>): nat {
    if rows == [] then 0 else rows[0].sizeBytes + Bytes(rows[1..])
  }

  /** The page made of whatever rows a repository answered; it trusts none of them. */
  function PageFrom(f: Filters, limit: nat, rows: seq<Row>): Result<Page> {
    if |rows| > limit + 1 then Err(ValueError)
    else if StableSort(ByBoth, rows) != rows then Err(ValueError)
    else if exists i | 0 <= i < |rows| :: !Matches(rows[i], f) then Err(ValueError)
    else
      var emitted := Take(rows, limit);
      if Bytes(emitted) > MAX_RESPONSE_BYTES then Err(ValueError)
      else
        Ok(Page(emitted,
                if |rows| > limit && emitted != [] then Some(emitted[|emitted| - 1].problemId) else None))
  }

  function ListPage(table: seq<Row>, f: Filters, cursor: Option<string>, limit: int): Result<Page> {
    if limit < 1 || limit > MAX_PAGE_SIZE then Err(ValueError)
    else if cursor.None? then PageFrom(f, limit, FetchRows(table, f, None, limit + 1))
    else if |cursor.value| == 0 || |cursor.value| > 512 then Err(CursorInvalid)
    else
      var anchor := Find(Eligible(table, f), cursor.value);
      if anchor.None? then Err(CursorInvalid)
      else PageFrom(f, limit, FetchRows(table, f, anchor, limit + 1))
  }

  /** The reference: everything that matches, in display order. */
  function View(table: seq<Row>, f: Filters): seq<Row> {
    StableSort(ByBoth, Eligible(table, f))
  }

  // ----- Selecting -----

  lemma {:induction false} EligibleExact(table: seq<Row>, f: Filters, r: Row)
    ensures r in Eligible(table, f) <==> r in table && Matches(r, f)
  {
    if table != [] {
      EligibleExact(table[1..], f, r);
    }
  }

  lemma {:induction false} EligibleUnique(table: seq<Row>, f: Filters)
    requires TableWellFormed(table)
    ensures UniqueIds(Eligible(table, f))
  {
    if table != [] {
      var rest := Eligible(table[1..], f);
      EligibleUnique(table[1..], f);
      if Matches(table[0], f) {
        forall j | 0 <= j < |rest| ensures table[0].problemId != rest[j].problemId {
          EligibleExact(table[1..], f, rest[j]);
          var k :| 0 <= k < |table[1..]| && table[1..][k] == rest[j];
          assert table[k + 1] == rest[j];
        }
      }
    }
  }

  lemma {:induction false} PastExact(rows: seq<Row>, a: Row, r: Row)
    ensures multiset(Past(rows, a))[r] == if PastAnchor(a, r) then multiset(rows)[r] else 0
  {
    if rows != [] {
      PastExact(rows[1..], a, r);
      assert rows == [rows[0]] + rows[1..];
    }
  }

  lemma PastMembers(rows: seq<Row>, a: Row, r: Row)
    ensures r in Past(rows, a) <==> r in rows && PastAnchor(a, r)
  {
    PastExact(rows, a, r);
    assert r in multiset(Past(rows, a)) <==> r in multiset(rows) && PastAnchor(a, r);
  }

  lemma {:induction false} PastOrdered(rows: seq<Row>, a: Row)
    requires Ordered(rows)
    ensures Ordered(Past(rows, a))
  {
    if rows != [] {
      var rest := Past(rows[1..], a);
      PastOrdered(rows[1..], a);
      forall j | 0 <= j < |rest| ensures Precedes(rows[0], rest[j]) {
        PastMembers(rows[1..], a, rest[j]);
        var k :| 0 <= k < |rows[1..]| && rows[1..][k] == rest[j];
        assert rows[k + 1] == rest[j];
      }
    }
  }

  lemma {:induction false} PastUnique(rows: seq<Row>, a: Row)
    requires UniqueIds(rows)
    ensures UniqueIds(Past(rows, a))
  {
    if rows != [] {
      var rest := Past(rows[1..], a);
      PastUnique(rows[1..], a);
      forall j | 0 <= j < |rest| ensures rows[0].problemId != rest[j].problemId {
        PastMembers(rows[1..], a, rest[j]);
        var k :| 0 <= k < |rows[1..]| && rows[1..][k] == rest[j];
        assert rows[k + 1] == rest[j];
      }
    }
  }

  /** Selecting past an anchor before or after sorting makes no difference. */
  lemma SelectThenSort(rows: seq<Row>, a: Row)
    requires UniqueIds(rows)
    ensures StableSort(ByBoth, Past(rows, a)) == Past(StableSort(ByBoth, rows), a)
  {
    var sorted := StableSort(ByBoth, rows);
    PastUnique(rows, a);
    SortByBothOrdered(rows);
    SortByBothOrdered(Past(rows, a));
    PastOrdered(sorted, a);
    SortKeepsRows(ByBoth, rows);
    SortKeepsRows(ByBoth, Past(rows, a));
    forall r ensures multiset(Past(rows, a))[r] == multiset(Past(sorted, a))[r] {
      PastExact(rows, a, r);
      PastExact(sorted, a, r);
    }
    assert multiset(Past(rows, a)) == multiset(Past(sorted, a));
    OrderedUnique(StableSort(ByBoth, Past(rows, a)), Past(sorted, a));
  }

  lemma {:induction false} AllPast(rows: seq<Row>, a: Row)
    requires forall i | 0 <= i < |rows| :: Precedes(a, rows[i])
    ensures Past(rows, a) == rows
  {
    if rows != [] {
      AllPast(rows[1..], a);
    }
  }

  /** In an ordered list the keyset predicate selects exactly the rows behind the anchor. */
  lemma {:induction false} KeysetIsSuffix(rows: seq<Row>, k: nat)
    requires Ordered(rows) && k < |rows|
    ensures Past(rows, rows[k]) == rows[k + 1..]
    decreases k
  {
    NotPastItself(rows[k]);
    if k == 0 {
      AllPast(rows[1..], rows[0]);
    } else {
      assert Precedes(rows[0], rows[k]);
      NotPastBefore(rows[0], rows[k]);
      KeysetIsSuffix(rows[1..], k - 1);
      assert rows[1..][k..] == rows[k + 1..];
    }
  }

  lemma NotPastItself(r: Row)
    ensures !PastAnchor(r, r)
  {
    TextBeforeTotal(r.problemId, r.problemId);
  }

  lemma NotPastBefore(a: Row, b: Row)
    requires Precedes(a, b)
    ensures !PastAnchor(b, a)
  {
    TextBeforeTotal(a.problemId, b.problemId);
  }

  // ----- One page -----

  lemma ViewSound(table: seq<Row>, f: Filters)
    requires TableWellFormed(table)
    ensures Ordered(View(table, f)) && UniqueIds(Eligible(table, f))
    ensures forall r :: r in View(table, f) <==> r in table && Matches(r, f)
  {
    EligibleUnique(table, f);
    SortByBothOrdered(Eligible(table, f));
    SortKeepsRows(ByBoth, Eligible(table, f));
    forall r ensures r in View(table, f) <==> r in table && Matches(r, f) {
      EligibleExact(table, f, r);
      assert r in multiset(View(table, f)) <==> r in multiset(Eligible(table, f));
    }
  }

  lemma {:induction false} FindByPosition(rows: seq<Row>, r: Row)
    requires UniqueIds(rows) && r in rows
    ensures Find(rows, r.problemId) == Some(r)
  {
    if rows[0].problemId != r.problemId {
      FindByPosition(rows[1..], r);
    } else {
      var k :| 0 <= k < |rows| && rows[k] == r;
    }
  }

  /** The rows fetched for the anchor at position k - 1 start at position k of the view. */
  lemma FetchIsSlice(table: seq<Row>, f: Filters, k: nat, n: nat)
    requires TableWellFormed(table) && k <= |View(table, f)|
    ensures FetchRows(table, f, if k == 0 then None else Some(View(table, f)[k - 1]), n)
         == Take(View(table, f)[k..], n)
  {
    if k > 0 {
      ViewSound(table, f);
      SelectThenSort(Eligible(table, f), View(table, f)[k - 1]);
      KeysetIsSuffix(View(table, f), k - 1);
    }
  }

  function CursorAt(view: seq<Row>, k: nat): Option<string>
    requires k <= |view|
  {
    if k == 0 then None else Some(view[k - 1].problemId)
  }

  function PositionPage(view: seq<Row>, k: nat, limit: nat): Page
    requires k <= |view|
  {
    Page(Take(view[k..], limit), if limit > 0 && |view| - k > limit then Some(view[k + limit - 1].problemId) else None)
  }

  /** The slice that a page starting at position k should show, or the byte-budget error. */
  function SliceAt(view: seq<Row>, k: nat, limit: nat): Result<Page>
    requires k <= |view|
  {
    if Bytes(Take(view[k..], limit)) > MAX_RESPONSE_BYTES then Err(ValueError) else Ok(PositionPage(view, k, limit))
  }

  /** One row more than the page shows whether there is a next page. */
  lemma OneExtraRow(view: seq<Row>, k: nat, limit: nat)
    requires k <= |view|
    ensures var rows := Take(view[k..], limit + 1);
            var items := Take(rows, limit);
            && items == Take(view[k..], limit)
            && Page(items, if |rows| > limit && items != [] then Some(items[|items| - 1].problemId) else None)
               == PositionPage(view, k, limit)
  {
  }

  lemma {:induction false} SortedStays(rows: seq<Row>)
    requires Ordered(rows)
    ensures StableSort(ByBoth, rows) == rows
  {
    if rows != [] {
      SortedStays(rows[1..]);
      if |rows| > 1 {
        NotPastBefore(rows[0], rows[1]);
        assert Precedes(rows[0], rows[1]);
      }
      assert rows == [rows[0]] + rows[1..];
    }
  }

  lemma PageFromSlice(f: Filters, view: seq<Row>, k: nat, limit: nat)
    requires Ordered(view) && k <= |view| && limit >= 1
    requires forall i | 0 <= i < |view| :: Matches(view[i], f)
    ensures PageFrom(f, limit, Take(view[k..], limit + 1)) == SliceAt(view, k, limit)
  {
    var rows := Take(view[k..], limit + 1);
    SortedStays(rows);
    OneExtraRow(view, k, limit);
  }

  lemma FirstPageIsFetched(table: seq<Row>, f: Filters, limit: nat)
    requires TableWellFormed(table) && 1 <= limit <= MAX_PAGE_SIZE
    ensures ListPage(table, f, None, limit) == PageFrom(f, limit, Take(View(table, f)[0..], limit + 1))
  {
    FetchIsSlice(table, f, 0, limit + 1);
  }

  lemma NextPageIsFetched(table: seq<Row>, f: Filters, k: nat, limit: nat, anchor: Row)
    requires TableWellFormed(table) && 0 < k <= |View(table, f)| && 1 <= limit <= MAX_PAGE_SIZE
    requires anchor == View(table, f)[k - 1]
    ensures ListPage(table, f, Some(anchor.problemId), limit)
         == PageFrom(f, limit, Take(View(table, f)[k..], limit + 1))
  {
    FetchIsSlice(table, f, k, limit + 1);
    CursorFindsRow(table, f, anchor);
  }

  /** A page read with the cursor of position k is the slice of the view that starts at k. */
  lemma PageIsSlice(table: seq<Row>, f: Filters, k: nat, limit: nat)
    requires TableWellFormed(table) && k <= |View(table, f)| && 1 <= limit <= MAX_PAGE_SIZE
    ensures ListPage(table, f, CursorAt(View(table, f), k), limit) == SliceAt(View(table, f), k, limit)
  {
    ViewMatches(table, f);
    PageFromSlice(f, View(table, f), k, limit);
    if k == 0 {
      FirstPageIsFetched(table, f, limit);
    } else {
      NextPageIsFetched(table, f, k, limit, View(table, f)[k - 1]);
    }
  }

  lemma ViewMatches(table: seq<Row>, f: Filters)
    requires TableWellFormed(table)
    ensures Ordered(View(table, f))
    ensures forall i | 0 <= i < |View(table, f)| :: Matches(View(table, f)[i], f)
  {
    ViewSound(table, f);
    forall i | 0 <= i < |View(table, f)| ensures Matches(View(table, f)[i], f) {
      assert View(table, f)[i] in View(table, f);
    }
  }

  lemma CursorFindsRow(table: seq<Row>, f: Filters, anchor: Row)
    requires TableWellFormed(table) && anchor in View(table, f)
    ensures Find(Eligible(table, f), anchor.problemId) == Some(anchor)
    ensures 1 <= |anchor.problemId| <= 512
  {
    ViewSound(table, f);
    EligibleExact(table, f, anchor);
    FindByPosition(Eligible(table, f), anchor);
  }

  /** A cursor that names no matching row, or has an illegal length, is refused. */
  lemma StrangeCursorRefused(table: seq<Row>, f: Filters, cursor: string, limit: nat)
    requires 1 <= limit <= MAX_PAGE_SIZE
    requires forall r | r in table && Matches(r, f) :: r.problemId != cursor
    ensures ListPage(table, f, Some(cursor), limit) == Err(CursorInvalid)
  {
    var anchor := Find(Eligible(table, f), cursor);
    FindIsMember(Eligible(table, f), cursor);
    if anchor.Some? {
      EligibleExact(table, f, anchor.value);
    }
  }

  lemma {:induction false} FindIsMember(rows: seq<Row>, id: string)
    ensures Find(rows, id).Some? ==> Find(rows, id).value in rows && Find(rows, id).value.problemId == id
  {
    if rows != [] {
      FindIsMember(rows[1..], id);
    }
  }

  // ----- Following the cursors -----

  /** Who reads page after page only sees what a cursor leads to. */
  type Pages = Option<string> -> Result<Page>

  function PagesOf(table: seq<Row>, f: Filters, limit: int): Pages {
    cursor => ListPage(table, f, cursor, limit)
  }

  /** Read pages until there is no next cursor; `fuel` only bounds the number of pages. */
  function Walk(pages: Pages, cursor: Option<string>, fuel: nat): Result<seq<Row>>
    decreases fuel
  {
    if fuel == 0 then Err(InvalidTransition)
    else
      var page := pages(cursor);
      if page.Err? then Err(page.error)
      else if page.value.nextCursor.None? then Ok(page.value.items)
      else Joined(page.value.items, Walk(pages, page.value.nextCursor, fuel - 1))
  }

  function Joined(items: seq<Row>, rest: Result<seq<Row>>): Result<seq<Row>> {
    if rest.Err? then rest else Ok(items + rest.value)
  }

  /** Does every consecutive chunk of at most `limit` rows fit into one response? */
  predicate ChunksFit(rows: seq<Row>, limit: nat)
    requires limit >= 1
    decreases |rows|
  {
    Bytes(Take(rows, limit)) <= MAX_RESPONSE_BYTES && (|rows| > limit ==> ChunksFit(rows[limit..], limit))
  }

  lemma NextSlice(view: seq<Row>, k: nat, limit: nat)
    requires limit >= 1 && k + limit < |view|
    ensures PositionPage(view, k, limit) == Page(Take(view[k..], limit), CursorAt(view, k + limit))
    ensures view[k..][limit..] == view[k + limit..]
    ensures view[k..] == Take(view[k..], limit) + view[k + limit..]
  {
  }

  /** The page at position k, followed by what the walk behind it returns. */
  function PageThen(view: seq<Row>, k: nat, limit: nat, rest: Result<seq<Row>>): Result<seq<Row>>
    requires k <= |view|
  {
    if Bytes(Take(view[k..], limit)) > MAX_RESPONSE_BYTES then Err(ValueError)
    else if |view| - k <= limit then Ok(view[k..])
    else Joined(Take(view[k..], limit), rest)
  }

  /** The pages are the slices of this list. */
  ghost predicate Slices(pages: Pages, view: seq<Row>, limit: nat) {
    forall k: nat | k <= |view| :: pages(CursorAt(view, k)) == SliceAt(view, k, limit)
  }

  /** What the walk from position k is to return. */
  function Expected(view: seq<Row>, k: nat, limit: nat): Result<seq<Row>>
    requires k <= |view| && limit >= 1
  {
    if ChunksFit(view[k..], limit) then Ok(view[k..]) else Err(ValueError)
  }

  lemma ExpectedOnePage(view: seq<Row>, k: nat, limit: nat, rest: Result<seq<Row>>)
    requires k <= |view| && limit >= 1
    requires |view| - k > limit ==> rest == Expected(view, k + limit, limit)
    ensures Expected(view, k, limit) == PageThen(view, k, limit, rest)
  {
    if |view| - k > limit {
      NextSlice(view, k, limit);
    }
  }

  lemma {:induction false} WalkFrom(pages: Pages, view: seq<Row>, k: nat, limit: nat, fuel: nat)
    requires Slices(pages, view, limit) && k <= |view| && limit >= 1
    requires fuel > |view| - k
    ensures Walk(pages, CursorAt(view, k), fuel) == Expected(view, k, limit)
    decreases fuel
  {
    var rest := Ok([]);
    if |view| - k > limit {
      NextSlice(view, k, limit);
      WalkFrom(pages, view, k + limit, limit, fuel - 1);
      rest := Expected(view, k + limit, limit);
    }
    ExpectedOnePage(view, k, limit, rest);
  }

  /**
   Following the cursors terminates, and returns the whole filtered list in display order, each row once,
   exactly when every page fits its byte budget; otherwise it stops with the budget error.
   */
  lemma WalkIsExact(table: seq<Row>, f: Filters, limit: nat, fuel: nat)
    requires TableWellFormed(table) && 1 <= limit <= MAX_PAGE_SIZE && fuel > |View(table, f)|
    ensures Walk(PagesOf(table, f, limit), None, fuel)
         == if ChunksFit(View(table, f), limit) then Ok(View(table, f)) else Err(ValueError)
    ensures multiset(View(table, f)) == multiset(Eligible(table, f))
    ensures Ordered(View(table, f))
  {
    var view := View(table, f);
    ViewSound(table, f);
    SortKeepsRows(ByBoth, Eligible(table, f));
    PagesAreSlices(table, f, limit);
    WalkFrom(PagesOf(table, f, limit), view, 0, limit, fuel);
    assert view[0..] == view;
  }

  lemma PagesAreSlices(table: seq<Row>, f: Filters, limit: nat)
    requires TableWellFormed(table) && 1 <= limit <= MAX_PAGE_SIZE
    ensures Slices(PagesOf(table, f, limit), View(table, f), limit)
  {
    forall k: nat | k <= |View(table, f)|
      ensures PagesOf(table, f, limit)(CursorAt(View(table, f), k)) == SliceAt(View(table, f), k, limit)
    {
      PageIsSlice(table, f, k, limit);
    }
  }

  // ----- The in-memory port, which slices by position -----

  /** The position behind the only row with this id, if there is one. */
  method PositionOf(rows: seq<Row>, id: string) returns (k: Option<nat>)
    ensures k.Some? ==> 0 < k.value <= |rows| && CursorAt(rows, k.value) == Some(id)
    ensures k.None? ==> forall j | 0 < j <= |rows| :: CursorAt(rows, j) != Some(id)
  {
    k := None;
    for i := 0 to |rows|
      invariant k.Some? ==> 0 < k.value <= i && CursorAt(rows, k.value) == Some(id)
      invariant k.None? ==> forall j | 0 < j <= i :: CursorAt(rows, j) != Some(id)
    {
      if rows[i].problemId == id && k.None? {
        k := Some(i + 1);
      }
    }
  }

  /** Filter and sort twice, in place of the one order by both keys. */
  method FilterAndSort(table: seq<Row>, f: Filters) returns (rows: seq<Row>)
    requires TableWellFormed(table)
    ensures rows == View(table, f)
  {
    rows := Eligible(table, f);
    EligibleUnique(table, f);
    TwoPassesAreOne(rows);
    rows := StableSort(ById, rows);
    rows := StableSort(ByOpenedDescending, rows);
  }

  /**
   Cut behind the cursor's position; there is no byte budget here. The page of a known cursor starts behind its
   row, and a cursor that no row in the view has is refused.
   */
  method ListByPosition(table: seq<Row>, f: Filters, cursor: Option<string>, limit: nat) returns (r: Result<Page>)
    requires TableWellFormed(table)
    ensures var view := View(table, f);
            && (cursor.None? ==> r == Ok(PositionPage(view, 0, limit)))
            && (forall k | 0 < k <= |view| && CursorAt(view, k) == cursor :: r == Ok(PositionPage(view, k, limit)))
            && (cursor.Some? && (forall k | 0 < k <= |view| :: CursorAt(view, k) != cursor) ==> r == Err(ValueError))
  {
    var rows := FilterAndSort(table, f);
    ghost var view := rows;
    var k := 0;
    if cursor.Some? {
      var found := PositionOf(rows, cursor.value);
      if found.None? {
        return Err(ValueError);
      }
      k := found.value;
      CursorDeterminesPosition(table, f, k);
    }
    rows := rows[k..];
    var page := Take(rows, limit + 1);
    var hasMore := |page| > limit;
    page := Take(page, limit);
    OneExtraRow(view, k, limit);
    return Ok(Page(page, if hasMore && page != [] then Some(page[|page| - 1].problemId) else None));
  }

  lemma CursorDeterminesPosition(table: seq<Row>, f: Filters, k: nat)
    requires TableWellFormed(table) && 0 < k <= |View(table, f)|
    ensures forall j | 0 < j <= |View(table, f)| && CursorAt(View(table, f), j) == CursorAt(View(table, f), k) :: j == k
  {
    EligibleUnique(table, f);
    SortKeepsUnique(Eligible(table, f));
  }

  lemma {:induction false} InsertKeepsUnique(x: Row, s: seq<Row>)
    requires UniqueIds(s) && forall i | 0 <= i < |s| :: s[i].problemId != x.problemId
    ensures UniqueIds(Insert(ByBoth, x, s))
  {
    if s != [] && !LessEqual(ByBoth, x, s[0]) {
      var t := Insert(ByBoth, x, s[1..]);
      InsertKeepsUnique(x, s[1..]);
      InsertKeepsRows(ByBoth, x, s[1..]);
      forall i | 0 <= i < |t| ensures t[i].problemId != s[0].problemId {
        assert t[i] in multiset(t);
        if t[i] != x {
          var j :| 0 <= j < |s[1..]| && s[1..][j] == t[i];
          assert s[j + 1] == t[i];
        }
      }
    }
  }

  lemma {:induction false} SortKeepsUnique(rows: seq<Row>)
    requires UniqueIds(rows)
    ensures UniqueIds(StableSort(ByBoth, rows))
  {
    if rows != [] {
      var s := StableSort(ByBoth, rows[1..]);
      SortKeepsUnique(rows[1..]);
      SortKeepsRows(ByBoth, rows[1..]);
      forall i | 0 <= i < |s| ensures s[i].problemId != rows[0].problemId {
        assert s[i] in multiset(s);
        var j :| 0 <= j < |rows[1..]| && rows[1..][j] == s[i];
        assert rows[j + 1] == s[i];
      }
      InsertKeepsUnique(rows[0], s);
    }
  }

  // ----- What a page checks of the rows it is given -----

  /** Every filter that is set agrees with the row; the upper end of the time range is outside. */
  predicate InFilter(r: Row, f: Filters) {
    && r.tenantId == f.tenantId
    && f.sourceId in {None, Some(r.sourceId)}
    && f.resourceId in {None, Some(r.resourceId)}
    && (f.generationState == ActiveGeneration <==> r.generation == r.activeGeneration)
    && f.problemState in {None, Some(r.problemState)}
    && f.severity in {None, Some(r.severity)}
    && (f.openedFrom.Some? ==> r.openedAt >= f.openedFrom.value)
    && (f.openedTo.Some? ==> f.openedTo.value > r.openedAt)
  }

  lemma MatchesInFilter(r: Row, f: Filters)
    ensures Matches(r, f) <==> InFilter(r, f)
  {
  }

  /** The view has exactly the rows of the table that every filter admits, each as often as the table has it. */
  lemma ViewIsFilteredTable(table: seq<Row>, f: Filters, r: Row)
    ensures multiset(View(table, f))[r] == if InFilter(r, f) then multiset(table)[r] else 0
  {
    SortKeepsRows(ByBoth, Eligible(table, f));
    EligibleOften(table, f, r);
  }

  lemma {:induction false} EligibleOften(table: seq<Row>, f: Filters, r: Row)
    ensures multiset(Eligible(table, f))[r] == if InFilter(r, f) then multiset(table)[r] else 0
  {
    if table != [] {
      EligibleOften(table[1..], f, r);
      MatchesInFilter(table[0], f);
      assert table == [table[0]] + table[1..];
    }
  }

  /** No row comes before the one in front of it. */
  predicate Ascends(rows: seq<Row>) {
    forall i | 0 <= i < |rows| - 1 :: !Precedes(rows[i + 1], rows[i])
  }

  lemma {:induction false} InsertAscends(x: Row, s: seq<Row>)
    requires Ascends(s)
    ensures Ascends(Insert(ByBoth, x, s))
    ensures Insert(ByBoth, x, s) != [] && (Insert(ByBoth, x, s)[0] == x || (s != [] && Insert(ByBoth, x, s)[0] == s[0]))
  {
    if s != [] && !LessEqual(ByBoth, x, s[0]) {
      var t := Insert(ByBoth, x, s[1..]);
      InsertAscends(x, s[1..]);
      TextBeforeTotal(x.problemId, s[0].problemId);
      assert |s| > 1 ==> !Precedes(s[1], s[0]);
      assert !Precedes(t[0], s[0]);
      PrependAscends(s[0], t);
    }
  }

  lemma PrependAscends(h: Row, t: seq<Row>)
    requires Ascends(t) && (t != [] ==> !Precedes(t[0], h))
    ensures Ascends([h] + t)
  {
  }

  lemma {:induction false} SortAscends(rows: seq<Row>)
    ensures Ascends(StableSort(ByBoth, rows))
  {
    if rows != [] {
      SortAscends(rows[1..]);
      InsertAscends(rows[0], StableSort(ByBoth, rows[1..]));
    }
  }

  lemma {:induction false} AscendingStays(rows: seq<Row>)
    requires Ascends(rows)
    ensures StableSort(ByBoth, rows) == rows
  {
    if rows != [] {
      assert Ascends(rows[1..]) by {
        forall i | 0 <= i < |rows[1..]| - 1 ensures !Precedes(rows[1..][i + 1], rows[1..][i]) {
          assert !Precedes(rows[i + 2], rows[i + 1]);
        }
      }
      AscendingStays(rows[1..]);
      assert |rows| > 1 ==> !Precedes(rows[1], rows[0]);
      assert rows == [rows[0]] + rows[1..];
    }
  }

  /** Sorting leaves exactly the lists in display order, repeated rows included, as they are. */
  lemma SortKeepsExactlyAscending(rows: seq<Row>)
    ensures StableSort(ByBoth, rows) == rows <==> Ascends(rows)
  {
    SortAscends(rows);
    if Ascends(rows) {
      AscendingStays(rows);
    }
  }

  /** Whatever a repository answers: the page is made exactly if length, order, filters and byte budget hold. */
  lemma PageOutcome(f: Filters, limit: nat, rows: seq<Row>)
    requires limit >= 1
    ensures var shown := if |rows| <= limit then rows else rows[..limit];
            PageFrom(f, limit, rows) ==
            if && |rows| <= limit + 1 && Ascends(rows) && (forall i | 0 <= i < |rows| :: InFilter(rows[i], f))
               && Bytes(shown) <= 1_048_576
            then Ok(Page(shown, if |rows| == limit + 1 then Some(rows[limit - 1].problemId) else None))
            else Err(ValueError)
  {
    SortKeepsExactlyAscending(rows);
    forall i | 0 <= i < |rows| ensures Matches(rows[i], f) <==> InFilter(rows[i], f) {
      MatchesInFilter(rows[i], f);
    }
  }

  /** The byte count adds up the rows' sizes: it is additive, and a single row counts its own size. */
  lemma {:induction false} BytesAddUp(a: seq<Row>, b: seq<Row>)
    ensures Bytes(a + b) == Bytes(a) + Bytes(b)
    ensures |a| == 1 ==> Bytes(a) == a[0].sizeBytes
    ensures a == [] ==> Bytes(a) == 0
  {
    if a == [] {
      assert a + b == b;
    } else {
      BytesAddUp(a[1..], b);
      assert (a + b)[1..] == a[1..] + b;
    }
  }

  /** What is refused before the repository is asked for rows, and what is asked of it otherwise. */
  lemma ListOutcome(table: seq<Row>, f: Filters, cursor: Option<string>, limit: int)
    requires TableWellFormed(table)
    ensures var r := ListPage(table, f, cursor, limit);
            if limit < 1 || limit > 200 then r == Err(ValueError)
            else if cursor == None then r == PageFrom(f, limit, Take(View(table, f), limit + 1))
            else if forall row | row in table && InFilter(row, f) :: row.problemId != cursor.value then
              r == Err(CursorInvalid)
            else
              exists k | 0 < k <= |View(table, f)| ::
                && View(table, f)[k - 1].problemId == cursor.value
                && r == PageFrom(f, limit, Take(View(table, f)[k..], limit + 1))
  {
    if 1 <= limit <= 200 {
      if cursor == None {
        FirstPageIsFetched(table, f, limit);
        assert View(table, f)[0..] == View(table, f);
      } else if row :| row in table && InFilter(row, f) && row.problemId == cursor.value {
        MatchesInFilter(row, f);
        ViewSound(table, f);
        assert row in View(table, f);
        var k :| 0 <= k < |View(table, f)| && View(table, f)[k] == row;
        NextPageIsFetched(table, f, k + 1, limit, row);
      } else {
        forall r | r in table && Matches(r, f) ensures r.problemId != cursor.value {
          MatchesInFilter(r, f);
        }
        StrangeCursorRefused(table, f, cursor.value, limit);
      }
    }
  }
}
