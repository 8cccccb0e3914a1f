/** Offset pagination of the task history: the pages partition the listing. */
module Pagination {
  import opened Wrappers
  import opened TaskTable

  /** `offset(offset).limit(size)` */
  function Slice<T>(all: seq<T>, offset: nat, size: nat): seq<T> {
    if offset >= |all| then [] else if offset + size <= |all| then all[offset..offset + size] else all[offset..]
  }

  function Offset(page: nat, size: nat): nat
    requires page >= 1
  {
    (page - 1) * size
  }

  function Page<T>(all: seq<T>, page: nat, size: nat): seq<T>
    requires page >= 1 && size >= 1
  {
    Slice(all, Offset(page, size), size)
  }

  function TotalPages(total: nat, size: nat): nat
    requires size >= 1
  {
    if total > 0 then (total + size - 1) / size else 0
  }

  /** Pages 1 to n one after another. */
  function Concatenated<T>(all: seq<T>, size: nat, n: nat): seq<T>
    requires size >= 1
  {
    if n == 0 then [] else Concatenated(all, size, n - 1) + Page(all, n, size)
  }

  lemma {:induction false} ConcatenatedIsPrefix<T>(all: seq<T>, size: nat, n: nat)
    requires size >= 1
    ensures Concatenated(all, size, n) == if n * size <= |all| then all[..n * size] else all
  {
    if n > 0 {
      ConcatenatedIsPrefix(all, size, n - 1);
      assert n * size == (n - 1) * size + size;
    }
  }

  /** The reported number of pages is the least that covers the listing. */
  lemma TotalPagesCover(total: nat, size: nat)
    requires size >= 1
    ensures total <= TotalPages(total, size) * size < total + size
  {
    if total > 0 {
      var q := (total + size - 1) / size;
      assert total + size - 1 == q * size + (total + size - 1) % size;
    }
  }

  /** So many pages hold the listing, and one page fewer does not. */
  predicate LeastPages(total: nat, size: nat, pages: nat) {
    total <= pages * size < total + size
  }

  lemma TotalPagesAreLeast(total: nat, size: nat)
    requires size >= 1
    ensures LeastPages(total, size, TotalPages(total, size))
  {
    TotalPagesCover(total, size);
  }

  lemma Monotone(m: nat, n: nat, size: nat)
    requires m <= n
    ensures m * size <= n * size
  {
  }

  /** A page is empty exactly when its offset lies beyond the listing. */
  lemma EmptyPages<T>(all: seq<T>, page: nat, size: nat)
    requires size >= 1 && page >= 1
    ensures Page(all, page, size) == [] <==> page > TotalPages(|all|, size)
  {
    hide TotalPages;
    var n := TotalPages(|all|, size);
    TotalPagesCover(|all|, size);
    assert page * size == (page - 1) * size + size;
    if page > n {
      Monotone(n, page - 1, size);
    } else {
      Monotone(page, n, size);
    }
  }

  /** The reported pages, concatenated, are the listing; they are non-empty and all later ones are empty. */
  lemma PagesPartition<T>(all: seq<T>, size: nat)
    requires size >= 1
    ensures Concatenated(all, size, TotalPages(|all|, size)) == all
    ensures forall page | page >= 1 :: Page(all, page, size) == [] <==> page > TotalPages(|all|, size)
  {
    hide TotalPages, Page;
    TotalPagesCover(|all|, size);
    ConcatenatedIsPrefix(all, size, TotalPages(|all|, size));
    forall page | page >= 1
      ensures Page(all, page, size) == [] <==> page > TotalPages(|all|, size)
    {
      EmptyPages(all, page, size);
    }
  }

  /** The listing index i is shown on the page, at the place the page gives it. */
  predicate ShownOn(total: nat, size: nat, page: nat, i: nat) {
    page >= 1 && i < total && (page - 1) * size <= i < page * size
  }

  /** Every index is shown on exactly one page, and that page is a reported one. */
  lemma EachIndexOnOnePage(total: nat, size: nat, i: nat)
    requires size >= 1 && i < total
    ensures forall page | page >= 1 :: ShownOn(total, size, page, i) <==> page == i / size + 1
    ensures i / size + 1 <= TotalPages(total, size)
  {
    hide TotalPages;
    var q := i / size;
    assert i == q * size + i % size;
    assert (q + 1) * size == q * size + size;
    forall page | page >= 1
      ensures ShownOn(total, size, page, i) <==> page == q + 1
    {
      if page < q + 1 {
        Monotone(page, q, size);
      } else if page > q + 1 {
        Monotone(q + 1, page - 1, size);
      }
    }
    TotalPagesCover(total, size);
    if TotalPages(total, size) < q + 1 {
      Monotone(TotalPages(total, size), q, size);
    }
  }

  lemma SliceElement<T>(all: seq<T>, offset: nat, size: nat, j: nat)
    requires j < size && offset + j < |all|
    ensures j < |Slice(all, offset, size)| && Slice(all, offset, size)[j] == all[offset + j]
  {
  }

  /** The page of an index shows that very element, in its place. */
  lemma PageShowsElement<T>(all: seq<T>, size: nat, i: nat)
    requires size >= 1 && i < |all|
    ensures i % size < |Page(all, i / size + 1, size)|
    ensures Page(all, i / size + 1, size)[i % size] == all[i]
  {
    hide Slice;
    var q := i / size;
    assert i == q * size + i % size;
    SliceElement(all, q * size, size, i % size);
    assert q + 1 - 1 == q;
  }

  // ---------------------------------------------------------------- the endpoint

  /** `TaskStatus(text)`; an unknown text is ignored by the endpoint. */
  function ParseStatus(text: string): Option<TaskStatus> {
    if text == "pending" then Some(Pending)
    else if text == "running" then Some(Running)
    else if text == "completed" then Some(Completed)
    else if text == "failed" then Some(Failed)
    else if text == "cancelled" then Some(Cancelled)
    else None
  }

  /** Whether the endpoint shows a row under a filter. */
  predicate Wanted(row: TaskRow, wanted: Option<TaskStatus>) {
    wanted.None? || row.status == wanted.value
  }

  function Filtered(rows: Table, wanted: Option<TaskStatus>): Table {
    if rows == [] then []
    else Filtered(rows[..|rows| - 1], wanted) + if Wanted(rows[|rows| - 1], wanted) then [rows[|rows| - 1]] else []
  }

  /** The places of the wanted rows: ascending, and none is missing. */
  function Places(rows: Table, wanted: Option<TaskStatus>): (at: seq<nat>)
    ensures forall j | 0 <= j < |at| :: at[j] < |rows|
    ensures forall j, k | 0 <= j < k < |at| :: at[j] < at[k]
    ensures forall i :: i in at <==> 0 <= i < |rows| && Wanted(rows[i], wanted)
  {
    if rows == [] then []
    else Places(rows[..|rows| - 1], wanted) + if Wanted(rows[|rows| - 1], wanted) then [|rows| - 1] else []
  }

  lemma PlacesAreWanted(rows: Table, wanted: Option<TaskStatus>)
    ensures forall j | 0 <= j < |Places(rows, wanted)| :: Wanted(rows[Places(rows, wanted)[j]], wanted)
  {
    assert forall j | 0 <= j < |Places(rows, wanted)| :: Places(rows, wanted)[j] in Places(rows, wanted);
  }

  /** The filter keeps as many rows as it wants. */
  lemma {:induction false} FilterLength(rows: Table, wanted: Option<TaskStatus>)
    ensures |Filtered(rows, wanted)| == |Places(rows, wanted)|
    ensures |Filtered(rows, wanted)| == if wanted.Some? then CountByStatus(rows, wanted.value) else |rows|
  {
    if rows != [] {
      FilterLength(rows[..|rows| - 1], wanted);
    }
  }

  /** The filter keeps exactly the wanted rows, in listing order. */
  lemma {:induction false} FilterKeepsStatus(rows: Table, wanted: Option<TaskStatus>)
    ensures |Filtered(rows, wanted)| == |Places(rows, wanted)|
    ensures forall j | 0 <= j < |Places(rows, wanted)| :: Filtered(rows, wanted)[j] == rows[Places(rows, wanted)[j]]
  {
    FilterLength(rows, wanted);
    if rows != [] {
      var n := |rows| - 1;
      var init := rows[..n];
      FilterLength(init, wanted);
      FilterKeepsStatus(init, wanted);
      hide Wanted;
      var kept, at := Filtered(init, wanted), Places(init, wanted);
      forall j | 0 <= j < |Places(rows, wanted)|
        ensures Filtered(rows, wanted)[j] == rows[Places(rows, wanted)[j]]
      {
        if j < |at| {
          assert Places(rows, wanted)[j] == at[j];
          assert Filtered(rows, wanted)[j] == kept[j];
          assert init[at[j]] == rows[at[j]];
        }
      }
    }
  }

  lemma {:induction false} NoFilterKeepsAll(rows: Table)
    ensures Filtered(rows, None) == rows
  {
    if rows != [] {
      NoFilterKeepsAll(rows[..|rows| - 1]);
    }
  }

  /** Each wanted row is listed as often as it occurs, an unwanted one never. */
  lemma {:induction false} FilterKeepsMultiplicity(rows: Table, wanted: Option<TaskStatus>, row: TaskRow)
    ensures multiset(Filtered(rows, wanted))[row] == if Wanted(row, wanted) then multiset(rows)[row] else 0
  {
    hide Wanted;
    if rows != [] {
      FilterKeepsMultiplicity(rows[..|rows| - 1], wanted, row);
      assert rows == rows[..|rows| - 1] + [rows[|rows| - 1]];
    }
  }

  /** The number of rows on a page: full pages, then the remainder, then nothing. */
  lemma PageLength<T>(all: seq<T>, page: nat, size: nat)
    requires page >= 1 && size >= 1
    ensures |Page(all, page, size)| ==
              if page < TotalPages(|all|, size) then size
              else if page == TotalPages(|all|, size) then |all| - Offset(page, size)
              else 0
  {
    hide TotalPages;
    var n := TotalPages(|all|, size);
    TotalPagesCover(|all|, size);
    EmptyPages(all, page, size);
    assert page * size == (page - 1) * size + size;
    if page < n {
      Monotone(page, n - 1, size);
      assert (n - 1) * size == n * size - size;
    }
  }

  lemma EmptyFilter()
    ensures ParseStatus("").None?
  {
  }

  /** The places a filter text shows; an absent or unknown text shows all. */
  function PlacesShown(rows: Table, statusFilter: Option<string>): seq<nat> {
    Places(rows, if statusFilter.Some? then ParseStatus(statusFilter.value) else None)
  }

  /** Which text names which status. */
  ghost predicate Names(text: string, status: TaskStatus) {
    match status
    case Pending => text == "pending"
    case Running => text == "running"
    case Completed => text == "completed"
    case Failed => text == "failed"
    case Cancelled => text == "cancelled"
  }

  lemma ParseStatusNames(text: string)
    ensures forall status :: ParseStatus(text) == Some(status) <==> Names(text, status)
  {
  }

  /** The items are the rows at the places from the offset on. */
  predicate ShowsFrom(items: seq<TaskRow>, rows: Table, at: seq<nat>, offset: nat) {
    forall j | 0 <= j < |items| ::
      offset + j < |at| && at[offset + j] < |rows| && items[j] == rows[at[offset + j]]
  }

  lemma PageShowsPlaces(query: Table, rows: Table, at: seq<nat>, page: nat, size: nat)
    requires page >= 1 && size >= 1
    requires |at| == |query| && forall k | 0 <= k < |at| :: at[k] < |rows| && query[k] == rows[at[k]]
    ensures ShowsFrom(Page(query, page, size), rows, at, Offset(page, size))
  {
    hide Offset;
  }

  /**
   * `list_task_history` on a snapshot of the rows in listing order: the item in place j is the
   * wanted row number (page - 1) * pageSize + j, counted in listing order.
   */
  method ListTaskHistory(rows: Table, statusFilter: Option<string>, page: nat, pageSize: nat)
    returns (items: seq<TaskRow>, total: nat, totalPages: nat)
    requires page >= 1 && pageSize >= 1
    ensures total == |PlacesShown(rows, statusFilter)|
    ensures LeastPages(total, pageSize, totalPages)
    ensures |items| == if page < totalPages then pageSize
                       else if page == totalPages then total - Offset(page, pageSize)
                       else 0
    ensures items == [] <==> page > totalPages
    ensures ShowsFrom(items, rows, PlacesShown(rows, statusFilter), Offset(page, pageSize))
    ensures statusFilter.None? || (forall status :: !Names(statusFilter.value, status)) ==>
              total == |rows| && items == Page(rows, page, pageSize)
    ensures forall status | statusFilter.Some? && Names(statusFilter.value, status) ::
              total == CountByStatus(rows, status) && forall row | row in items :: row.status == status
  {
    hide Filtered, Page, TotalPages, Places, ParseStatus, Offset, LeastPages;
    var wanted := None;
    if statusFilter.Some? && statusFilter.value != "" {
      wanted := ParseStatus(statusFilter.value);
    }
    EmptyFilter();
    if statusFilter.Some? {
      ParseStatusNames(statusFilter.value);
    }
    var query := Filtered(rows, wanted);
    total := |query|;
    items := Page(query, page, pageSize);
    totalPages := TotalPages(total, pageSize);
    FilterKeepsStatus(rows, wanted);
    NoFilterKeepsAll(rows);
    FilterLength(rows, wanted);
    PlacesAreWanted(rows, wanted);
    PageLength(query, page, pageSize);
    TotalPagesAreLeast(total, pageSize);
    EmptyPages(query, page, pageSize);
    PageShowsPlaces(query, rows, Places(rows, wanted), page, pageSize);
  }
}
