/** The pager under the games list (Pagination.tsx): nothing for a single page, a
    sliding window of at most five page numbers around the current page, and the
    four navigation buttons with their guards and disabled states. */
module Pagination {
  import opened Wrappers

  /** The most page numbers the window shows. */
  const MaxVisible := 5

  function Max(a: int, b: int): int {
    if a >= b then a else b
  }

  function Min(a: int, b: int): int {
    if a <= b then a else b
  }

  /** The component renders at all. */
  predicate Rendered(totalPages: int) {
    totalPages > 1
  }

  /** Every page number is one more than the one before it. */
  predicate Consecutive(pages: seq<int>) {
    forall i :: 0 <= i < |pages| ==> pages[i] == pages[0] + i
  }

  /** `getPageNumbers()`. */
  method GetPageNumbers(currentPage: int, totalPages: int) returns (pages: seq<int>)
    ensures Consecutive(pages)
    ensures forall i :: 0 <= i < |pages| ==> 1 <= pages[i] <= totalPages
    ensures |pages| <= MaxVisible
    ensures 1 <= currentPage <= totalPages ==>
      currentPage in pages && |pages| == Min(MaxVisible, totalPages)
    ensures currentPage > totalPages >= 1 ==>
      |pages| == Min(MaxVisible, totalPages) && pages[|pages| - 1] == totalPages
    ensures pages == [] <==> totalPages < 1
    ensures totalPages >= 1 ==> |pages| == Min(MaxVisible, totalPages)
    ensures pages != [] ==>
      pages[0] == Max(1, Min(currentPage - MaxVisible / 2, totalPages - MaxVisible + 1))
  {
    var start := Max(1, currentPage - MaxVisible / 2);
    var end := Min(totalPages, start + MaxVisible - 1);
    if end - start + 1 < MaxVisible {
      start := Max(1, end - MaxVisible + 1);
    }
    assert 1 <= start && end <= totalPages;
    assert 1 <= currentPage <= totalPages ==> start <= currentPage <= end;
    assert 1 <= currentPage <= totalPages ==> end - start + 1 == Min(MaxVisible, totalPages);
    assert totalPages >= 1 ==> end - start + 1 == Min(MaxVisible, totalPages);
    assert totalPages < 1 ==> end < start;
    assert start == Max(1, Min(currentPage - MaxVisible / 2, totalPages - MaxVisible + 1));
    pages := [];
    var i := start;
    while i <= end
      invariant start <= i <= Max(start, end + 1)
      invariant |pages| == i - start
      invariant forall k :: 0 <= k < |pages| ==> pages[k] == start + k
    {
      pages := pages + [i];
      i := i + 1;
    }
    if 1 <= currentPage <= totalPages {
      assert pages[currentPage - start] == currentPage;
    }
  }

  /** `handlePrev`: the page asked for, if any. */
  function HandlePrev(currentPage: int): (r: Option<int>)
    ensures r.Some? <==> currentPage > 1
    ensures r.Some? ==> r.value == currentPage - 1 && r.value >= 1
  {
    if currentPage > 1 then Some(currentPage - 1) else None
  }

  /** `handleNext`: the page asked for, if any. */
  function HandleNext(currentPage: int, totalPages: int): (r: Option<int>)
    ensures r.Some? <==> currentPage < totalPages
    ensures r.Some? ==> r.value == currentPage + 1 && r.value <= totalPages
  {
    if currentPage < totalPages then Some(currentPage + 1) else None
  }

  /** Whenever the pager is shown, on a page within range, some navigation button asks
      for a page. */
  lemma RenderedCanMove(currentPage: int, totalPages: int)
    requires Rendered(totalPages) && 1 <= currentPage <= totalPages
    ensures HandlePrev(currentPage).Some? || HandleNext(currentPage, totalPages).Some?
  {
  }

  /** First and Prev are disabled on page 1 and while loading. */
  predicate BackDisabled(currentPage: int, isLoading: bool) {
    currentPage == 1 || isLoading
  }

  /** Next and Last are disabled on the last page and while loading. */
  predicate ForwardDisabled(currentPage: int, totalPages: int, isLoading: bool) {
    currentPage == totalPages || isLoading
  }

  /** On a page within range and while not loading, a button is disabled exactly when
      its handler would ask for nothing, and an enabled one asks for a page in range. */
  lemma ButtonsMatchHandlers(currentPage: int, totalPages: int)
    requires 1 <= currentPage <= totalPages
    ensures BackDisabled(currentPage, false) <==> HandlePrev(currentPage).None?
    ensures ForwardDisabled(currentPage, totalPages, false) <==> HandleNext(currentPage, totalPages).None?
    ensures HandlePrev(currentPage).Some? ==> 1 <= HandlePrev(currentPage).value <= totalPages
    ensures HandleNext(currentPage, totalPages).Some? ==> 1 <= HandleNext(currentPage, totalPages).value <= totalPages
  {
  }
}
