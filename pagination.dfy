/** The `usePagination` hook: a list is shown one page of `itemsPerPage` items at a
    time, and an effect pulls the current page back into range whenever the list
    shrinks or the page leaves it. The same hook is copied verbatim into the deal list. */
module Pagination {
  import opened Js

  /** The page size used when the caller gives none. */
  const DefaultItemsPerPage: nat := 10

  /** `Math.ceil(length / itemsPerPage)`: the fewest pages of `perPage` items that hold
      `length` items. */
  function TotalPages(length: nat, perPage: nat): (r: nat)
    requires perPage > 0
    ensures r * perPage >= length
    ensures r > 0 ==> (r - 1) * perPage < length
    ensures r == 0 <==> length == 0
  {
    var r := (length + perPage - 1) / perPage;
    assert r * perPage + (length + perPage - 1) % perPage == length + perPage - 1;
    r
  }

  /** `data.slice((page - 1) * perPage, page * perPage)`. */
  function PageOf<T>(data: seq<T>, page: int, perPage: nat): (r: seq<T>)
    requires perPage > 0
    ensures page >= 1 ==> |r| <= perPage
  {
    var r := Slice(data, (page - 1) * perPage, page * perPage);
    if page >= 1 then
      SliceInRange(data, (page - 1) * perPage, page * perPage);
      r
    else r
  }

  function Min(a: int, b: int): int { if a <= b then a else b }

  /** From page 1 on, a page is the stretch of items between its two boundaries,
      each cut back to the length of the list. */
  lemma PageContents<T>(data: seq<T>, page: int, perPage: nat)
    requires perPage > 0 && page >= 1
    ensures PageOf(data, page, perPage)
         == data[Min((page - 1) * perPage, |data|)..Min(page * perPage, |data|)]
  {
    SliceInRange(data, (page - 1) * perPage, page * perPage);
  }

  /** Each page in range is non-empty, and only the last may be short. */
  lemma PageInRange<T>(data: seq<T>, page: int, perPage: nat)
    requires perPage > 0 && 1 <= page <= TotalPages(|data|, perPage)
    ensures PageOf(data, page, perPage) != []
    ensures page < TotalPages(|data|, perPage) ==> |PageOf(data, page, perPage)| == perPage
  {
    var n := TotalPages(|data|, perPage);
    PageContents(data, page, perPage);
    PageBounds(page, n, perPage, |data|);
  }

  /** The arithmetic behind `PageInRange`: a page in range starts before the end, and
      a page before the last ends before the end. */
  lemma PageBounds(page: int, n: int, k: nat, length: nat)
    requires 1 <= page <= n && (n - 1) * k < length
    ensures (page - 1) * k < length
    ensures page < n ==> page * k < length
    ensures page * k == (page - 1) * k + k
  {
    MulMonotone(page - 1, n - 1, k);
    if page < n {
      MulMonotone(page, n - 1, k);
    }
  }

  /** Multiplying by a non-negative factor keeps the order. */
  lemma MulMonotone(a: int, b: int, k: nat)
    requires a <= b
    ensures a * k <= b * k
  {
  }

  /** Pages 1 to `n`, one after the other. */
  function Pages<T>(data: seq<T>, perPage: nat, n: nat): seq<T>
    requires perPage > 0
  {
    if n == 0 then [] else Pages(data, perPage, n - 1) + PageOf(data, n, perPage)
  }

  /** The first `n` pages together are the list up to the end of page `n`. */
  lemma {:induction false} PagesPrefix<T>(data: seq<T>, perPage: nat, n: nat)
    requires perPage > 0
    ensures Pages(data, perPage, n) == data[..Min(n * perPage, |data|)]
  {
    if n > 0 {
      PagesPrefix(data, perPage, n - 1);
      PageContents(data, n, perPage);
      assert (n - 1) * perPage <= n * perPage;
    }
  }

  /** Reading every page from 1 to `totalPages` in order gives back the whole list,
      with nothing lost or repeated. */
  lemma PagesCoverData<T>(data: seq<T>, perPage: nat)
    requires perPage > 0
    ensures Pages(data, perPage, TotalPages(|data|, perPage)) == data
  {
    PagesPrefix(data, perPage, TotalPages(|data|, perPage));
  }

  /** The hook's state: the current page of one list, and its page size. */
  class PageState {
    var currentPage: int
    const itemsPerPage: nat

    /** `usePagination(data, itemsPerPage)`: the page starts at 1. */
    constructor (itemsPerPage: nat)
      requires itemsPerPage > 0
      ensures this.itemsPerPage == itemsPerPage && currentPage == 1
    {
      this.itemsPerPage := itemsPerPage;
      currentPage := 1;
    }

    /** The slice of `data` the hook returns for the current page. */
    function Page<T>(data: seq<T>): seq<T>
      reads this
      requires itemsPerPage > 0
    {
      PageOf(data, currentPage, itemsPerPage)
    }

    /** No branch of the clamping effect fires for a list of `length` items. */
    predicate Settled(length: nat)
      reads this
      requires itemsPerPage > 0
    {
      var n := TotalPages(length, itemsPerPage);
      n == 0 || 1 <= currentPage <= n
    }

    /** `setCurrentPage(p)`, as the paginator calls it. */
    method SetPage(p: int)
      modifies this
      ensures currentPage == p
    {
      currentPage := p;
    }

    /** The effect that runs when the length, the page count or the page changes: a
        page past the end goes to the last page, a page before the first goes to the
        first, and a page in range, or any page of an empty list, is kept. Its third
        branch (a non-empty list on page 0) is never reached, since page 0 is already
        caught by the second. */
    method Clamp(length: nat)
      requires itemsPerPage > 0
      modifies this
      ensures var n := TotalPages(length, itemsPerPage);
        && (old(currentPage) > n && n > 0 ==> currentPage == n)
        && (old(currentPage) < 1 && n > 0 ==> currentPage == 1)
        && (n == 0 || 1 <= old(currentPage) <= n ==> currentPage == old(currentPage))
      ensures Settled(length)
    {
      var n := TotalPages(length, itemsPerPage);
      if currentPage > n && n > 0 {
        currentPage := n;
      } else if currentPage < 1 && n > 0 {
        currentPage := 1;
      } else if length > 0 && n > 0 && currentPage == 0 {
        assert false;
      }
    }
  }
}
