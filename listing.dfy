/**
 * The paginated catalog listing: count the books, order them, skip the
 * pages before the requested one, take one page, and report the page
 * numbers. The service, both book endpoints and the controller share it;
 * they differ only in the order and the default page size.
 */
module Listing {
  import opened Wrappers
  import opened Catalog
  import opened Pagination
  import opened Http
  import Sorting

  /** `countDocuments()` alongside `find({}).sort(order).skip(skip).limit(limit)`, as a page envelope. */
  function ListPage(books: seq<Book>, order: (Book, Book) -> bool, page: int, limit: int): (r: Result<Page, string>)
    requires limit != 0
    ensures r.Failure? <==> Skip(page, limit) < 0
    ensures r.Success? ==>
      && r.value.currentPage == page
      && r.value.totalBooks == |books|
      && r.value.totalPages == TotalPages(|books|, limit)
      && SkipLimit(Sorting.SortBy(books, order), Skip(page, limit), limit) == Success(r.value.data)
  {
    match SkipLimit(Sorting.SortBy(books, order), Skip(page, limit), limit)
    case Failure(e) => Failure(e)
    case Success(data) => Success(Page(data, page, TotalPages(|books|, limit), |books|))
  }

  /** Positions `(page - 1) * limit` up to `page * limit` of `s`, cut at its end. */
  function Window<T>(s: seq<T>, page: nat, limit: nat): (r: seq<T>)
    requires page >= 1
    ensures |r| <= limit
  {
    var lo := Min(Skip(page, limit), |s|);
    PageStartNat(page, limit);
    s[lo..Min(Skip(page, limit) + limit, |s|)]
  }

  lemma PageStartNat(page: nat, limit: nat)
    requires page >= 1
    ensures Skip(page, limit) >= 0
  {
    if limit >= 1 {
      PageStart(0, limit, page);
    }
  }

  /** With a non-negative skip and a positive limit, the store returns positions skip..skip+limit. */
  lemma SkipLimitWindow<T>(s: seq<T>, skip: int, limit: int)
    requires skip >= 0 && limit >= 1
    ensures SkipLimit(s, skip, limit) == Success(s[Min(skip, |s|)..Min(skip + limit, |s|)])
  {
  }

  /**
   * For a page from 1 and a positive limit, the listing succeeds and its
   * data is that page's window of the ordered catalog: at most `limit`
   * books, non-empty exactly when the page is one of 1..totalPages.
   */
  lemma PageIsWindow(books: seq<Book>, order: (Book, Book) -> bool, page: int, limit: int)
    requires page >= 1 && limit >= 1
    ensures ListPage(books, order, page, limit).Success?
    ensures ListPage(books, order, page, limit).value.data == Window(Sorting.SortBy(books, order), page, limit)
    ensures ListPage(books, order, page, limit).value.data != [] <==> page <= TotalPages(|books|, limit)
  {
    var s := Sorting.SortBy(books, order);
    assert |s| == |books|;
    WindowIsCut(s, page, limit);
  }

  /** The store's skip/limit cut for a page is its window, which is non-empty exactly on pages 1..TotalPages. */
  lemma WindowIsCut<T>(s: seq<T>, page: int, limit: int)
    requires page >= 1 && limit >= 1
    ensures SkipLimit(s, Skip(page, limit), limit) == Success(Window(s, page, limit))
    ensures Window(s, page, limit) != [] <==> page <= TotalPages(|s|, limit)
  {
    var skip := Skip(page, limit);
    PageStart(|s|, limit, page);
    SkipLimitWindow(s, skip, limit);
    var w := Window(s, page, limit);
    assert w == s[Min(skip, |s|)..Min(skip + limit, |s|)];
    assert |w| == Min(skip + limit, |s|) - Min(skip, |s|);
  }

  /** Windows 1..k of `s`, one after another. */
  function Windows<T>(s: seq<T>, limit: nat, k: nat): seq<T>
  {
    if k == 0 then [] else Windows(s, limit, k - 1) + Window(s, k, limit)
  }

  lemma {:induction false} WindowsArePrefix<T>(s: seq<T>, limit: nat, k: nat)
    requires limit >= 1
    ensures 0 <= k * limit
    ensures Windows(s, limit, k) == s[..Min(k * limit, |s|)]
  {
    MulMono(0, k, limit);
    if k > 0 {
      WindowsArePrefix(s, limit, k - 1);
      PageStart(|s|, limit, k);
      var lo, hi := Min((k - 1) * limit, |s|), Min(k * limit, |s|);
      assert Window(s, k, limit) == s[lo..hi];
      assert s[..lo] + s[lo..hi] == s[..hi];
    }
  }

  /**
   * Reading pages 1..totalPages in turn gives the whole catalog in listing
   * order: every book once, nothing else, and in order.
   */
  lemma PagesCoverCatalog(books: seq<Book>, order: (Book, Book) -> bool, limit: int)
    requires limit >= 1
    requires Sorting.TotalPreorder(order)
    ensures TotalPages(|books|, limit) >= 0
    ensures forall p :: 1 <= p <= TotalPages(|books|, limit) ==>
      && ListPage(books, order, p, limit).Success?
      && ListPage(books, order, p, limit).value.data == Window(Sorting.SortBy(books, order), p, limit)
    ensures Windows(Sorting.SortBy(books, order), limit, TotalPages(|books|, limit)) == Sorting.SortBy(books, order)
    ensures multiset(Sorting.SortBy(books, order)) == multiset(books)
    ensures Sorting.SortedBy(Sorting.SortBy(books, order), order)
  {
    var s := Sorting.SortBy(books, order);
    var tp := TotalPages(|books|, limit);
    forall p | 1 <= p <= tp
      ensures ListPage(books, order, p, limit).Success?
      ensures ListPage(books, order, p, limit).value.data == Window(s, p, limit)
    {
      PageIsWindow(books, order, p, limit);
    }
    WindowsArePrefix(s, limit, tp);
    assert s[..|s|] == s;
    Sorting.SortBySorted(books, order);
  }

  /** A page past the last one is empty, and so is every page of an empty catalog. */
  lemma PastLastPageEmpty(books: seq<Book>, order: (Book, Book) -> bool, page: int, limit: int)
    requires page >= 1 && limit >= 1 && page > TotalPages(|books|, limit)
    ensures ListPage(books, order, page, limit) == Success(Page([], page, TotalPages(|books|, limit), |books|))
  {
    PageIsWindow(books, order, page, limit);
  }

  /** The service's `getBooks`: the listing in order of creation, newest first, ties by id. */
  function GetBooks(books: seq<Book>, page: int, limit: int): (r: Result<Page, string>)
    requires limit != 0
    ensures r.Failure? <==> Skip(page, limit) < 0
    ensures page >= 1 && limit >= 1 ==>
      && r.Success?
      && r.value == Page(Window(Sorting.SortBy(books, CreatedDescIdAsc), page, limit), page, TotalPages(|books|, limit), |books|)
  {
    var r := ListPage(books, CreatedDescIdAsc, page, limit);
    if page >= 1 && limit >= 1 then
      PageIsWindow(books, CreatedDescIdAsc, page, limit);
      r
    else r
  }
}
