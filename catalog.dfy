/**
 * The book records of the catalog store and the parts of the store's query
 * semantics the handlers rely on: date comparison, the sort orders they ask
 * for, and `skip`/`limit`.
 */
module Catalog {
  import opened Wrappers
  import Sorting

  /** A calendar date; months and days count from 1. */
  datatype Date = Date(year: int, month: int, day: int)

  /** Chronological order of dates. */
  predicate DateLe(a: Date, b: Date) {
    a.year < b.year
    || (a.year == b.year && (a.month < b.month || (a.month == b.month && a.day <= b.day)))
  }

  /**
   * A stored book. `title` and `authorName` are required by the store's
   * schema; the other descriptive fields may be missing. `id` and
   * `createdAt` are the store's identifier and creation timestamp.
   */
  datatype Book = Book(
    id: nat,
    title: string,
    authorName: string,
    publishedDate: Option<Date>,
    publisher: Option<string>,
    genre: Option<string>,
    price: Option<real>,
    stockCount: int,
    overview: Option<string>,
    posterUrl: Option<string>,
    createdAt: int)

  /** The store: its records, and whether a connection can be made to it. */
  datatype Store = Store(books: seq<Book>, online: bool)

  /** `{ publishedDate: -1 }`: latest first; a record with no date sorts after every dated one. */
  predicate PublishedDesc(a: Book, b: Book) {
    match (a.publishedDate, b.publishedDate)
    case (_, None) => true
    case (None, Some(_)) => false
    case (Some(x), Some(y)) => DateLe(y, x)
  }

  /** `{ createdAt: -1 }`: newest first. */
  predicate CreatedDesc(a: Book, b: Book) {
    a.createdAt >= b.createdAt
  }

  /** `{ createdAt: -1, _id: 1 }`: newest first, ties broken by ascending id. */
  predicate CreatedDescIdAsc(a: Book, b: Book) {
    a.createdAt > b.createdAt || (a.createdAt == b.createdAt && a.id <= b.id)
  }

  lemma PublishedDescIsTotalPreorder()
    ensures Sorting.TotalPreorder(PublishedDesc)
  {
  }

  lemma CreatedDescIsTotalPreorder()
    ensures Sorting.TotalPreorder(CreatedDesc)
  {
  }

  lemma CreatedDescIdAscIsTotalPreorder()
    ensures Sorting.TotalPreorder(CreatedDescIdAsc)
  {
  }

  /**
   * `.skip(skip).limit(limit)` on an ordered result: a negative skip is
   * refused by the store, a limit of 0 means no limit and a negative limit
   * counts as its absolute value.
   */
  function SkipLimit<T>(s: seq<T>, skip: int, limit: int): (r: Result<seq<T>, string>)
    ensures skip < 0 <==> r.Failure?
    ensures r.Success? ==> |r.value| == Min(|s| - Min(skip, |s|), if limit == 0 then |s| else Abs(limit))
    ensures r.Success? ==> r.value == s[Min(skip, |s|)..Min(skip, |s|) + |r.value|]
  {
    if skip < 0 then Failure("skip value must be non-negative")
    else
      var rest := s[Min(skip, |s|)..];
      var n := if limit == 0 then |rest| else Min(Abs(limit), |rest|);
      Success(rest[..n])
  }

  function Min(a: int, b: int): int { if a <= b then a else b }

  function Abs(a: int): nat { if a < 0 then -a else a }
}
