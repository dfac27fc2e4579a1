/**
 * The `searchBooks` tool of the natural-language search: it turns optional
 * filter arguments into store query conditions, runs the query (matches
 * sorted by published date, latest first, at most ten) and wraps the
 * matches in a result envelope.
 */
module SearchTool {
  import opened Wrappers
  import opened Catalog
  import Sorting

  /** At most this many books are returned by one search. */
  const MaxResults: nat := 10

  /** The `publishedDate` argument: a range of years, either end optional. */
  datatype YearRange = YearRange(from: Option<int>, to: Option<int>)

  /** The tool's arguments, each optional. */
  datatype SearchArgs = SearchArgs(
    title: Option<string>,
    authorName: Option<string>,
    genre: Option<string>,
    publisher: Option<string>,
    publishedDate: Option<YearRange>)

  /** JavaScript truthiness of an optional string: present and not empty. */
  predicate Given(s: Option<string>) {
    s.Some? && s.value != ""
  }

  /** JavaScript truthiness of an optional year: present and not 0. */
  predicate GivenYear(y: Option<int>) {
    y.Some? && y.value != 0
  }

  /** `new Date(y, ...)` reads the years 0..99 as 1900..1999. */
  function CalendarYear(y: int): int {
    if 0 <= y <= 99 then 1900 + y else y
  }

  /** `new Date(y, 0, 1)` */
  function FirstDayOf(y: int): Date {
    Date(CalendarYear(y), 1, 1)
  }

  /** `new Date(y, 11, 31)` */
  function LastDayOf(y: int): Date {
    Date(CalendarYear(y), 12, 31)
  }

  // ---------------------------------------------------------------------
  // Case-insensitive matching (the store's `$regex` with option "i", on
  // patterns without metacharacters)

  function LowerChar(c: char): char {
    if 'A' <= c <= 'Z' then (c as int + 32) as char else c
  }

  function Lower(s: string): (r: string)
    ensures |r| == |s|
    ensures forall i :: 0 <= i < |s| ==> r[i] == LowerChar(s[i])
  {
    if s == [] then [] else [LowerChar(s[0])] + Lower(s[1..])
  }

  predicate OccursAt(text: string, pattern: string, i: int) {
    0 <= i && i + |pattern| <= |text| && text[i..i + |pattern|] == pattern
  }

  predicate ContainsIgnoreCase(text: string, pattern: string) {
    exists i | 0 <= i <= |text| - |pattern| :: OccursAt(Lower(text), Lower(pattern), i)
  }

  // ---------------------------------------------------------------------
  // Query conditions, as the handler assembles them

  datatype Field = TitleField | AuthorNameField | GenreField | PublisherField | PublishedDateField

  /** `{ $regex: p, $options: "i" }` or `{ $gte: lo, $lte: hi }` with either bound optional. */
  datatype Condition = Regex(pattern: string) | DateRange(gte: Option<Date>, lte: Option<Date>)

  type Query = map<Field, Condition>

  /** The value a record holds in a queried field. */
  datatype FieldValue = Text(s: string) | When(d: Date) | Missing

  function ValueOf(b: Book, f: Field): FieldValue {
    match f
    case TitleField => Text(b.title)
    case AuthorNameField => Text(b.authorName)
    case GenreField => if b.genre.Some? then Text(b.genre.value) else Missing
    case PublisherField => if b.publisher.Some? then Text(b.publisher.value) else Missing
    case PublishedDateField => if b.publishedDate.Some? then When(b.publishedDate.value) else Missing
  }

  predicate Holds(c: Condition, v: FieldValue) {
    match c
    case Regex(p) => v.Text? && ContainsIgnoreCase(v.s, p)
    case DateRange(lo, hi) =>
      v.When? && (lo.Some? ==> DateLe(lo.value, v.d)) && (hi.Some? ==> DateLe(v.d, hi.value))
  }

  /** A record satisfies a query when it satisfies every condition in it. */
  predicate Satisfies(b: Book, q: Query) {
    forall f | f in q :: Holds(q[f], ValueOf(b, f))
  }

  // ---------------------------------------------------------------------
  // What a filter means, stated field by field

  predicate TextMatches(arg: Option<string>, value: Option<string>) {
    Given(arg) ==> value.Some? && ContainsIgnoreCase(value.value, arg.value)
  }

  predicate DateMatches(range: Option<YearRange>, date: Option<Date>) {
    && (range.Some? && GivenYear(range.value.from) ==>
          date.Some? && DateLe(FirstDayOf(range.value.from.value), date.value))
    && (range.Some? && GivenYear(range.value.to) ==>
          date.Some? && DateLe(date.value, LastDayOf(range.value.to.value)))
  }

  /**
   * A book matches the filter when each given text argument occurs in the
   * same-named field, ignoring case, and its published date lies on or
   * after January 1 of a given `from` year and on or before December 31 of
   * a given `to` year.
   */
  predicate MatchesFilter(b: Book, a: SearchArgs) {
    && TextMatches(a.title, Some(b.title))
    && TextMatches(a.authorName, Some(b.authorName))
    && TextMatches(a.genre, b.genre)
    && TextMatches(a.publisher, b.publisher)
    && DateMatches(a.publishedDate, b.publishedDate)
  }

  predicate YearGiven(a: SearchArgs) {
    a.publishedDate.Some? && (GivenYear(a.publishedDate.value.from) || GivenYear(a.publishedDate.value.to))
  }

  /**
   * Assembles the query conditions one field at a time: a condition for
   * each given text argument, and a date condition whose bounds are the
   * given ends of the year range.
   */
  method BuildQuery(a: SearchArgs) returns (q: Query)
    ensures TitleField in q <==> Given(a.title)
    ensures TitleField in q ==> q[TitleField] == Regex(a.title.value)
    ensures AuthorNameField in q <==> Given(a.authorName)
    ensures AuthorNameField in q ==> q[AuthorNameField] == Regex(a.authorName.value)
    ensures GenreField in q <==> Given(a.genre)
    ensures GenreField in q ==> q[GenreField] == Regex(a.genre.value)
    ensures PublisherField in q <==> Given(a.publisher)
    ensures PublisherField in q ==> q[PublisherField] == Regex(a.publisher.value)
    ensures PublishedDateField in q <==> YearGiven(a)
    ensures PublishedDateField in q ==>
      var r := a.publishedDate.value;
      q[PublishedDateField] == DateRange(
        if GivenYear(r.from) then Some(FirstDayOf(r.from.value)) else None,
        if GivenYear(r.to) then Some(LastDayOf(r.to.value)) else None)
    ensures forall b :: Satisfies(b, q) <==> MatchesFilter(b, a)
  {
    q := map[];
    if Given(a.title) {
      q := q[TitleField := Regex(a.title.value)];
    }
    if Given(a.authorName) {
      q := q[AuthorNameField := Regex(a.authorName.value)];
    }
    if Given(a.genre) {
      q := q[GenreField := Regex(a.genre.value)];
    }
    if Given(a.publisher) {
      q := q[PublisherField := Regex(a.publisher.value)];
    }
    if a.publishedDate.Some? {
      var r := a.publishedDate.value;
      if GivenYear(r.from) && GivenYear(r.to) {
        q := q[PublishedDateField := DateRange(Some(FirstDayOf(r.from.value)), Some(LastDayOf(r.to.value)))];
      } else if GivenYear(r.from) {
        q := q[PublishedDateField := DateRange(Some(FirstDayOf(r.from.value)), None)];
      } else if GivenYear(r.to) {
        q := q[PublishedDateField := DateRange(None, Some(LastDayOf(r.to.value)))];
      }
    }
    forall b: Book ensures Satisfies(b, q) <==> MatchesFilter(b, a) {
      SatisfiesByField(b, q, a);
    }
  }

  lemma SatisfiesByField(b: Book, q: Query, a: SearchArgs)
    requires TitleField in q <==> Given(a.title)
    requires TitleField in q ==> q[TitleField] == Regex(a.title.value)
    requires AuthorNameField in q <==> Given(a.authorName)
    requires AuthorNameField in q ==> q[AuthorNameField] == Regex(a.authorName.value)
    requires GenreField in q <==> Given(a.genre)
    requires GenreField in q ==> q[GenreField] == Regex(a.genre.value)
    requires PublisherField in q <==> Given(a.publisher)
    requires PublisherField in q ==> q[PublisherField] == Regex(a.publisher.value)
    requires PublishedDateField in q <==> YearGiven(a)
    requires PublishedDateField in q ==>
      var r := a.publishedDate.value;
      q[PublishedDateField] == DateRange(
        if GivenYear(r.from) then Some(FirstDayOf(r.from.value)) else None,
        if GivenYear(r.to) then Some(LastDayOf(r.to.value)) else None)
    ensures Satisfies(b, q) <==> MatchesFilter(b, a)
  {
    SatisfiesEachField(b, q);
    TextFieldAgrees(b, q, TitleField, a.title, Some(b.title));
    TextFieldAgrees(b, q, AuthorNameField, a.authorName, Some(b.authorName));
    TextFieldAgrees(b, q, GenreField, a.genre, b.genre);
    TextFieldAgrees(b, q, PublisherField, a.publisher, b.publisher);
    DateFieldAgrees(b, q, a);
  }

  /** A query holds for a record exactly when each of the five fields' conditions does. */
  lemma SatisfiesEachField(b: Book, q: Query)
    ensures Satisfies(b, q) <==>
      && FieldHolds(b, q, TitleField) && FieldHolds(b, q, AuthorNameField)
      && FieldHolds(b, q, GenreField) && FieldHolds(b, q, PublisherField)
      && FieldHolds(b, q, PublishedDateField)
  {
    if forall f :: FieldHolds(b, q, f) {
      forall f | f in q ensures Holds(q[f], ValueOf(b, f)) {
        assert FieldHolds(b, q, f);
      }
    }
    if Satisfies(b, q) {
      forall f ensures FieldHolds(b, q, f) {
      }
    }
  }

  /** The query's condition on field `f`, if it has one, holds for `b`. */
  predicate FieldHolds(b: Book, q: Query, f: Field) {
    f in q ==> Holds(q[f], ValueOf(b, f))
  }

  lemma TextFieldAgrees(b: Book, q: Query, f: Field, arg: Option<string>, value: Option<string>)
    requires f in q <==> Given(arg)
    requires f in q ==> q[f] == Regex(arg.value)
    requires ValueOf(b, f) == if value.Some? then Text(value.value) else Missing
    ensures FieldHolds(b, q, f) <==> TextMatches(arg, value)
  {
  }

  lemma DateFieldAgrees(b: Book, q: Query, a: SearchArgs)
    requires PublishedDateField in q <==> YearGiven(a)
    requires PublishedDateField in q ==>
      var r := a.publishedDate.value;
      q[PublishedDateField] == DateRange(
        if GivenYear(r.from) then Some(FirstDayOf(r.from.value)) else None,
        if GivenYear(r.to) then Some(LastDayOf(r.to.value)) else None)
    ensures FieldHolds(b, q, PublishedDateField) <==> DateMatches(a.publishedDate, b.publishedDate)
  {
  }

  // ---------------------------------------------------------------------
  // The store query and the envelope

  /** The records the store selects for a query, in store order. */
  function Select(books: seq<Book>, q: Query): (r: seq<Book>)
    ensures |r| <= |books|
  {
    if books == [] then []
    else (if Satisfies(books[0], q) then [books[0]] else []) + Select(books[1..], q)
  }

  /** The records matching a filter, in store order. */
  function Matching(books: seq<Book>, a: SearchArgs): (r: seq<Book>)
    ensures |r| <= |books|
  {
    if books == [] then []
    else (if MatchesFilter(books[0], a) then [books[0]] else []) + Matching(books[1..], a)
  }

  /**
   * `.find(q).sort({ publishedDate: -1 }).limit(10)`: ten of the selected
   * records, or all of them if fewer, latest first, and no selected record
   * left out is later than one returned.
   */
  function Find(books: seq<Book>, q: Query): (r: seq<Book>)
    ensures |r| == Min(|Select(books, q)|, MaxResults)
    ensures forall b :: b in r ==> b in books && Satisfies(b, q)
    ensures Sorting.SortedBy(r, PublishedDesc)
    ensures multiset(r) <= multiset(Select(books, q))
    ensures forall x, y :: x in r && y in multiset(Select(books, q)) - multiset(r) ==> PublishedDesc(x, y)
  {
    var m := Select(books, q);
    var sorted := Sorting.SortBy(m, PublishedDesc);
    var n := Min(|sorted|, MaxResults);
    SelectSound(books, q);
    PublishedDescIsTotalPreorder();
    Sorting.SortBySorted(m, PublishedDesc);
    CutOfPermutation(m, sorted, n);
    Sorting.SortedCut(sorted, n, PublishedDesc);
    SelectedCut(books, q, sorted, n);
    sorted[..n]
  }

  lemma SelectedCut(books: seq<Book>, q: Query, sorted: seq<Book>, n: nat)
    requires forall b :: b in Select(books, q) ==> b in books && Satisfies(b, q)
    requires multiset(sorted) == multiset(Select(books, q))
    requires n <= |sorted|
    ensures forall b :: b in sorted[..n] ==> b in books && Satisfies(b, q)
  {
    forall b | b in sorted[..n] ensures b in books && Satisfies(b, q) {
      assert b in multiset(Select(books, q));
    }
  }

  lemma {:induction false} SelectSound(books: seq<Book>, q: Query)
    ensures forall b :: b in Select(books, q) ==> b in books && Satisfies(b, q)
  {
    if books != [] {
      SelectSound(books[1..], q);
    }
  }

  /** The books a search with these arguments returns: the ten latest matches. */
  function Hits(books: seq<Book>, a: SearchArgs): seq<Book> {
    var sorted := Sorting.SortBy(Matching(books, a), PublishedDesc);
    sorted[..Min(|sorted|, MaxResults)]
  }

  /** What the tool reports of a book: no identifier, stock or timestamps. */
  datatype Entry = Entry(
    title: string,
    authorName: string,
    publishedDate: Option<Date>,
    publisher: Option<string>,
    genre: Option<string>,
    price: Option<real>,
    overview: Option<string>,
    posterUrl: Option<string>)

  function Project(b: Book): Entry {
    Entry(b.title, b.authorName, b.publishedDate, b.publisher, b.genre, b.price, b.overview, b.posterUrl)
  }

  /**
   * A result entry keeps exactly a book's public fields: it does not depend
   * on the identifier, the stock count or the creation time, and two books
   * that agree on those three have the same entry only if they are the same
   * book.
   */
  lemma ProjectKeepsPublicFields(b: Book, c: Book)
    ensures Project(b) == Project(b.(id := c.id, stockCount := c.stockCount, createdAt := c.createdAt))
    ensures b.id == c.id && b.stockCount == c.stockCount && b.createdAt == c.createdAt ==>
      (Project(b) == Project(c) <==> b == c)
  {
  }

  function ProjectAll(bs: seq<Book>): (r: seq<Entry>)
    ensures |r| == |bs|
    ensures forall i :: 0 <= i < |bs| ==> r[i] == Project(bs[i])
  {
    if bs == [] then [] else [Project(bs[0])] + ProjectAll(bs[1..])
  }

  /** The tool's result envelope. */
  datatype SearchResult = SearchResult(status: string, kind: string, count: nat, results: seq<Entry>)

  /** The result a search with these arguments reports. */
  function Outcome(books: seq<Book>, a: SearchArgs): SearchResult {
    var hits := Hits(books, a);
    SearchResult("success", "book", |hits|, ProjectAll(hits))
  }

  lemma {:induction false} SelectAgrees(books: seq<Book>, q: Query, a: SearchArgs)
    requires forall b :: Satisfies(b, q) <==> MatchesFilter(b, a)
    ensures Select(books, q) == Matching(books, a)
  {
    if books != [] {
      SelectAgrees(books[1..], q, a);
    }
  }

  /**
   * `serviceSearchBook`: builds the query, runs it, and reports the matches
   * found, or an empty success when there are none.
   */
  method ServiceSearchBook(a: SearchArgs, books: seq<Book>) returns (r: SearchResult)
    ensures r == Outcome(books, a)
  {
    var q := BuildQuery(a);
    var assets := Find(books, q);
    SelectAgrees(books, q, a);
    if |assets| == 0 {
      return SearchResult("success", "book", 0, []);
    }
    r := SearchResult("success", "book", |assets|, ProjectAll(assets));
  }

  // ---------------------------------------------------------------------
  // What a search promises

  lemma {:induction false} MatchingSound(books: seq<Book>, a: SearchArgs)
    ensures forall b :: b in Matching(books, a) ==> b in books && MatchesFilter(b, a)
    ensures forall b :: b in books && MatchesFilter(b, a) ==> b in Matching(books, a)
    ensures multiset(Matching(books, a)) <= multiset(books)
  {
    if books != [] {
      MatchingSound(books[1..], a);
      assert books == [books[0]] + books[1..];
    }
  }

  /**
   * The envelope: status "success", type "book", a count equal to the number
   * of results and never more than ten; each result is the projection of a
   * stored book that matches the filter, and the results are ordered by
   * published date, latest first.
   */
  lemma OutcomeSound(books: seq<Book>, a: SearchArgs)
    ensures var r := Outcome(books, a);
      && r.status == "success" && r.kind == "book"
      && r.count == |r.results| <= MaxResults
      && (forall i :: 0 <= i < |r.results| ==> r.results[i] == Project(Hits(books, a)[i]))
    ensures forall b :: b in Hits(books, a) ==> b in books && MatchesFilter(b, a)
    ensures Sorting.SortedBy(Hits(books, a), PublishedDesc)
  {
    var m := Matching(books, a);
    MatchingSound(books, a);
    PublishedDescIsTotalPreorder();
    Sorting.SortBySorted(m, PublishedDesc);
    var sorted := Sorting.SortBy(m, PublishedDesc);
    forall b | b in Hits(books, a) ensures b in books && MatchesFilter(b, a) {
      assert b in sorted;
      assert b in multiset(m);
    }
  }

  /**
   * The results are the latest matches: they are drawn from the matching
   * books, there are ten of them or all of the matches if fewer, and no
   * match left out is later than one returned.
   */
  lemma HitsAreLatestMatches(books: seq<Book>, a: SearchArgs)
    ensures var m := Matching(books, a); var h := Hits(books, a);
      && |h| == Min(|m|, MaxResults)
      && multiset(h) <= multiset(m)
      && forall x, y :: x in h && y in multiset(m) - multiset(h) ==> PublishedDesc(x, y)
  {
    var m := Matching(books, a);
    var sorted := Sorting.SortBy(m, PublishedDesc);
    var n := Min(|sorted|, MaxResults);
    PublishedDescIsTotalPreorder();
    Sorting.SortBySorted(m, PublishedDesc);
    CutOfPermutation(m, sorted, n);
    Sorting.SortedCut(sorted, n, PublishedDesc);
    assert Hits(books, a) == sorted[..n];
  }

  lemma CutOfPermutation<T>(m: seq<T>, sorted: seq<T>, n: nat)
    requires multiset(sorted) == multiset(m)
    requires n <= |sorted|
    ensures multiset(sorted[..n]) <= multiset(m)
    ensures multiset(m) - multiset(sorted[..n]) == multiset(sorted[n..])
  {
    assert sorted == sorted[..n] + sorted[n..];
  }

  /** A search that matches nothing is a success with no results, not an error. */
  lemma NoMatchIsEmptySuccess(books: seq<Book>, a: SearchArgs)
    requires forall b :: b in books ==> !MatchesFilter(b, a)
    ensures Outcome(books, a) == SearchResult("success", "book", 0, [])
  {
    NothingMatching(books, a);
  }

  lemma {:induction false} NothingMatching(books: seq<Book>, a: SearchArgs)
    requires forall b :: b in books ==> !MatchesFilter(b, a)
    ensures Matching(books, a) == []
  {
    if books != [] {
      NothingMatching(books[1..], a);
    }
  }

  /** With no argument given, every book matches: the search returns the ten latest books. */
  lemma {:induction false} EmptyFilterMatchesAll(books: seq<Book>, a: SearchArgs)
    requires !Given(a.title) && !Given(a.authorName) && !Given(a.genre) && !Given(a.publisher)
    requires !YearGiven(a)
    ensures Matching(books, a) == books
  {
    if books != [] {
      EmptyFilterMatchesAll(books[1..], a);
    }
  }

  /**
   * With a year range, every result is published within it: on or after
   * January 1 of `from` and on or before December 31 of `to`, whichever
   * of the two is given.
   */
  lemma ResultsWithinYears(books: seq<Book>, a: SearchArgs, from: int, to: int)
    requires a.publishedDate == Some(YearRange(Some(from), Some(to)))
    requires from != 0 && to != 0
    ensures forall b :: b in Hits(books, a) ==>
      b.publishedDate.Some?
      && DateLe(FirstDayOf(from), b.publishedDate.value)
      && DateLe(b.publishedDate.value, LastDayOf(to))
  {
    OutcomeSound(books, a);
  }

  /** A title argument: every result's title contains it, ignoring case. */
  lemma ResultsContainTitle(books: seq<Book>, a: SearchArgs)
    requires Given(a.title)
    ensures forall b :: b in Hits(books, a) ==> ContainsIgnoreCase(b.title, a.title.value)
  {
    OutcomeSound(books, a);
  }
}
