/**
 * The typed book-collection endpoint: a paginated listing newest first with
 * 12 books per page by default, and a create guarded first by the book
 * schema and then by the admin check.
 */
module BooksIndexTs {
  import opened Wrappers
  import opened JsValues
  import opened Catalog
  import opened Pagination
  import opened Http
  import opened Listing
  import opened BookValidation
  import opened BookEndpoints
  import ErrorHandler
  import Sorting

  const DefaultLimit := 12

  /** The page the GET branch lists. */
  function ListOf(req: Request, store: Store): Result<Page, string> {
    ListPage(store.books, CreatedDescIdAsc, ParseIntOr(req.page, 1), ParseIntOr(req.limit, DefaultLimit))
  }

  /**
   * The handler, given the store, the book schema's parse and `Book.create`.
   * A store that cannot be reached makes the handler throw before any
   * branch; otherwise exactly one response is sent.
   */
  function Handle(req: Request, store: Store, schema: BookInput -> SchemaResult<BookInput>,
                  create: BookInput -> Result<Book, JsError>): (r: Outcome)
    ensures r.Escaped? <==> !store.online
    ensures r.Next? == false
    ensures store.online && req.verb != "GET" && req.verb != "POST" ==> r == Sent(MethodNotAllowed)
    ensures store.online && req.verb == "GET" ==> r == Sent(ListResponse(ListOf(req, store)))
    ensures store.online && req.verb == "POST" && schema(req.body).Invalid? ==>
      r == ErrorHandler.ValidateBody(schema(req.body))
    ensures store.online && req.verb == "POST" && schema(req.body).Valid? && !IsAdmin(req.user) ==>
      r == Sent(Unauthorized)
    ensures store.online && req.verb == "POST" && schema(req.body).Valid? && IsAdmin(req.user) ==>
      r == Sent(CreateResponse(create(req.body)))
  {
    if !store.online then Escaped(ConnectError)
    else if req.verb == "GET" then Sent(ListResponse(ListOf(req, store)))
    else if req.verb == "POST" then
      match ErrorHandler.ValidateBody(schema(req.body))
      case Sent(rejected) => Sent(rejected)
      case _ =>
        if !IsAdmin(req.user) then Sent(Unauthorized)
        else Sent(CreateResponse(create(req.body)))
    else Sent(MethodNotAllowed)
  }

  /** The statuses each method can end with. */
  lemma Statuses(req: Request, store: Store, schema: BookInput -> SchemaResult<BookInput>,
                 create: BookInput -> Result<Book, JsError>)
    requires store.online
    ensures var r := Handle(req, store, schema, create);
      && r.Sent?
      && (req.verb == "GET" ==> r.response.status in {200, 500})
      && (req.verb == "POST" ==> r.response.status in {201, 400, 401, 500})
      && (req.verb != "GET" && req.verb != "POST" ==> r.response.status == 405)
  {
  }

  /**
   * A body the schema rejects is answered by the validation step alone:
   * neither the caller's token nor the store's create can change the answer.
   */
  lemma InvalidBodyStopsAtSchema(req: Request, store: Store, schema: BookInput -> SchemaResult<BookInput>,
                                 create1: BookInput -> Result<Book, JsError>,
                                 create2: BookInput -> Result<Book, JsError>, user: Option<Claims>)
    requires store.online && req.verb == "POST" && schema(req.body).Invalid?
    ensures Handle(req, store, schema, create1) == Handle(req.(user := user), store, schema, create2)
    ensures Handle(req, store, schema, create1).response.status in {400, 500}
  {
  }

  /** A valid body from a caller who is not an admin gets 401, whatever the store would do with it. */
  lemma NonAdminNeverCreates(req: Request, store: Store, schema: BookInput -> SchemaResult<BookInput>,
                             create1: BookInput -> Result<Book, JsError>,
                             create2: BookInput -> Result<Book, JsError>)
    requires store.online && req.verb == "POST" && schema(req.body).Valid? && !IsAdmin(req.user)
    ensures Handle(req, store, schema, create1) == Handle(req, store, schema, create2) == Sent(Unauthorized)
  {
  }

  /**
   * What is created is the raw request body: two schemas that both accept
   * it, whatever they parse it into, lead to the same answer.
   */
  lemma CreatesRawBody(req: Request, store: Store, schema1: BookInput -> SchemaResult<BookInput>,
                       schema2: BookInput -> SchemaResult<BookInput>, create: BookInput -> Result<Book, JsError>)
    requires store.online && req.verb == "POST" && schema1(req.body).Valid? && schema2(req.body).Valid?
    ensures Handle(req, store, schema1, create) == Handle(req, store, schema2, create)
  {
  }

  /**
   * Without `page` and `limit`, GET answers 200 with the 12 newest books
   * (ties by id), page 1, and the page count for 12 books a page.
   */
  lemma DefaultListingIsFirstTwelve(req: Request, store: Store, schema: BookInput -> SchemaResult<BookInput>,
                                    create: BookInput -> Result<Book, JsError>)
    requires store.online && req.verb == "GET" && req.page.None? && req.limit.None?
    ensures Handle(req, store, schema, create) ==
      Sent(Response(200, PageBody(Page(Sorting.SortBy(store.books, CreatedDescIdAsc)[..Min(12, |store.books|)],
                                       1, TotalPages(|store.books|, 12), |store.books|))))
  {
    PageIsWindow(store.books, CreatedDescIdAsc, 1, 12);
  }
}
