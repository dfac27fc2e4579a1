/**
 * The untyped book-collection endpoint: a paginated listing newest first
 * with 16 books per page by default, and a create guarded first by the
 * admin check and then by the hand-written validator.
 */
module BooksIndexJs {
  import opened Wrappers
  import opened JsValues
  import opened Catalog
  import opened Pagination
  import opened Http
  import opened Listing
  import opened BookValidation
  import opened BookEndpoints
  import Sorting

  const DefaultLimit := 16

  /** The page the GET branch lists. */
  function ListOf(req: Request, store: Store): Result<Page, string> {
    ListPage(store.books, CreatedDesc, ParseIntOr(req.page, 1), ParseIntOr(req.limit, DefaultLimit))
  }

  /**
   * The handler, given the store and `Book.create`. A store that cannot be
   * reached makes the handler throw before any branch; otherwise exactly
   * one response is sent.
   */
  function Handle(req: Request, store: Store, create: BookInput -> Result<Book, JsError>): (r: Outcome)
    ensures r.Escaped? <==> !store.online
    ensures r.Next? == false
    ensures store.online && req.verb != "GET" && req.verb != "POST" ==> r == Sent(MethodNotAllowed)
    ensures store.online && req.verb == "GET" ==> r == Sent(ListResponse(ListOf(req, store)))
    ensures store.online && req.verb == "POST" && !IsAdmin(req.user) ==> r == Sent(Unauthorized)
    ensures store.online && req.verb == "POST" && IsAdmin(req.user) && Errors(req.body) != [] ==>
      r == Sent(Response(400, ErrorListBody("Validation Error", Errors(req.body))))
    ensures store.online && req.verb == "POST" && IsAdmin(req.user) && Errors(req.body) == [] ==>
      r == Sent(CreateResponse(create(req.body)))
  {
    if !store.online then Escaped(ConnectError)
    else if req.verb == "GET" then Sent(ListResponse(ListOf(req, store)))
    else if req.verb == "POST" then
      if !IsAdmin(req.user) then Sent(Unauthorized)
      else
        var errors := Errors(req.body);
        if errors != [] then Sent(Response(400, ErrorListBody("Validation Error", errors)))
        else Sent(CreateResponse(create(req.body)))
    else Sent(MethodNotAllowed)
  }

  /** The statuses each method can end with. */
  lemma Statuses(req: Request, store: Store, create: BookInput -> Result<Book, JsError>)
    requires store.online
    ensures var r := Handle(req, store, create);
      && r.Sent?
      && (req.verb == "GET" ==> r.response.status in {200, 500})
      && (req.verb == "POST" ==> r.response.status in {201, 400, 401, 500})
      && (req.verb != "GET" && req.verb != "POST" ==> r.response.status == 405)
  {
  }

  /**
   * A caller who is not an admin gets 401 before the body is looked at:
   * any other body and any store behaviour give the same answer.
   */
  lemma NonAdminStopsBeforeValidation(req: Request, store: Store, body: BookInput,
                                      create1: BookInput -> Result<Book, JsError>,
                                      create2: BookInput -> Result<Book, JsError>)
    requires store.online && req.verb == "POST" && !IsAdmin(req.user)
    ensures Handle(req, store, create1) == Handle(req.(body := body), store, create2) == Sent(Unauthorized)
  {
  }

  /**
   * An admin's invalid body gets 400 with the validator's messages, one per
   * failing rule in rule order, and the store's create plays no part.
   */
  lemma InvalidBodyNeverCreated(req: Request, store: Store,
                                create1: BookInput -> Result<Book, JsError>,
                                create2: BookInput -> Result<Book, JsError>)
    requires store.online && req.verb == "POST" && IsAdmin(req.user)
    requires exists i :: 0 <= i < RuleCount && Fails(req.body, i)
    ensures Handle(req, store, create1) == Handle(req, store, create2)
    ensures Handle(req, store, create1) == Sent(Response(400, ErrorListBody("Validation Error", Errors(req.body))))
    ensures 1 <= |Errors(req.body)| <= RuleCount
    ensures forall i :: 0 <= i < RuleCount ==> (Messages[i] in Errors(req.body) <==> Fails(req.body, i))
  {
    ErrorsExactly(req.body);
  }

  /**
   * Without `page` and `limit`, GET answers 200 with the 16 newest books,
   * page 1, and the page count for 16 books a page.
   */
  lemma DefaultListingIsFirstSixteen(req: Request, store: Store, create: BookInput -> Result<Book, JsError>)
    requires store.online && req.verb == "GET" && req.page.None? && req.limit.None?
    ensures Handle(req, store, create) ==
      Sent(Response(200, PageBody(Page(Sorting.SortBy(store.books, CreatedDesc)[..Min(16, |store.books|)],
                                       1, TotalPages(|store.books|, 16), |store.books|))))
  {
    PageIsWindow(store.books, CreatedDesc, 1, 16);
  }
}
