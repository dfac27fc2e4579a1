/**
 * The controller behind the Express-style book routes. Each action either
 * sends one response or passes a thrown error to the next error handler;
 * the service's store operations and the book schema are parameters.
 */
module BookController {
  import opened Wrappers
  import opened JsValues
  import opened Catalog
  import opened Pagination
  import opened Http
  import opened Listing
  import opened BookValidation
  import ErrorHandler
  import Sorting

  /** The book service: the catalog it lists and its store operations, each of which may throw. */
  datatype Service = Service(
    books: seq<Book>,
    findById: string -> Result<Option<Book>, JsError>,
    create: BookInput -> Result<Book, JsError>,
    update: (string, BookInput) -> Result<Option<Book>, JsError>,
    delete: string -> Result<Option<Book>, JsError>)

  /** The book schema's `parse` and the parse of its `partial()` variant. */
  datatype Schemas = Schemas(full: BookInput -> SchemaResult<BookInput>, partial: BookInput -> SchemaResult<BookInput>)

  /** The query parameters `page`, `limit` and `id`, and the body. */
  datatype Request = Request(page: Option<string>, limit: Option<string>, id: JsValue, body: BookInput)

  const DefaultLimit := 12
  const InvalidId := Response(400, MessageBody("Invalid ID"))
  const NotFound := Response(404, MessageBody("Book not found"))
  const Deleted := Response(200, MessageBody("Book deleted successfully"))

  /** `id` passes `!id || typeof id !== 'string'`: a non-empty string. */
  predicate ValidId(id: JsValue) {
    id.Str? && id.s != ""
  }

  /** The page and limit `index` asks the service for. */
  function PageParam(req: Request): int { ParseIntOr(req.page, 1) }
  function LimitParam(req: Request): int { ParseIntOr(req.limit, DefaultLimit) }

  /** `index`: 200 with the service's page, or the store's error passed on. */
  function Index(req: Request, svc: Service): (r: Outcome)
    ensures r.Next? <==> Skip(PageParam(req), LimitParam(req)) < 0
    ensures r.Next? ==> r.error.Some? && r.error.value.name == "MongoServerError"
    ensures r.Sent? ==>
      && r.response.status == 200
      && r.response.body == PageBody(GetBooks(svc.books, PageParam(req), LimitParam(req)).value)
    ensures !r.Escaped?
  {
    match GetBooks(svc.books, PageParam(req), LimitParam(req))
    case Failure(e) => Next(Some(StoreError(e)))
    case Success(p) => Sent(Response(200, PageBody(p)))
  }

  /** `show`: 400 for a bad id, 404 for no such book, 200 with the book, or the store's error passed on. */
  function Show(req: Request, svc: Service): (r: Outcome)
    ensures r == Sent(InvalidId) <==> !ValidId(req.id)
    ensures r.Next? <==> ValidId(req.id) && svc.findById(req.id.s).Failure?
    ensures r.Next? ==> r.error == Some(svc.findById(req.id.s).error)
    ensures r == Sent(NotFound) <==> ValidId(req.id) && svc.findById(req.id.s) == Success(None)
    ensures r.Sent? && r.response.status == 200 ==>
      && ValidId(req.id) && svc.findById(req.id.s).Success? && svc.findById(req.id.s).value.Some?
      && r.response.body == BookBody(svc.findById(req.id.s).value.value)
    ensures !r.Escaped?
  {
    if !ValidId(req.id) then Sent(InvalidId)
    else match svc.findById(req.id.s)
      case Failure(e) => Next(Some(e))
      case Success(None) => Sent(NotFound)
      case Success(Some(book)) => Sent(Response(200, BookBody(book)))
  }

  /** `create`: the full schema's parse, then the service's create of the parsed data, 201 with the book. */
  function Create(req: Request, svc: Service, schemas: Schemas): (r: Outcome)
    ensures schemas.full(req.body).Invalid? ==> r == Next(Some(schemas.full(req.body).error))
    ensures schemas.full(req.body).Valid? ==>
      var created := svc.create(schemas.full(req.body).data);
      && (created.Failure? ==> r == Next(Some(created.error)))
      && (created.Success? ==> r == Sent(Response(201, BookBody(created.value))))
  {
    match schemas.full(req.body)
    case Invalid(e) => Next(Some(e))
    case Valid(data) =>
      match svc.create(data)
      case Failure(e) => Next(Some(e))
      case Success(book) => Sent(Response(201, BookBody(book)))
  }

  /** `update`: 400 for a bad id, the partial schema's parse, the service's update, 404 or 200 with the updated book. */
  function Update(req: Request, svc: Service, schemas: Schemas): (r: Outcome)
    ensures r == Sent(InvalidId) <==> !ValidId(req.id)
    ensures ValidId(req.id) && schemas.partial(req.body).Invalid? ==>
      r == Next(Some(schemas.partial(req.body).error))
    ensures ValidId(req.id) && schemas.partial(req.body).Valid? ==>
      var updated := svc.update(req.id.s, schemas.partial(req.body).data);
      && (updated.Failure? ==> r == Next(Some(updated.error)))
      && (updated == Success(None) ==> r == Sent(NotFound))
      && (updated.Success? && updated.value.Some? ==> r == Sent(Response(200, BookBody(updated.value.value))))
  {
    if !ValidId(req.id) then Sent(InvalidId)
    else match schemas.partial(req.body)
      case Invalid(e) => Next(Some(e))
      case Valid(data) =>
        match svc.update(req.id.s, data)
        case Failure(e) => Next(Some(e))
        case Success(None) => Sent(NotFound)
        case Success(Some(book)) => Sent(Response(200, BookBody(book)))
  }

  /** `delete`: 400 for a bad id, 404 for no such book, 200 with a confirmation. */
  function Delete(req: Request, svc: Service): (r: Outcome)
    ensures r == Sent(InvalidId) <==> !ValidId(req.id)
    ensures r.Next? <==> ValidId(req.id) && svc.delete(req.id.s).Failure?
    ensures r.Next? ==> r.error == Some(svc.delete(req.id.s).error)
    ensures r == Sent(NotFound) <==> ValidId(req.id) && svc.delete(req.id.s) == Success(None)
    ensures r == Sent(Deleted) <==> ValidId(req.id) && svc.delete(req.id.s).Success? && svc.delete(req.id.s).value.Some?
  {
    if !ValidId(req.id) then Sent(InvalidId)
    else match svc.delete(req.id.s)
      case Failure(e) => Next(Some(e))
      case Success(None) => Sent(NotFound)
      case Success(Some(_)) => Sent(Deleted)
  }

  /**
   * A bad id is answered before the service or the schema is consulted:
   * any other service and schemas give the same 400.
   */
  lemma IdCheckedFirst(req: Request, svc1: Service, svc2: Service, schemas1: Schemas, schemas2: Schemas)
    requires !ValidId(req.id)
    ensures Show(req, svc1) == Show(req, svc2) == Sent(InvalidId)
    ensures Update(req, svc1, schemas1) == Update(req, svc2, schemas2) == Sent(InvalidId)
    ensures Delete(req, svc1) == Delete(req, svc2) == Sent(InvalidId)
  {
  }

  /**
   * `create` stores what the schema parsed, not the raw body: two bodies
   * the schema parses to the same data are created alike.
   */
  lemma CreatesParsedData(req1: Request, req2: Request, svc: Service, schemas: Schemas)
    requires schemas.full(req1.body).Valid? && schemas.full(req1.body) == schemas.full(req2.body)
    ensures Create(req1, svc, schemas) == Create(req2, svc, schemas)
  {
  }

  /** No action lets an exception escape: each either sends a response or hands the error on. */
  lemma ActionsNeverEscape(req: Request, svc: Service, schemas: Schemas)
    ensures !Index(req, svc).Escaped? && !Show(req, svc).Escaped? && !Delete(req, svc).Escaped?
    ensures !Create(req, svc, schemas).Escaped? && !Update(req, svc, schemas).Escaped?
    ensures Index(req, svc).Next? ==> Index(req, svc).error.Some?
    ensures Create(req, svc, schemas).Next? ==> Create(req, svc, schemas).error.Some?
    ensures Update(req, svc, schemas).Next? ==> Update(req, svc, schemas).error.Some?
  {
    IndexNeverEscapes(req, svc);
    CreateNeverEscapes(req, svc, schemas);
    UpdateNeverEscapes(req, svc, schemas);
  }

  lemma CreateNeverEscapes(req: Request, svc: Service, schemas: Schemas)
    ensures !Create(req, svc, schemas).Escaped?
    ensures Create(req, svc, schemas).Next? ==> Create(req, svc, schemas).error.Some?
  {
  }

  lemma UpdateNeverEscapes(req: Request, svc: Service, schemas: Schemas)
    ensures !Update(req, svc, schemas).Escaped?
    ensures Update(req, svc, schemas).Next? ==> Update(req, svc, schemas).error.Some?
  {
  }

  lemma IndexNeverEscapes(req: Request, svc: Service)
    ensures !Index(req, svc).Escaped?
    ensures Index(req, svc).Next? ==> Index(req, svc).error.Some?
  {
  }

  /** The response once an action's outcome reaches the error handler, if it passed an error on. */
  function Served(o: Outcome): Option<Response> {
    match o
    case Sent(r) => Some(r)
    case Next(Some(e)) => Some(ErrorHandler.HandleError(e))
    case _ => None
  }

  /**
   * With the error handler after the controller, a create body the schema
   * rejects is answered 400 "Validation Error" with one entry per schema
   * issue, and a page before the first is answered 500.
   */
  lemma ServedThroughErrorHandler(req: Request, svc: Service, schemas: Schemas)
    ensures schemas.full(req.body).Invalid? && schemas.full(req.body).error.isZodError ==>
      Served(Create(req, svc, schemas)) ==
        Some(Response(400, IssuesBody("Validation Error", ErrorHandler.IssueEntries(schemas.full(req.body).error.issues))))
    ensures Skip(PageParam(req), LimitParam(req)) < 0 ==>
      Served(Index(req, svc)) == Some(Response(500, MessageBody("Internal Server Error")))
    ensures Served(Index(req, svc)).Some? && Served(Create(req, svc, schemas)).Some?
  {
  }

  /** `index` with no query parameters lists page 1 of 12 books, newest first. */
  lemma IndexDefaults(req: Request, svc: Service)
    requires req.page.None? && req.limit.None?
    ensures Index(req, svc) == Sent(Response(200, PageBody(Page(
      Window(Sorting.SortBy(svc.books, CreatedDescIdAsc), 1, 12), 1, TotalPages(|svc.books|, 12), |svc.books|))))
  {
  }
}
