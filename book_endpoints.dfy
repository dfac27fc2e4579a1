/** What the two serverless book-collection endpoints have in common. */
module BookEndpoints {
  import opened Wrappers
  import opened JsValues
  import opened Catalog
  import opened Http
  import opened BookValidation

  /** The payload of a verified bearer token. */
  datatype Claims = Claims(role: JsValue, username: JsValue)

  /**
   * A request to the collection endpoint: its method, the `page` and `limit`
   * query parameters, the parsed body, and what `verifyToken` makes of its
   * `Authorization` header (`None` for no token or an invalid one).
   */
  datatype Request = Request(verb: string, page: Option<string>, limit: Option<string>, body: BookInput, user: Option<Claims>)

  /** `!user || user.role !== 'admin'` fails. */
  predicate IsAdmin(user: Option<Claims>) {
    user.Some? && user.value.role == Str("admin")
  }

  /** `Book.create(req.body)` settled: 201 with the document, 400 with the message of a store validation error, 500 otherwise. */
  function CreateResponse(created: Result<Book, JsError>): (r: Response)
    ensures r.status == 201 <==> created.Success?
    ensures created.Success? ==> r.body == BookBody(created.value)
    ensures r.status == 400 <==> created.Failure? && created.error.name == "ValidationError"
    ensures r.status == 400 ==> r.body == MessageBody(created.error.message)
    ensures r.status == 500 ==> r.body == MessageBody("Internal Server Error")
    ensures r.status in {201, 400, 500}
  {
    match created
    case Success(book) => Response(201, BookBody(book))
    case Failure(e) =>
      if e.name == "ValidationError" then Response(400, MessageBody(e.message))
      else Response(500, MessageBody("Internal Server Error"))
  }

  /** A GET answer: 200 with the page, or 500 when the store refuses the query. */
  function ListResponse(listed: Result<Page, string>): (r: Response)
    ensures r.status == 200 <==> listed.Success?
    ensures listed.Success? ==> r.body == PageBody(listed.value)
    ensures listed.Failure? ==> r == Response(500, MessageBody("Internal Server Error"))
  {
    match listed
    case Success(p) => Response(200, PageBody(p))
    case Failure(_) => Response(500, MessageBody("Internal Server Error"))
  }

  const Unauthorized := Response(401, MessageBody("Unauthorized"))
  const MethodNotAllowed := Response(405, MessageBody("Method Not Allowed"))
}
