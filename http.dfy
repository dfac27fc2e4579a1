/** HTTP responses, JSON values and the errors the handlers classify. */
module Http {
  import opened Wrappers
  import Catalog

  /** A JSON value. */
  datatype Json =
    | JNull
    | JBool(b: bool)
    | JNumber(n: real)
    | JString(s: string)
    | JArray(items: seq<Json>)
    | JObject(members: seq<(string, Json)>)

  /** One entry of a validation-error list. */
  datatype FieldIssue = FieldIssue(field: string, message: string)

  /** A page of the catalog listing. */
  datatype Page = Page(data: seq<Catalog.Book>, currentPage: int, totalPages: int, totalBooks: nat)

  /** The JSON bodies the endpoints send. */
  datatype Body =
    | MessageBody(message: string)
    | ErrorBody(message: string, error: string)
    | ErrorListBody(message: string, errors: seq<string>)
    | IssuesBody(message: string, issues: seq<FieldIssue>)
    | BookBody(book: Catalog.Book)
    | PageBody(page: Page)
    | TokenBody(token: string)
    | JsonBody(value: Json)

  datatype Response = Response(status: nat, body: Body)

  /**
   * The message of the error `dbConnect()` throws when the database cannot
   * be reached; the driver's own text is not part of this model.
   */
  const ConnectError := "database connection failed"

  /** A schema-validation issue: the path to the offending value and a message. */
  datatype Issue = Issue(path: seq<string>, message: string)

  /** A per-field error of the store's own validation. */
  datatype SubError = SubError(path: string, message: string)

  /**
   * A thrown error: whether it is a schema-validation error (`instanceof
   * ZodError`), its `name` and `message`, the schema issues it carries and
   * the store's per-field errors it carries.
   */
  datatype JsError = JsError(isZodError: bool, name: string, message: string, issues: seq<Issue>, errors: seq<SubError>)

  /** What a request handler or middleware ends with. */
  datatype Outcome =
    | Sent(response: Response)          // a response is written
    | Next(error: Option<JsError>)      // control passes on: `next()` or `next(error)`
    | Escaped(reason: string)           // an exception leaves the handler unanswered

  /** The result of parsing a request body against a schema. */
  datatype SchemaResult<T> = Valid(data: T) | Invalid(error: JsError)

  /** An error the store reports for a failed query. */
  function StoreError(message: string): JsError {
    JsError(false, "MongoServerError", message, [], [])
  }
}
