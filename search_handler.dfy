/**
 * The natural-language search endpoint: method and query checks, the graph
 * run, and the final reply's content parsed as JSON and returned verbatim.
 */
module SearchHandler {
  import opened Wrappers
  import opened JsValues
  import opened Catalog
  import opened Conversation
  import opened Http
  import SearchTool

  /** `JSON.parse`: the parsed value, or the message of the SyntaxError it throws. */
  type JsonParser = string -> Result<Json, string>

  datatype Request = Request(verb: string, query: JsValue)


  /**
   * `messages.at(-1)?.content || "{}"`, then "{}" again unless it is a
   * string. A finished run always ends with an assistant message
   * (`Conversation.QueryRunFinished`), so the other cases are never reached.
   */
  function FinalText(ms: seq<Message>): (r: string)
    ensures r != ""
    ensures r == "{}" || (ms != [] && Last(ms).AIMessage? && Last(ms).content == Plain(r))
    ensures ms != [] && Last(ms).AIMessage? && Last(ms).content.Plain? && Last(ms).content.text != "" ==>
      r == Last(ms).content.text
  {
    if ms != [] && Last(ms).AIMessage? then
      match Last(ms).content
      case Plain(t) => if t == "" then "{}" else t
      case Parts(_) => "{}"
    else "{}"
  }

  /** The response to a request, given the store, the model and the JSON parser. */
  function Respond(req: Request, store: Store, model: Model, parse: JsonParser): (r: Response)
    ensures r.status == 405 <==> req.verb != "POST"
    ensures r.status == 400 <==> req.verb == "POST" && store.online && !Truthy(req.query)
    ensures r.status == 200 ==>
      && req.verb == "POST" && store.online && Truthy(req.query)
      && RunQuery(model, store.books, req.query).Finished?
      && parse(FinalText(RunQuery(model, store.books, req.query).messages)).Success?
      && r.body == JsonBody(parse(FinalText(RunQuery(model, store.books, req.query).messages)).value)
    ensures r.status in {200, 400, 405, 500}
  {
    if req.verb != "POST" then Response(405, MessageBody("Method Not Allowed"))
    else if !store.online then Response(500, ErrorBody("Internal Server Error", ConnectError))
    else if !Truthy(req.query) then Response(400, MessageBody("Query is required in request body"))
    else
      match RunQuery(model, store.books, req.query)
      case Failed(e) => Response(500, ErrorBody("Internal Server Error", e))
      case Finished(ms) =>
        match parse(FinalText(ms))
        case Failure(e) => Response(500, ErrorBody("Internal Server Error", e))
        case Success(v) => Response(200, JsonBody(v))
  }

  /** The endpoint's handler. */
  method Handle(req: Request, store: Store, model: Model, parse: JsonParser) returns (r: Response)
    ensures r == Respond(req, store, model, parse)
  {
    if req.verb != "POST" {
      return Response(405, MessageBody("Method Not Allowed"));
    }
    if !store.online {
      return Response(500, ErrorBody("Internal Server Error", ConnectError));
    }
    if !Truthy(req.query) {
      return Response(400, MessageBody("Query is required in request body"));
    }
    var result := RunGraph(model, store.books, req.query);
    if result.Failed? {
      return Response(500, ErrorBody("Internal Server Error", result.error));
    }
    var finalMessage := FinalText(result.messages);
    var parsed := parse(finalMessage);
    if parsed.Failure? {
      return Response(500, ErrorBody("Internal Server Error", parsed.error));
    }
    r := Response(200, JsonBody(parsed.value));
  }

  /** A request that is not a POST, or has no query, is answered without consulting the model. */
  lemma RejectedWithoutModel(req: Request, store: Store, m1: Model, m2: Model, parse: JsonParser)
    requires req.verb != "POST" || (store.online && !Truthy(req.query))
    ensures Respond(req, store, m1, parse) == Respond(req, store, m2, parse)
    ensures Respond(req, store, m1, parse).status in {400, 405}
  {
  }

  /**
   * The final reply's content is returned as whatever JSON it parses to,
   * with no check of its shape; an empty or non-string content becomes
   * `{}`; content that does not parse is a server error.
   */
  lemma FinalContentParsedVerbatim(req: Request, store: Store, model: Model, parse: JsonParser)
    requires req.verb == "POST" && store.online && Truthy(req.query)
    requires RunQuery(model, store.books, req.query).Finished?
    ensures var ms := RunQuery(model, store.books, req.query).messages;
      && (Last(ms).content == Plain("") || Last(ms).content.Parts? ==>
            FinalText(ms) == "{}")
      && (Last(ms).content.Plain? && Last(ms).content.text != "" ==>
            FinalText(ms) == Last(ms).content.text)
      && (parse(FinalText(ms)).Success? ==>
            Respond(req, store, model, parse) == Response(200, JsonBody(parse(FinalText(ms)).value)))
      && (parse(FinalText(ms)).Failure? ==>
            Respond(req, store, model, parse) == Response(500, ErrorBody("Internal Server Error", parse(FinalText(ms)).error)))
  {
    QueryRunFinished(model, store.books, req.query);
  }

  /**
   * A run whose last reply is empty, or is not a plain string, is answered
   * with 200 and the empty object.
   */
  lemma EmptyContentAnswersEmptyObject(req: Request, store: Store, model: Model, parse: JsonParser)
    requires req.verb == "POST" && store.online && Truthy(req.query)
    requires RunQuery(model, store.books, req.query).Finished?
    requires var ms := RunQuery(model, store.books, req.query).messages;
      ms != [] && Last(ms).AIMessage? && (Last(ms).content == Plain("") || Last(ms).content.Parts?)
    requires parse("{}") == Success(JObject([]))
    ensures Respond(req, store, model, parse) == Response(200, JsonBody(JObject([])))
  {
  }

  /** A model that keeps asking for searches makes the request fail with a server error, not an empty answer. */
  lemma EndlessSearchingIsServerError(req: Request, store: Store, model: Model, parse: JsonParser)
    requires req.verb == "POST" && store.online && Truthy(req.query)
    requires AlwaysSearches(model)
    ensures Respond(req, store, model, parse) == Response(500, ErrorBody("Internal Server Error", RecursionLimitError))
  {
    EndlessSearchingHitsLimit(model, store.books, [HumanMessage(req.query)], CallModel, 0, RecursionLimit);
  }
}
