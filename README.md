# Book inventory: a Dafny model of the request handlers

This project models the server core of a book inventory system. It also
models the one piece of client logic the pages share. The parts are:

- **Catalogue listing.** `GET /api/books` in two versions, `api/books/index.ts`
  and `api/books/index.js`, and the layered `BookController`/`BookService`
  path. A page of books comes from `skip = (page - 1) * limit`, a sort, a
  skip/limit cut, and `totalPages = ceil(totalBooks / limit)`
  (`pagination.dfy`, `listing.dfy`).
- **Book creation and maintenance.**
  - The hand-written validator in `api/_lib/validate.js`
    (`book_validation.dfy`).
  - Admin authorisation and the create path of both `index` handlers
    (`books_index_ts.dfy`, `books_index_js.dfy`, `book_endpoints.dfy`).
  - The controller actions index/show/create/update/delete
    (`book_controller.dfy`).
  - The schema-validation middleware and the central error handler
    (`error_handler.dfy`). This includes how an issue path is joined with
    dots.
- **Admin login** (`admin_login.dfy`). Method check, required credentials,
  configured credentials, the username check before the password check, and
  token issue.
- **Natural-language search** (`search_tool.dfy`, `conversation.dfy`,
  `search_handler.dfy`).
  - The `searchBooks` tool's query builder, run as a filter on the catalogue:
    case-insensitive substring match per text field, and a year range on the
    publication date. Newest first, at most 10 results, projected to the
    result envelope.
  - The plan/act loop between model and tool. The router sends the run to
    the tool node while the last reply asks for a tool. The tool node
    answers every call naming the search tool and passes over calls naming
    no registered tool. A run fails with the runtime's
    recursion-limit error once it would take a sixth step.
  - The HTTP handler around the loop.
- **Display URLs** of book covers (`drive_thumbnail.dfy`, `book_card.dfy`,
  `book_details.dfy`). A Google Drive share link is rewritten to a
  thumbnail link with the leftmost, shortest match of `/d/(.+?)(/|$)`. The
  card uses size `w400` and the details page uses `w800`.

Shared value types are in `wrappers.dfy`, `js_values.dfy` and `http.dfy`:
- JavaScript values and truthiness;
- `parseInt`;
- JSON bodies and responses;
- the outcome of an Express-style handler: a response sent, `next(err)`
  called, or an exception escaping to the host.

`catalog.dfy` holds the book record and the three sort orders. `sorting.dfy`
holds the sort itself.

Collaborators the handlers cannot see are parameters of the model:
- the hosted language model;
- `JSON.parse`;
- zod schemas;
- the database's create, update, delete and find-by-id calls (the listing
  and search queries, `find` with `sort`, `skip` and `limit`, are modelled
  as functions over the stored books: `Catalog.SkipLimit`,
  `SearchTool.Find`);
- `bcrypt.compare`;
- the JWT signer.

Each lemma that says "answered before X is consulted" proves this by
showing the same outcome for two different X.

Facts about the search endpoint that the model states:

- It is not fail-safe. A final model message that does not parse, a run
  that hits the step limit, a tool input error and a tool call named after
  an inherited object member all reach the `catch`, which answers 500 with
  `{message: 'Internal Server Error', error: error.message}`
  (`api/search.ts:237-245`). `SearchHandler.Respond`,
  `SearchHandler.EndlessSearchingIsServerError` and
  `Conversation.DispatchFailsAtFirst` state this.
- A tool call naming no registered tool adds no message
  (`api/search.ts:193-203`). The tool table is a plain object literal
  (`api/search.ts:99-101`), so a lookup by a member name of
  `Object.prototype` (`constructor`, `toString`, `__proto__`, ...) finds
  something truthy without an `invoke`, and the call throws
  "action.invoke is not a function". `Conversation.Dispatch` and
  `Conversation.DispatchAnswersEachCall` state both cases.
- The final content is parsed and returned with no check of its shape
  (`api/search.ts:237-240`). Empty or non-string content becomes `{}`
  (`SearchHandler.EmptyContentAnswersEmptyObject`).

## Model

| member | source | states |
|---|---|---|
| JsValues.ParseIntOr | api/books/index.ts:12-13 | `parseInt(p) \|\| d`. An absent or unparsable parameter, or one that parses to 0, gives the default. Any other parameter gives the parsed value. With a non-zero default the result is never 0. |
| JsValues.ParseIntDecimal | api/books/index.ts:12 | `parseInt` reads back every integer written in decimal: `ParseInt(IntToDecimal(n)) == Some(n)`. |
| JsValues.ParseInt | api/books/index.ts:12 | `parseInt` of blank text is NaN (`None`). A negative result comes only from text whose first non-whitespace character is '-', and such text never gives a positive number. |
| JsValues.Trim | api/_lib/validate.js:8 | `trim()` is a slice `s[i..j]` of the input whose cut-off prefix `s[..i]` and suffix `s[j..]` are all whitespace. It is empty exactly when the string is all whitespace, and otherwise neither starts nor ends with whitespace. |
| Sorting.SortBySorted | api/_lib/repositories/BookRepository.ts:6 | The sort yields a sequence ordered by a total preorder. |
| Catalog.CreatedDescIdAscIsTotalPreorder | api/_lib/repositories/BookRepository.ts:6 | `{createdAt: -1, _id: 1}` is a total preorder on books. |
| Catalog.CreatedDescIsTotalPreorder | api/books/index.js:16 | `{createdAt: -1}` is a total preorder on books. |
| Catalog.PublishedDescIsTotalPreorder | api/search.ts:49 | `{publishedDate: -1}` is a total preorder on books. |
| Pagination.Ceil | api/_lib/services/BookService.ts:20 | `Math.ceil`: the least integer not below its argument. |
| Pagination.TotalPages | api/_lib/services/BookService.ts:20 | For a positive limit, `totalPages` is the least non-negative r with `total <= r * limit`. |
| Pagination.NoBooksNoPages | api/_lib/services/BookService.ts:20 | An empty catalogue has 0 pages. |
| Pagination.EveryBookOnOnePage | api/_lib/services/BookService.ts:11-20 | Book k (0-based) lies on page `k / limit + 1`: that page starts at or before it, ends after it, and is at most `totalPages`. |
| Pagination.PageStart | api/_lib/services/BookService.ts:11-20 | For page, limit >= 1 the skip is non-negative, the page ends at `page * limit`, and the page starts inside the catalogue iff `page <= totalPages`. |
| Listing.ListPage | api/books/index.ts:14-27 | A page listing fails exactly when the skip is negative. Otherwise it carries the requested page, the book count, `ceil(count / limit)`, and the skip/limit cut of the sorted catalogue. |
| Catalog.SkipLimit | api/_lib/repositories/BookRepository.ts:6-8 | `.skip(s).limit(l)` is refused for a negative skip. Otherwise it is the run of `min(n - min(s, n), l)` records starting at `min(s, n)`, where a limit of 0 means no limit and a negative limit counts as its absolute value. |
| Listing.SkipLimitWindow | api/_lib/repositories/BookRepository.ts:4-9 | Skip s then limit l is the slice `[min(s, n) .. min(s + l, n)]`. |
| Listing.PageIsWindow | api/books/index.ts:14-20 | For page, limit >= 1 a listing succeeds, its data is the page's window of the sorted catalogue, and the data is non-empty iff `page <= totalPages`. |
| Listing.WindowsArePrefix | api/_lib/services/BookService.ts:11-20 | The first k pages, concatenated, are the first `min(k * limit, n)` books. |
| Listing.PagesCoverCatalog | api/_lib/services/BookService.ts:10-23 | Pages 1..totalPages each succeed and each is its window. Together they are the whole catalogue, sorted and a permutation of the stored books. |
| Listing.PastLastPageEmpty | api/_lib/services/BookService.ts:11-20 | A page past the last one is an empty page that still reports its number, `totalPages` and the book count. |
| Listing.GetBooks | api/_lib/services/BookService.ts:10-23 | `getBooks` fails exactly on a negative skip (the store rejects it). For page, limit >= 1 it returns the window of the catalogue ordered by `{createdAt: -1, _id: 1}` with page number, page count and book count. |
| ErrorHandler.SplitJoin | api/_lib/middleware/errorHandler.ts:11 | Joining a zod issue path with '.' loses nothing for segments without dots: splitting the field name at '.' gives the path back. |
| ErrorHandler.IssueEntries | api/_lib/middleware/errorHandler.ts:9-14 | One `{field, message}` entry per zod issue, in order, with the path joined by '.'. |
| ErrorHandler.SubErrorEntries | api/_lib/middleware/errorHandler.ts:17-22 | One `{field, message}` entry per Mongoose sub-error, in order. |
| ErrorHandler.HandleError | api/_lib/middleware/errorHandler.ts:4-31 | Status 400 iff the error is a zod error, a Mongoose ValidationError or a CastError, each with its own body. Every other error is 500 "Internal Server Error". |
| ErrorHandler.SchemaErrorFirst | api/_lib/middleware/errorHandler.ts:7-15 | A zod error named ValidationError is answered as a zod error, with one entry per issue. |
| ErrorHandler.ValidateBody | api/_lib/middleware/validate.ts:4-20 | `next()` with no error iff the body parses. A zod failure is 400 "Validation failed" with the issue entries. Any other failure is 500. |
| BookValidation.ValidateBookInput | api/_lib/validate.js:4-37 | The validator returns null iff no rule fails, and otherwise the list of failure messages. |
| BookValidation.ErrorsUpToExactly | api/_lib/validate.js:8-34 | After the first k rules, the list holds exactly the messages of the failing rules among them, once each, in rule order. |
| BookValidation.ErrorsExactly | api/_lib/validate.js:8-36 | At most five messages. A rule's message is present iff the rule fails. Messages come in rule order. The list is empty iff no rule fails. |
| BookValidation.MissingTextMeansNoVisibleText | api/_lib/validate.js:8-13 | A title or author is rejected iff it is not a string with a non-whitespace character. |
| BookValidation.PriceEdges | api/_lib/validate.js:24-28 | Price null is rejected, 0 and absent are accepted, and the string "5" is rejected. |
| BookValidation.StockCountEdges | api/_lib/validate.js:30-34 | Stock 1.5 and -1 are rejected and 0 is accepted. |
| BookEndpoints.CreateResponse | api/books/index.ts:53-65 | 201 iff the book is created, with the book as body. 400 iff the failure is a Mongoose ValidationError, with that error's message as body. Any other failure is 500 with the body "Internal Server Error". |
| BookEndpoints.ListResponse | api/books/index.ts:22-31 | A listed page is 200 with the page. A failed listing is 500. |
| BooksIndexTs.Handle | api/books/index.ts:7-72 | An unreachable database escapes. GET lists. POST runs the schema middleware first, then the admin check (401), then creates from the raw body. Other verbs get 405. |
| BooksIndexTs.Statuses | api/books/index.ts:10-71 | With the database up the handler always answers, with a status in {200, 201, 400, 401, 405, 500}. |
| BooksIndexTs.InvalidBodyStopsAtSchema | api/books/index.ts:43-47 | A body the schema rejects is answered 400 or 500 before the caller's role or the store is consulted. |
| BooksIndexTs.NonAdminNeverCreates | api/books/index.ts:48-51 | A valid body from a non-admin gets 401 and the store is not consulted. |
| BooksIndexTs.CreatesRawBody | api/books/index.ts:53-54 | What is created does not depend on the schema's parsed output, only on the request body. |
| BooksIndexTs.DefaultListingIsFirstTwelve | api/books/index.ts:12-27 | Without parameters, GET answers 200 with the first 12 books, newest first (ties by id). |
| BooksIndexJs.Handle | api/books/index.js:6-57 | An unreachable database escapes. GET lists newest first. POST checks admin (401), then the validator (400 "Validation Error" with its messages), then creates. Other verbs get 405. |
| BooksIndexJs.Statuses | api/books/index.js:9-56 | With the database up the handler always answers, with a status in {200, 201, 400, 401, 405, 500}. |
| BooksIndexJs.NonAdminStopsBeforeValidation | api/books/index.js:33-36 | A non-admin POST gets 401 whatever its body, without validation or store access. |
| BooksIndexJs.InvalidBodyNeverCreated | api/books/index.js:39-42 | An admin POST failing a rule gets 400 listing exactly the failed rules' messages (1 to 5 of them), without store access. |
| BooksIndexJs.DefaultListingIsFirstSixteen | api/books/index.js:11-26 | Without parameters, GET answers 200 with the first 16 books, newest first. |
| BookController.Index | api/_lib/controllers/BookController.ts:13-22 | `index` answers 200 with `getBooks(page, limit)` (defaults 1 and 12). It passes the store error to `next` exactly when the skip is negative. |
| BookController.Show | api/_lib/controllers/BookController.ts:24-39 | 400 "Invalid ID" iff the id is not a non-empty string. The lookup error goes to `next`. 404 iff no book is found. 200 with the book found. |
| BookController.Create | api/_lib/controllers/BookController.ts:41-51 | A schema failure goes to `next`. Otherwise the parsed data is created: 201 with the book, or the store error goes to `next`. |
| BookController.Update | api/_lib/controllers/BookController.ts:53-70 | 400 "Invalid ID" iff the id is invalid. Then the partial schema failure or store error goes to `next`, 404 if nothing is updated, 200 with the updated book. |
| BookController.Delete | api/_lib/controllers/BookController.ts:72-87 | 400 "Invalid ID" iff the id is invalid. The store error goes to `next`. 404 iff nothing is deleted. 200 "Book deleted successfully" iff a book is deleted. |
| BookController.IdCheckedFirst | api/_lib/controllers/BookController.ts:26-29 | An invalid id is answered 400 by show, update and delete before the store or the schema is consulted. |
| BookController.CreatesParsedData | api/_lib/controllers/BookController.ts:45-46 | `create` depends on the body only through the schema's parsed data. |
| BookController.ActionsNeverEscape | api/_lib/controllers/BookController.ts:13-87 | No action lets an exception escape. index, create and update always pass a concrete error to `next`. |
| BookController.ServedThroughErrorHandler | api/_lib/controllers/BookController.ts:41-51 | With the error handler behind them, a zod failure in create becomes 400 "Validation Error" and a negative skip in index becomes 500. index and create always produce a response. |
| BookController.IndexDefaults | api/_lib/controllers/BookController.ts:15-18 | Without parameters, index answers 200 with page 1 of 12 books. |
| AdminLogin.Login | api/admin/login.ts:4-37 | 405 iff not POST. 400 iff a credential is missing. 500 iff the admin credentials are not configured. 401 iff the username differs or the password does not match. 200 with a token iff all checks pass and signing succeeds. `next` is never called. |
| AdminLogin.MissingCredentialsFirst | api/admin/login.ts:11-13 | Missing credentials are answered 400 regardless of environment, hash check and signer. |
| AdminLogin.WrongUsernameSkipsPassword | api/admin/login.ts:23-25 | A wrong username is answered 401 before the password hash is compared. |
| AdminLogin.SameAnswerForEitherMismatch | api/admin/login.ts:23-31 | A wrong username and a wrong password get the identical answer. |
| AdminLogin.TokenOnlyForAdmin | api/admin/login.ts:34-36 | A token is only issued for the configured username with a matching password, and it is the signature of `{role: 'admin', username}`. |
| DriveThumbnail.GroupFrom | client/src/components/BookCard.tsx:10 | The lazy group `(.+?)` ends at the first position followed by '/' or the end, and never crosses a line terminator. |
| DriveThumbnail.FirstGroupFrom | client/src/components/BookCard.tsx:10 | `match` finds the leftmost position where the pattern matches, or none. |
| DriveThumbnail.GroupShape | client/src/components/BookCard.tsx:10-11 | A captured id follows "/d/", is non-empty, has no line terminator and no '/' after its first character, and is followed by '/' or the end. |
| DriveThumbnail.ThumbnailSlashes | client/src/components/BookCard.tsx:12 | A rebuilt thumbnail link has '/' only in its fixed prefix and possibly at the id's first character. |
| DriveThumbnail.ThumbnailHasNoMatch | client/src/components/BookCard.tsx:12 | The pattern does not match a rebuilt thumbnail link. |
| DriveThumbnail.DisplayUrl | client/src/components/BookCard.tsx:6-19 | No URL iff none or empty is given. Non-Drive links and Drive links without a match are unchanged. Otherwise the result is the thumbnail link for the leftmost id with the requested size. |
| DriveThumbnail.DisplayUrlIdempotent | client/src/components/BookCard.tsx:6-19 | Rewriting a rewritten URL changes nothing. |
| BookCard.GetDisplayUrl | client/src/components/BookCard.tsx:6-19 | No URL iff none or an empty one is given. Non-Drive links and Drive links without a `/d/<id>` match are unchanged. A Drive link with a match becomes the thumbnail link for the leftmost id with `sz=w400`. |
| BookCard.GetDisplayUrlIdempotent | client/src/components/BookCard.tsx:6-19 | The card's rewrite is idempotent. |
| BookDetails.GetDisplayUrl | client/src/pages/BookDetails.tsx:11-24 | No URL iff none or an empty one is given. Non-Drive links and Drive links without a `/d/<id>` match are unchanged. A Drive link with a match becomes the thumbnail link for the leftmost id with `sz=w800`. |
| BookDetails.GetDisplayUrlIdempotent | client/src/pages/BookDetails.tsx:11-24 | The details page's rewrite is idempotent. |
| SearchTool.Lower | api/search.ts:19 | The case-insensitive option folds each character, keeping the length. |
| SearchTool.BuildQuery | api/search.ts:15-45 | Each text field is in the query iff it is given, as a case-insensitive pattern. The date condition is present iff a year bound is given. A book satisfies the query iff it matches the tool's filter. |
| SearchTool.SatisfiesByField | api/search.ts:16-45 | Any query built field by field as above is satisfied by exactly the books matching the filter. |
| SearchTool.SelectAgrees | api/search.ts:49 | Running such a query over the catalogue selects the same books as the filter. |
| SearchTool.Find | api/search.ts:49 | `find(q).sort({publishedDate: -1}).limit(10)` returns `min(selected, 10)` records. Each is a stored book satisfying the query. They are ordered newest first, drawn from the selection, and no selected record left out is published later than one returned. |
| SearchTool.ProjectKeepsPublicFields | api/search.ts:64-73 | A result entry does not depend on the book's id, stock count or creation time. Two books that agree on those three have the same entry only if they are the same book. |
| SearchTool.ProjectAll | api/search.ts:60-74 | One envelope entry per hit, in order. |
| SearchTool.ServiceSearchBook | api/search.ts:15-75 | The tool's service returns the search outcome of the arguments over the catalogue. |
| SearchTool.MatchingSound | api/search.ts:49 | The matches are exactly the stored books satisfying the filter, and a sub-multiset of them. |
| SearchTool.OutcomeSound | api/search.ts:49-74 | The envelope has status "success", type "book", `count` equal to the number of results and at most 10. The results are projected hits that match the filter and are ordered newest first. |
| SearchTool.HitsAreLatestMatches | api/search.ts:49 | The hits are `min(matches, 10)` of the matches, and none left out is published later than one kept. |
| SearchTool.NoMatchIsEmptySuccess | api/search.ts:51-58 | If nothing matches, the answer is the empty success envelope. |
| SearchTool.EmptyFilterMatchesAll | api/search.ts:16-45 | No criteria gives an empty query, which matches every book. |
| SearchTool.ResultsWithinYears | api/search.ts:35-39 | With both years given, every hit is published between 1 January of the first and 31 December of the second. |
| SearchTool.ResultsContainTitle | api/search.ts:18-20 | With a title given, every hit's title contains it, ignoring case. |
| Conversation.ShouldContinue | api/search.ts:209-221 | Route to the tool node iff the last message carries a non-empty tool-call list, otherwise end. |
| Conversation.Prompt | api/search.ts:133-179 | `llmCall` sends the system instruction first, followed by the whole conversation unchanged. |
| Conversation.PromptHasOneInstruction | api/search.ts:133-183 | The instruction is not stored in the conversation (`llmCall` returns only the reply), so for a conversation without system messages the instruction is the only system message the model sees. |
| Conversation.Known | api/search.ts:193-195 | The calls that get a tool message: each is one of the step's calls and names the search tool, and there are no more of them than calls. |
| Conversation.ToolNode | api/search.ts:185-207 | The tool node's loop computes the tool step: one tool message per search call, in order; the tool's input error on a malformed search call; "action.invoke is not a function" on a call named after an `Object.prototype` member. |
| Conversation.DispatchAnswersEachCall | api/search.ts:192-204 | Dispatch succeeds iff every call is answerable: no call names an `Object.prototype` member and every search call has well-formed arguments. It then answers exactly the search calls, in order, each with its search outcome and call id. |
| Conversation.DispatchFailsAtFirst | api/search.ts:193-204 | A failed tool step fails at its first unanswerable call, with "action.invoke is not a function" for an inherited name and the tool's input error otherwise. |
| Conversation.DispatchFailureSticks | api/search.ts:193-204 | The first failing call ends the tool step, whatever follows. |
| Conversation.ToolStepAnswersCalls | api/search.ts:197-201 | A tool step keeps every tool message paired with an earlier request for its id, and adds no model reply. |
| Conversation.ReplyKeepsAnswers | api/search.ts:180-182 | Appending a model reply keeps the pairing and adds one reply. |
| Conversation.RunGraph | api/search.ts:223-235 | The graph run from the query alternates model and tool steps under the step limit. |
| Conversation.RunInvariant | api/search.ts:223-235 | A finished run extends its start state and ends with a reply that asks for no tool. It keeps every tool message answered and stores no system message. At most `(limit + 1) / 2` replies are added. |
| Conversation.QueryRunFinished | api/search.ts:232-235 | A finished run starts with the query, ends with a tool-free reply, has no system message, pairs each tool message, and holds at most 3 replies. |
| Conversation.EndlessSearchingHitsLimit | api/search.ts:232-235 | A model that always asks for searches makes the run fail with the step-limit error (`RecursionLimitError`). |
| Conversation.OneSearchThenAnswer | api/search.ts:133-235 | One search followed by a tool-free answer finishes with exactly query, request, tool answer and reply. |
| SearchHandler.Respond | api/search.ts:104-246 | 405 iff not POST. 400 iff the database is up and the query is falsy. 200 only for a finished run whose final text parses, with the parsed value as body. All else is 500. |
| SearchHandler.Handle | api/search.ts:104-246 | The handler computes that response. |
| SearchHandler.RejectedWithoutModel | api/search.ts:106-116 | Wrong verbs and missing queries are answered 405/400 whatever the model does. |
| SearchHandler.FinalText | api/search.ts:237-238 | The text handed to `JSON.parse` is never empty. It is "{}" or the last message's plain content, and it is that content whenever the content is a non-empty string. |
| SearchHandler.EmptyContentAnswersEmptyObject | api/search.ts:237-240 | A finished run whose last reply is empty or not a plain string is answered 200 with the empty object. |
| SearchHandler.FinalContentParsedVerbatim | api/search.ts:237-245 | Empty or non-string final content is read as "{}". Other text is parsed as it is. A parse failure is 500 carrying the parser's own error message. |
| SearchHandler.EndlessSearchingIsServerError | api/search.ts:242-245 | A model that never stops searching gets 500 whose `error` field is the step-limit error (`RecursionLimitError`). |

## Left out

- The hosted language model, the LangGraph runtime and the Groq client are a function from messages to a reply or a provider error. The system instruction is one constant string.
- Conversation.Run: the step limit counts node executions (5), not LangGraph super-steps, so the run stops when a sixth node would run.
- Database I/O: `dbConnect` is a flag saying whether the database is reachable.
- Conversation.RecursionLimitError and Http.ConnectError are stand-in texts. In the source, the search endpoint's 500 body carries `error.message` (`api/search.ts:242-245`). For the step limit that is the message of the graph runtime's recursion-limit error; `RecursionLimitError` gives only its first sentence. For an unreachable database it is whatever `dbConnect()` throws (`api/search.ts:111`); `ConnectError` is a fixed text in its place.
- The `$regex` match is a plain substring search after ASCII case folding. Regular-expression metacharacters in search terms and Unicode case folding are not modelled.
- Dates are calendar days. Time of day and time zones are not modelled. A book without a publication date sorts last.
- Ties in a sort keep their stored order. MongoDB gives no such guarantee when the keys are equal.
- zod schemas, `bcrypt.compare`, `jwt.sign` and `JSON.parse` are parameters; `JSON.parse` gives the parsed value or the message of its SyntaxError, which the search endpoint's 500 body carries. The `JSON.stringify` of a tool observation (`api/search.ts:199`) is not modelled: a tool message holds the structured result envelope. `verifyToken`'s header parsing (`api/_lib/auth.js`) becomes the decoded claims or none.
- The book service's pass-through calls (`getBookById`, `createBook`, `updateBook`, `deleteBook`) are functions of the service record. A create does not add the book to the modelled store.
- Listing.GetBooks: requires a non-zero limit. Callers never pass 0, because `parseInt(...) || d` turns 0 into the default.
- A `Promise` in `api/books/index.ts` that never resolves after a 400/401 from the middleware chain is not modelled. Only the response sent is modelled.
- Prices and stock counts are exact reals. NaN, Infinity and floating-point rounding are not modelled. Query parameters given as arrays are not modelled.
- A request without a body is not modelled: `req.body` is always an object (a value of the handler's input type). In the source an absent body makes the destructuring in `api/admin/login.ts:9` throw outside any `try`, makes `const { query } = req.body` in `api/search.ts:113` throw inside the `try` (answered 500), makes `validateBookInput(req.body)` in `api/books/index.js:39` throw outside any `try`, and reaches the schema unchanged in `api/books/index.ts` and the controller.
- Logging (`console.log`/`console.error`), CORS and the React rendering of the client pages are not modelled.
