/**
 * The plan/act loop of the natural-language search: a message list that
 * starts with the user's query, a model step that appends the model's reply,
 * a tool step that answers the reply's tool calls, and a router between
 * them; the run is cut off after a fixed number of steps.
 */
module Conversation {
  import opened Wrappers
  import opened JsValues
  import opened Catalog
  import SearchTool

  /** The one tool the model may call. */
  const SearchToolName := "searchBooks"

  /** The most node executions one run may take (`recursionLimit`). */
  const RecursionLimit: nat := 5

  /**
   * The message of the error a run stops with when it would need one more
   * step; the graph runtime's full text is longer.
   */
  const RecursionLimitError := "Recursion limit of 5 reached without hitting a stop condition."

  /** The error the tool raises for arguments that do not fit its schema. */
  const ToolInputError := "Received tool input did not match expected schema"

  /**
   * The error a call naming a member every plain object inherits raises:
   * the tool table looks such a name up successfully, and the thing found
   * has no `invoke`.
   */
  const NotAToolError := "action.invoke is not a function"

  /**
   * The names a lookup in a plain object literal finds although no tool was
   * registered under them: the members of `Object.prototype`.
   */
  predicate InheritedName(name: string) {
    name in InheritedNames
  }

  const InheritedNames: set<string> :=
    {"constructor", "hasOwnProperty", "isPrototypeOf", "propertyIsEnumerable",
     "toLocaleString", "toString", "valueOf", "__proto__",
     "__defineGetter__", "__defineSetter__", "__lookupGetter__", "__lookupSetter__"}

  /**
   * The system instruction sent ahead of every model call: act as a
   * bookstore search assistant, call one tool at most, and answer with one
   * JSON object of the search-result shape and nothing else.
   */
  const SearchInstructions := "bookstore search assistant: one tool call at most, then exactly one JSON result object"

  /** A tool invocation the model asks for; `args` is `None` when they do not fit the tool's schema. */
  datatype ToolCall = ToolCall(name: string, id: string, args: Option<SearchTool.SearchArgs>)

  /** A message's content: a string, or a list of content parts. */
  datatype Content = Plain(text: string) | Parts(parts: seq<string>)

  datatype Message =
    | SystemMessage(instructions: string)
    | HumanMessage(query: JsValue)
    | AIMessage(content: Content, toolCalls: Option<seq<ToolCall>>)
    | ToolMessage(observation: SearchTool.SearchResult, toolCallId: string)

  /** What the model returns: an assistant message. */
  type Reply = m: Message | m.AIMessage? witness AIMessage(Plain(""), None)

  /** The hosted model: the messages it is sent, to a reply or a provider error. */
  type Model = seq<Message> -> Result<Reply, string>

  /** The node the graph runs next. */
  datatype Node = CallModel | CallTools | Done

  function Last(s: seq<Message>): Message
    requires s != []
  {
    s[|s| - 1]
  }

  /** `message.tool_calls`: only assistant messages carry them. */
  function ToolCallsOf(m: Message): Option<seq<ToolCall>> {
    if m.AIMessage? then m.toolCalls else None
  }

  predicate HasToolCalls(m: Message) {
    ToolCallsOf(m).Some? && |ToolCallsOf(m).value| > 0
  }

  /**
   * `shouldContinue`: after a model step, run the tools when the last
   * message asks for at least one, and end otherwise.
   */
  function ShouldContinue(state: seq<Message>): (n: Node)
    ensures n == CallTools <==> state != [] && HasToolCalls(Last(state))
    ensures n != CallModel
  {
    if state == [] || ToolCallsOf(Last(state)).None? then Done
    else if |ToolCallsOf(Last(state)).value| > 0 then CallTools
    else Done
  }

  /** What the model is sent: the system instruction, then the conversation so far, unchanged. */
  function Prompt(state: seq<Message>): (p: seq<Message>)
    ensures |p| == |state| + 1 && p[0] == SystemMessage(SearchInstructions) && p[1..] == state
  {
    [SystemMessage(SearchInstructions)] + state
  }

  /**
   * The instruction is not stored in the conversation, so in a conversation
   * without system messages it is the only system message the model sees.
   */
  lemma PromptHasOneInstruction(state: seq<Message>)
    requires NoSystemMessage(state)
    ensures forall i :: 0 <= i < |Prompt(state)| ==> (Prompt(state)[i].SystemMessage? <==> i == 0)
  {
    var p := Prompt(state);
    forall i | 0 < i < |p| ensures !p[i].SystemMessage? {
      assert p[i] == state[i - 1];
    }
  }

  /** `llmCall`: the model's answer to the prompt; the reply alone is what the step adds. */
  function LlmCall(model: Model, state: seq<Message>): Result<Reply, string> {
    model(Prompt(state))
  }

  // ---------------------------------------------------------------------
  // The tool step

  /** The calls the tool step can serve, in order: those naming the search tool. */
  function Known(calls: seq<ToolCall>): (r: seq<ToolCall>)
    ensures |r| <= |calls|
    ensures forall c :: c in r ==> c in calls && c.name == SearchToolName
  {
    if calls == [] then []
    else
      var c := calls[|calls| - 1];
      Known(calls[..|calls| - 1]) + (if c.name == SearchToolName then [c] else [])
  }

  /** A call the tool step can get past: not an inherited name, and well-formed arguments when it names the search tool. */
  predicate Answerable(c: ToolCall) {
    !InheritedName(c.name) && (c.name == SearchToolName ==> c.args.Some?)
  }

  /**
   * Answers the calls left to right; a search call with bad arguments, or a
   * call naming an inherited member, aborts the step; a call naming any
   * other tool is passed over.
   */
  function Dispatch(calls: seq<ToolCall>, books: seq<Book>): Result<seq<Message>, string> {
    if calls == [] then Success([])
    else
      match Dispatch(calls[..|calls| - 1], books)
      case Failure(e) => Failure(e)
      case Success(prev) =>
        var c := calls[|calls| - 1];
        if c.name == SearchToolName then
          if c.args.None? then Failure(ToolInputError)
          else Success(prev + [ToolMessage(SearchTool.Outcome(books, c.args.value), c.id)])
        else if InheritedName(c.name) then Failure(NotAToolError)
        else Success(prev)
  }

  /** What the tool step adds to the conversation. */
  function ToolStep(state: seq<Message>, books: seq<Book>): Result<seq<Message>, string> {
    if state == [] || ToolCallsOf(Last(state)).None? then Success([])
    else Dispatch(ToolCallsOf(Last(state)).value, books)
  }

  lemma {:induction false} DispatchFailureSticks(calls: seq<ToolCall>, k: nat, books: seq<Book>)
    requires k <= |calls|
    requires Dispatch(calls[..k], books).Failure?
    ensures Dispatch(calls, books) == Dispatch(calls[..k], books)
    decreases |calls| - k
  {
    if k < |calls| {
      assert calls[..k + 1][..k] == calls[..k];
      DispatchFailureSticks(calls, k + 1, books);
    } else {
      assert calls[..k] == calls;
    }
  }

  /**
   * `toolNode`: for each call naming the search tool, in order, runs the
   * search and appends a tool message carrying the call's id; a call naming
   * a member of `Object.prototype` throws; calls naming any other tool are
   * skipped.
   */
  method ToolNode(state: seq<Message>, books: seq<Book>) returns (r: Result<seq<Message>, string>)
    ensures r == ToolStep(state, books)
  {
    if state == [] || ToolCallsOf(Last(state)).None? {
      return Success([]);
    }
    var calls := ToolCallsOf(Last(state)).value;
    var result: seq<Message> := [];
    var i := 0;
    while i < |calls|
      invariant 0 <= i <= |calls|
      invariant Dispatch(calls[..i], books) == Success(result)
    {
      var call := calls[i];
      assert calls[..i + 1][..i] == calls[..i];
      if call.name == SearchToolName {
        if call.args.None? {
          DispatchFailureSticks(calls, i + 1, books);
          return Failure(ToolInputError);
        }
        var observation := SearchTool.ServiceSearchBook(call.args.value, books);
        result := result + [ToolMessage(observation, call.id)];
      } else if InheritedName(call.name) {
        DispatchFailureSticks(calls, i + 1, books);
        return Failure(NotAToolError);
      }
      i := i + 1;
    }
    assert calls[..i] == calls;
    r := Success(result);
  }

  /**
   * The tool step succeeds exactly when every call is answerable, and then
   * emits one tool message per search call, in call order, answering that
   * call's id with that call's search result.
   */
  lemma {:induction false} DispatchAnswersEachCall(calls: seq<ToolCall>, books: seq<Book>)
    ensures Dispatch(calls, books).Success? <==> forall c :: c in calls ==> Answerable(c)
    ensures Dispatch(calls, books).Success? ==>
      var ms := Dispatch(calls, books).value; var ks := Known(calls);
      && |ms| == |ks|
      && forall i :: 0 <= i < |ms| ==>
           ms[i] == ToolMessage(SearchTool.Outcome(books, ks[i].args.value), ks[i].id)
  {
    DispatchSucceedsIffAnswerable(calls, books);
    if Dispatch(calls, books).Success? {
      DispatchMessages(calls, books);
    }
  }

  lemma {:induction false} DispatchSucceedsIffAnswerable(calls: seq<ToolCall>, books: seq<Book>)
    ensures Dispatch(calls, books).Success? <==> forall c :: c in calls ==> Answerable(c)
  {
    if calls != [] {
      var init, c := calls[..|calls| - 1], calls[|calls| - 1];
      DispatchSucceedsIffAnswerable(init, books);
      assert calls == init + [c];
      AllAnswerableSnoc(init, c);
    }
  }

  lemma AllAnswerableSnoc(init: seq<ToolCall>, c: ToolCall)
    ensures (forall x :: x in init + [c] ==> Answerable(x)) <==> (forall x :: x in init ==> Answerable(x)) && Answerable(c)
  {
    assert forall x :: x in init + [c] <==> x in init || x == c;
  }

  lemma {:induction false} DispatchMessages(calls: seq<ToolCall>, books: seq<Book>)
    requires Dispatch(calls, books).Success?
    ensures forall c :: c in Known(calls) ==> c.args.Some?
    ensures var ms := Dispatch(calls, books).value; var ks := Known(calls);
      && |ms| == |ks|
      && forall i :: 0 <= i < |ms| ==>
           ms[i] == ToolMessage(SearchTool.Outcome(books, ks[i].args.value), ks[i].id)
  {
    if calls != [] {
      var init, c := calls[..|calls| - 1], calls[|calls| - 1];
      DispatchMessages(init, books);
      assert Known(calls) == Known(init) + (if c.name == SearchToolName then [c] else []);
    }
  }

  /** The error a call that is not answerable raises. */
  function ErrorFor(c: ToolCall): string {
    if InheritedName(c.name) then NotAToolError else ToolInputError
  }

  /** `calls[i]` is the first call that is not answerable, and `e` is its error. */
  predicate StopsAt(calls: seq<ToolCall>, i: int, e: string) {
    && 0 <= i < |calls| && !Answerable(calls[i]) && e == ErrorFor(calls[i])
    && forall j :: 0 <= j < i ==> Answerable(calls[j])
  }

  /** A failed tool step fails with the error of its first call that is not answerable. */
  lemma {:induction false} DispatchFailsAtFirst(calls: seq<ToolCall>, books: seq<Book>)
    requires Dispatch(calls, books).Failure?
    ensures exists i :: StopsAt(calls, i, Dispatch(calls, books).error)
  {
    var init, c := calls[..|calls| - 1], calls[|calls| - 1];
    assert calls == init + [c];
    if Dispatch(init, books).Failure? {
      DispatchFailsAtFirst(init, books);
      var i :| StopsAt(init, i, Dispatch(init, books).error);
      StopsAtExtends(init, c, i, Dispatch(init, books).error);
    } else {
      DispatchSucceedsIffAnswerable(init, books);
      StopsAtLast(init, c);
    }
  }

  lemma StopsAtExtends(init: seq<ToolCall>, c: ToolCall, i: int, e: string)
    requires StopsAt(init, i, e)
    ensures StopsAt(init + [c], i, e)
  {
    assert forall j :: 0 <= j < |init| ==> (init + [c])[j] == init[j];
  }

  lemma StopsAtLast(init: seq<ToolCall>, c: ToolCall)
    requires forall x :: x in init ==> Answerable(x)
    requires !Answerable(c)
    ensures StopsAt(init + [c], |init|, ErrorFor(c))
  {
    forall j | 0 <= j < |init| ensures Answerable((init + [c])[j]) {
      assert (init + [c])[j] == init[j] && init[j] in init;
    }
  }

  // ---------------------------------------------------------------------
  // The graph run

  datatype RunOutcome = Finished(messages: seq<Message>) | Failed(error: string)

  /**
   * The run from a given state: `next` is the node to execute and `steps`
   * the number already executed; executing one more than `limit` fails.
   */
  function Run(model: Model, books: seq<Book>, state: seq<Message>, next: Node, steps: nat, limit: nat): RunOutcome
    decreases limit - steps
  {
    if next == Done then Finished(state)
    else if steps >= limit then Failed(RecursionLimitError)
    else if next == CallModel then
      match LlmCall(model, state)
      case Failure(e) => Failed(e)
      case Success(reply) =>
        var s := state + [reply];
        Run(model, books, s, ShouldContinue(s), steps + 1, limit)
    else
      match ToolStep(state, books)
      case Failure(e) => Failed(e)
      case Success(ms) => Run(model, books, state + ms, CallModel, steps + 1, limit)
  }

  /** A run for a query starts from the query alone and calls the model first. */
  function RunQuery(model: Model, books: seq<Book>, query: JsValue): RunOutcome {
    Run(model, books, [HumanMessage(query)], CallModel, 0, RecursionLimit)
  }

  /** `graph.invoke({ messages: [new HumanMessage(query)] }, { recursionLimit: 5 })` */
  method RunGraph(model: Model, books: seq<Book>, query: JsValue) returns (out: RunOutcome)
    ensures out == RunQuery(model, books, query)
  {
    var messages := [HumanMessage(query)];
    var next := CallModel;
    var steps := 0;
    while next != Done
      invariant steps <= RecursionLimit
      invariant Run(model, books, messages, next, steps, RecursionLimit) == RunQuery(model, books, query)
      decreases RecursionLimit - steps, if next == Done then 0 else 1
    {
      if steps == RecursionLimit {
        return Failed(RecursionLimitError);
      }
      if next == CallModel {
        var reply := LlmCall(model, messages);
        if reply.Failure? {
          return Failed(reply.error);
        }
        messages := messages + [reply.value];
        next := ShouldContinue(messages);
      } else {
        var added := ToolNode(messages, books);
        if added.Failure? {
          return Failed(added.error);
        }
        messages := messages + added.value;
        next := CallModel;
      }
      steps := steps + 1;
    }
    out := Finished(messages);
  }

  // ---------------------------------------------------------------------
  // What a run promises

  predicate NoSystemMessage(s: seq<Message>) {
    forall i :: 0 <= i < |s| ==> !s[i].SystemMessage?
  }

  /** `m` is an assistant message with a search call whose id is `id`. */
  predicate AsksFor(m: Message, id: string) {
    m.AIMessage? && m.toolCalls.Some?
    && exists c :: c in m.toolCalls.value && c.name == SearchToolName && c.id == id
  }

  /** Every tool message answers a search call made by an earlier assistant message. */
  predicate ToolMessagesAnswerCalls(s: seq<Message>) {
    forall k :: 0 <= k < |s| && s[k].ToolMessage? ==>
      exists j :: 0 <= j < k && AsksFor(s[j], s[k].toolCallId)
  }

  /** The number of assistant messages: how many times the model answered. */
  function Replies(s: seq<Message>): nat {
    if s == [] then 0 else Replies(s[..|s| - 1]) + (if Last(s).AIMessage? then 1 else 0)
  }

  lemma {:induction false} RepliesAppend(s: seq<Message>, t: seq<Message>)
    ensures Replies(s + t) == Replies(s) + Replies(t)
    decreases |t|
  {
    if t != [] {
      assert (s + t)[..|s + t| - 1] == s + t[..|t| - 1];
      assert Last(s + t) == Last(t);
      RepliesAppend(s, t[..|t| - 1]);
    } else {
      assert s + t == s;
    }
  }

  lemma ToolStepAnswersCalls(state: seq<Message>, books: seq<Book>)
    requires ToolMessagesAnswerCalls(state)
    requires ToolStep(state, books).Success?
    ensures ToolMessagesAnswerCalls(state + ToolStep(state, books).value)
    ensures NoSystemMessage(state) ==> NoSystemMessage(state + ToolStep(state, books).value)
    ensures Replies(state + ToolStep(state, books).value) == Replies(state)
  {
    var ms := ToolStep(state, books).value;
    if state != [] && ToolCallsOf(Last(state)).Some? {
      var calls := ToolCallsOf(Last(state)).value;
      DispatchAnswersEachCall(calls, books);
      var ks := Known(calls);
      forall i | 0 <= i < |ms|
        ensures ms[i].ToolMessage? && AsksFor(Last(state), ms[i].toolCallId)
      {
        assert ks[i] in ks;
      }
      AnswersAppended(state, ms);
      RepliesAppend(state, ms);
      NoRepliesAmongToolMessages(ms);
    } else {
      assert ms == [];
      assert state + ms == state;
    }
  }

  /** Appending tool messages that answer calls of the last assistant message keeps every tool message paired. */
  lemma AnswersAppended(state: seq<Message>, ms: seq<Message>)
    requires state != [] && ToolMessagesAnswerCalls(state)
    requires forall i :: 0 <= i < |ms| ==> ms[i].ToolMessage? && AsksFor(Last(state), ms[i].toolCallId)
    ensures ToolMessagesAnswerCalls(state + ms)
    ensures NoSystemMessage(state) ==> NoSystemMessage(state + ms)
  {
    var s := state + ms;
    forall k | 0 <= k < |s| && s[k].ToolMessage?
      ensures exists j :: 0 <= j < k && AsksFor(s[j], s[k].toolCallId)
    {
      if k >= |state| {
        assert s[k] == ms[k - |state|];
        assert s[|state| - 1] == Last(state);
      } else {
        assert s[k] == state[k];
        var j :| 0 <= j < k && AsksFor(state[j], state[k].toolCallId);
        assert s[j] == state[j];
      }
    }
  }

  lemma {:induction false} NoRepliesAmongToolMessages(ms: seq<Message>)
    requires forall i :: 0 <= i < |ms| ==> ms[i].ToolMessage?
    ensures Replies(ms) == 0
  {
    if ms != [] {
      NoRepliesAmongToolMessages(ms[..|ms| - 1]);
    }
  }

  lemma ReplyKeepsAnswers(state: seq<Message>, reply: Reply)
    requires ToolMessagesAnswerCalls(state)
    ensures ToolMessagesAnswerCalls(state + [reply])
    ensures NoSystemMessage(state) ==> NoSystemMessage(state + [reply])
    ensures Replies(state + [reply]) == Replies(state) + 1
  {
    var s := state + [reply];
    assert s[..|s| - 1] == state;
    forall k | 0 <= k < |s| && s[k].ToolMessage?
      ensures exists j :: 0 <= j < k && AsksFor(s[j], s[k].toolCallId)
    {
      assert k < |state| && s[k] == state[k];
      var j :| 0 <= j < k && AsksFor(state[j], state[k].toolCallId);
      assert s[j] == state[j];
    }
  }

  /**
   * `out`, when finished, extends `state`, ends with an assistant message
   * that asks for no tool, keeps every tool message paired with the call it
   * answers, stores no system message when `state` held none, and holds one
   * model reply per two steps at most.
   */
  predicate FinishedFrom(state: seq<Message>, out: RunOutcome, limit: nat) {
    out.Finished? ==>
      var ms := out.messages;
      && |ms| > |state| && ms[..|state|] == state
      && Last(ms).AIMessage? && !HasToolCalls(Last(ms))
      && ToolMessagesAnswerCalls(ms)
      && (NoSystemMessage(state) ==> NoSystemMessage(ms))
      && 2 * Replies(ms) <= limit + 1
  }

  /** What holds of a run from a longer state holds of the run from a prefix of it. */
  lemma FinishedFromPrefix(state: seq<Message>, s: seq<Message>, out: RunOutcome, limit: nat)
    requires |state| <= |s| && s[..|state|] == state
    requires NoSystemMessage(state) ==> NoSystemMessage(s)
    requires FinishedFrom(s, out, limit)
    ensures FinishedFrom(state, out, limit)
  {
    if out.Finished? {
      assert out.messages[..|state|] == out.messages[..|s|][..|state|];
    }
  }

  /**
   * Every run from a state whose tool messages are paired, and whose replies
   * number half the steps taken, finishes as `FinishedFrom` says.
   */
  lemma {:induction false} RunInvariant(model: Model, books: seq<Book>, state: seq<Message>, next: Node, steps: nat, limit: nat)
    requires next != Done
    requires ToolMessagesAnswerCalls(state)
    requires next == CallModel ==> 2 * Replies(state) == steps
    requires next == CallTools ==> 2 * Replies(state) == steps + 1
    ensures FinishedFrom(state, Run(model, books, state, next, steps, limit), limit)
    decreases limit - steps, 2
  {
    if steps < limit {
      if next == CallModel {
        ModelStepInvariant(model, books, state, steps, limit);
      } else {
        ToolStepInvariant(model, books, state, steps, limit);
      }
    }
  }

  lemma ModelStepInvariant(model: Model, books: seq<Book>, state: seq<Message>, steps: nat, limit: nat)
    requires steps < limit
    requires ToolMessagesAnswerCalls(state)
    requires 2 * Replies(state) == steps
    ensures FinishedFrom(state, Run(model, books, state, CallModel, steps, limit), limit)
    decreases limit - steps, 1
  {
    RunModelStep(model, books, state, steps, limit);
    if LlmCall(model, state).Success? {
      var reply := LlmCall(model, state).value;
      ReplyKeepsAnswers(state, reply);
      if ShouldContinue(state + [reply]) != Done {
        ContinueAfterReply(model, books, state, reply, steps, limit);
      } else {
        FinalReply(state, reply, limit);
      }
    }
  }

  lemma ContinueAfterReply(model: Model, books: seq<Book>, state: seq<Message>, reply: Reply, steps: nat, limit: nat)
    requires steps < limit
    requires ToolMessagesAnswerCalls(state + [reply])
    requires NoSystemMessage(state) ==> NoSystemMessage(state + [reply])
    requires ShouldContinue(state + [reply]) != Done
    requires 2 * Replies(state + [reply]) == steps + 2
    ensures FinishedFrom(state, Run(model, books, state + [reply], ShouldContinue(state + [reply]), steps + 1, limit), limit)
    decreases limit - steps, 0
  {
    var s := state + [reply];
    RunInvariant(model, books, s, ShouldContinue(s), steps + 1, limit);
    assert s[..|state|] == state;
    FinishedFromPrefix(state, s, Run(model, books, s, ShouldContinue(s), steps + 1, limit), limit);
  }

  /** One model step of a run: the reply is appended and routed, or the run fails. */
  lemma RunModelStep(model: Model, books: seq<Book>, state: seq<Message>, steps: nat, limit: nat)
    requires steps < limit
    ensures LlmCall(model, state).Failure? ==> Run(model, books, state, CallModel, steps, limit).Failed?
    ensures LlmCall(model, state).Success? ==>
      var s := state + [LlmCall(model, state).value];
      Run(model, books, state, CallModel, steps, limit) == Run(model, books, s, ShouldContinue(s), steps + 1, limit)
  {
  }

  /** A reply that asks for no tool, after a paired state, ends a run as `FinishedFrom` says. */
  lemma FinalReply(state: seq<Message>, reply: Reply, limit: nat)
    requires ToolMessagesAnswerCalls(state + [reply])
    requires NoSystemMessage(state) ==> NoSystemMessage(state + [reply])
    requires ShouldContinue(state + [reply]) == Done
    requires 2 * Replies(state + [reply]) <= limit + 1
    ensures FinishedFrom(state, Finished(state + [reply]), limit)
  {
    assert (state + [reply])[..|state|] == state;
  }

  lemma ToolStepInvariant(model: Model, books: seq<Book>, state: seq<Message>, steps: nat, limit: nat)
    requires steps < limit
    requires ToolMessagesAnswerCalls(state)
    requires 2 * Replies(state) == steps + 1
    ensures FinishedFrom(state, Run(model, books, state, CallTools, steps, limit), limit)
    decreases limit - steps, 1
  {
    var added := ToolStep(state, books);
    if added.Success? {
      var s := state + added.value;
      ToolStepAnswersCalls(state, books);
      assert s[..|state|] == state;
      RunInvariant(model, books, s, CallModel, steps + 1, limit);
      FinishedFromPrefix(state, s, Run(model, books, s, CallModel, steps + 1, limit), limit);
    }
  }

  /**
   * A finished run for a query: the conversation starts with the query,
   * ends with an assistant message that asks for no tool, never stores the
   * system instruction, pairs every tool message with the call it answers,
   * and the model answered at most three times.
   */
  lemma QueryRunFinished(model: Model, books: seq<Book>, query: JsValue)
    ensures RunQuery(model, books, query).Finished? ==>
      var ms := RunQuery(model, books, query).messages;
      && |ms| >= 2 && ms[0] == HumanMessage(query)
      && Last(ms).AIMessage? && !HasToolCalls(Last(ms))
      && NoSystemMessage(ms)
      && ToolMessagesAnswerCalls(ms)
      && Replies(ms) <= 3
  {
    var init := [HumanMessage(query)];
    assert Replies(init) == 0 by {
      assert init[..0] == [];
    }
    RunInvariant(model, books, init, CallModel, 0, RecursionLimit);
  }

  /** An assistant message that asks only for searches, each with well-formed arguments. */
  predicate SearchesOnly(m: Message) {
    HasToolCalls(m)
    && forall c :: c in m.toolCalls.value ==> c.name == SearchToolName && c.args.Some?
  }

  /** The model asks for searches every time it is called. */
  ghost predicate AlwaysSearches(model: Model) {
    forall s :: model(s).Success? && SearchesOnly(model(s).value)
  }

  /** A model that never stops asking for the tool runs into the step limit. */
  lemma {:induction false} EndlessSearchingHitsLimit(model: Model, books: seq<Book>, state: seq<Message>, next: Node, steps: nat, limit: nat)
    requires AlwaysSearches(model)
    requires next != Done
    requires next == CallTools ==> state != [] && SearchesOnly(Last(state))
    ensures Run(model, books, state, next, steps, limit) == Failed(RecursionLimitError)
    decreases limit - steps
  {
    if steps < limit {
      if next == CallModel {
        var reply := LlmCall(model, state);
        var s := state + [reply.value];
        assert Last(s) == reply.value;
        EndlessSearchingHitsLimit(model, books, s, ShouldContinue(s), steps + 1, limit);
      } else {
        var calls := ToolCallsOf(Last(state)).value;
        DispatchAnswersEachCall(calls, books);
        EndlessSearchingHitsLimit(model, books, state + ToolStep(state, books).value, CallModel, steps + 1, limit);
      }
    }
  }

  /**
   * One search round trip: the model asks for one search, sees its result,
   * and answers without a tool call; the run ends after three steps with
   * the query, the request, the tool's answer and the final reply.
   */
  lemma OneSearchThenAnswer(model: Model, books: seq<Book>, query: JsValue, call: ToolCall, final: Reply)
    requires call.name == SearchToolName && call.args.Some?
    requires !HasToolCalls(final)
    requires model([SystemMessage(SearchInstructions), HumanMessage(query)])
      == Success(AIMessage(Plain(""), Some([call])))
    requires model([SystemMessage(SearchInstructions), HumanMessage(query), AIMessage(Plain(""), Some([call])),
                    ToolMessage(SearchTool.Outcome(books, call.args.value), call.id)])
      == Success(final)
    ensures RunQuery(model, books, query) == Finished([HumanMessage(query), AIMessage(Plain(""), Some([call])),
                    ToolMessage(SearchTool.Outcome(books, call.args.value), call.id), final])
  {
    var ask: Message := AIMessage(Plain(""), Some([call]));
    var answer := ToolMessage(SearchTool.Outcome(books, call.args.value), call.id);
    var s0 := [HumanMessage(query)];
    assert [SystemMessage(SearchInstructions)] + s0 == [SystemMessage(SearchInstructions), HumanMessage(query)];
    assert LlmCall(model, s0) == Success(ask);
    var s1 := s0 + [ask];
    assert ShouldContinue(s1) == CallTools;
    assert [call][..0] == [];
    assert Dispatch([call], books) == Success([] + [answer]);
    assert [] + [answer] == [answer];
    assert Last(s1) == ask && ToolCallsOf(ask) == Some([call]);
    assert ToolStep(s1, books) == Success([answer]);
    var s2 := s1 + [answer];
    assert [SystemMessage(SearchInstructions)] + s2 == [SystemMessage(SearchInstructions), HumanMessage(query), ask, answer];
    assert LlmCall(model, s2) == Success(final);
    assert s2 + [final] == [HumanMessage(query), ask, answer, final];
    assert ShouldContinue(s2 + [final]) == Done;
  }
}
