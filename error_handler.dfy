/**
 * The error-handling middleware and the validation middleware: how a thrown
 * error or a failed schema parse becomes a response.
 */
module ErrorHandler {
  import opened Wrappers
  import opened Http

  /** `path.join('.')` */
  function JoinPath(path: seq<string>): string {
    if path == [] then ""
    else if |path| == 1 then path[0]
    else JoinPath(path[..|path| - 1]) + "." + path[|path| - 1]
  }

  /** Splitting at every '.', the inverse of `JoinPath` when no segment contains a dot. */
  function SplitPath(s: string): (r: seq<string>)
    ensures |r| >= 1
  {
    if s == [] then [""]
    else if s[|s| - 1] == '.' then SplitPath(s[..|s| - 1]) + [""]
    else
      var init := SplitPath(s[..|s| - 1]);
      init[..|init| - 1] + [init[|init| - 1] + [s[|s| - 1]]]
  }

  /** A path segment with no '.' in it. */
  predicate DotFree(seg: string) {
    forall k :: 0 <= k < |seg| ==> seg[k] != '.'
  }

  predicate Dotless(p: seq<string>) {
    forall i :: 0 <= i < |p| ==> DotFree(p[i])
  }

  /** `r` with `seg` added to the end of its last element. */
  function ExtendLast(r: seq<string>, seg: string): (t: seq<string>)
    requires |r| >= 1
    ensures |t| == |r|
  {
    r[..|r| - 1] + [r[|r| - 1] + seg]
  }

  /** Appending a character other than '.' extends the last segment. */
  lemma SplitAppendChar(s: string, c: char)
    requires c != '.'
    ensures SplitPath(s + [c]) == ExtendLast(SplitPath(s), [c])
  {
    assert (s + [c])[..|s + [c]| - 1] == s;
  }

  /** Extending the last element twice is extending it once by both pieces. */
  lemma ExtendTwice(r: seq<string>, a: string, b: string)
    requires |r| >= 1
    ensures ExtendLast(ExtendLast(r, a), b) == ExtendLast(r, a + b)
  {
    var t := ExtendLast(r, a);
    assert t[..|t| - 1] == r[..|r| - 1];
    assert t[|t| - 1] + b == r[|r| - 1] + (a + b);
  }

  /** Appending a dot-free segment extends the last segment of the split. */
  lemma {:induction false} SplitAppendSegment(s: string, seg: string)
    requires DotFree(seg)
    ensures SplitPath(s + seg) == ExtendLast(SplitPath(s), seg)
    decreases |seg|
  {
    if seg == [] {
      SplitAppendNothing(s);
    } else {
      var init, c := seg[..|seg| - 1], seg[|seg| - 1];
      DotFreePrefix(seg);
      SplitAppendSegment(s, init);
      SplitSegmentStep(s, init, c);
      assert init + [c] == seg;
    }
  }

  /** The inductive step of `SplitAppendSegment`: one more dot-free character. */
  lemma SplitSegmentStep(s: string, init: string, c: char)
    requires c != '.'
    requires SplitPath(s + init) == ExtendLast(SplitPath(s), init)
    ensures SplitPath(s + (init + [c])) == ExtendLast(SplitPath(s), init + [c])
  {
    SplitExtendChar(s + init, c, SplitPath(s), init);
    assert (s + init) + [c] == s + (init + [c]);
  }

  lemma SplitAppendNothing(s: string)
    ensures SplitPath(s + "") == ExtendLast(SplitPath(s), "")
  {
    var r := SplitPath(s);
    assert s + "" == s;
    assert r[|r| - 1] + "" == r[|r| - 1];
    assert r[..|r| - 1] + [r[|r| - 1]] == r;
  }

  lemma DotFreePrefix(seg: string)
    requires seg != [] && DotFree(seg)
    ensures DotFree(seg[..|seg| - 1]) && seg[|seg| - 1] != '.'
  {
    var init := seg[..|seg| - 1];
    forall k | 0 <= k < |init| ensures init[k] != '.' {
      assert init[k] == seg[k];
    }
  }

  /** One more dot-free character after a split that ends in `init`. */
  lemma SplitExtendChar(x: string, c: char, r: seq<string>, init: string)
    requires c != '.' && |r| >= 1
    requires SplitPath(x) == ExtendLast(r, init)
    ensures SplitPath(x + [c]) == ExtendLast(r, init + [c])
  {
    SplitAppendChar(x, c);
    ExtendTwice(r, init, [c]);
  }

  /** Splitting a joined path at its dots gives the path back, when no segment has a dot in it. */
  lemma {:induction false} SplitJoin(p: seq<string>)
    requires |p| >= 1 && Dotless(p)
    ensures SplitPath(JoinPath(p)) == p
  {
    var init, last := p[..|p| - 1], p[|p| - 1];
    assert DotFree(last);
    if |p| == 1 {
      SplitAppendSegment("", last);
      assert "" + last == last == JoinPath(p);
      assert ExtendLast([""], last) == [last] == p;
    } else {
      assert Dotless(init) by {
        forall i | 0 <= i < |init| ensures DotFree(init[i]) {
          assert init[i] == p[i];
        }
      }
      SplitJoin(init);
      assert JoinPath(p) == JoinPath(init) + "." + last;
      SplitDotSegment(JoinPath(init), last);
      assert init + [last] == p;
    }
  }

  /** A dot then a dot-free segment adds that segment to the split. */
  lemma SplitDotSegment(j: string, last: string)
    requires DotFree(last)
    ensures SplitPath(j + "." + last) == SplitPath(j) + [last]
  {
    var r := SplitPath(j);
    assert (j + ".")[..|j|] == j;
    var r' := SplitPath(j + ".");
    assert r' == r + [""];
    SplitAppendSegment(j + ".", last);
    assert r'[..|r'| - 1] == r;
    assert "" + last == last;
    assert ExtendLast(r', last) == r + [last];
  }

  /** One `{ field, message }` entry per schema issue, in issue order. */
  function IssueEntries(issues: seq<Issue>): (r: seq<FieldIssue>)
    ensures |r| == |issues|
    ensures forall i :: 0 <= i < |issues| ==> r[i] == FieldIssue(JoinPath(issues[i].path), issues[i].message)
  {
    if issues == [] then [] else [FieldIssue(JoinPath(issues[0].path), issues[0].message)] + IssueEntries(issues[1..])
  }

  /** One `{ field, message }` entry per store validation error, in order. */
  function SubErrorEntries(errors: seq<SubError>): (r: seq<FieldIssue>)
    ensures |r| == |errors|
    ensures forall i :: 0 <= i < |errors| ==> r[i] == FieldIssue(errors[i].path, errors[i].message)
  {
    if errors == [] then [] else [FieldIssue(errors[0].path, errors[0].message)] + SubErrorEntries(errors[1..])
  }

  /** The kinds of error the handler tells apart, in the order it tests them. */
  datatype ErrorKind = SchemaInvalid | StoreInvalid | BadId | Unexpected

  function KindOf(err: JsError): ErrorKind {
    if err.isZodError then SchemaInvalid
    else if err.name == "ValidationError" then StoreInvalid
    else if err.name == "CastError" then BadId
    else Unexpected
  }

  /**
   * `errorHandler`: a schema error and a store validation error give 400
   * with one entry per issue, a malformed id gives 400, anything else 500.
   * It always answers and never passes the error on.
   */
  function HandleError(err: JsError): (r: Response)
    ensures r.status == 400 <==> KindOf(err) != Unexpected
    ensures KindOf(err) == SchemaInvalid ==> r.body == IssuesBody("Validation Error", IssueEntries(err.issues))
    ensures KindOf(err) == StoreInvalid ==> r.body == IssuesBody("Validation Error", SubErrorEntries(err.errors))
    ensures KindOf(err) == BadId ==> r.body == MessageBody("Invalid Resource ID")
    ensures KindOf(err) == Unexpected ==> r == Response(500, MessageBody("Internal Server Error"))
  {
    if err.isZodError then
      Response(400, IssuesBody("Validation Error", IssueEntries(err.issues)))
    else if err.name == "ValidationError" then
      Response(400, IssuesBody("Validation Error", SubErrorEntries(err.errors)))
    else if err.name == "CastError" then
      Response(400, MessageBody("Invalid Resource ID"))
    else
      Response(500, MessageBody("Internal Server Error"))
  }

  /** A schema error is reported as such even when its name says it is a store validation error. */
  lemma SchemaErrorFirst(err: JsError)
    requires err.isZodError && err.name == "ValidationError"
    ensures HandleError(err).body == IssuesBody("Validation Error", IssueEntries(err.issues))
    ensures |HandleError(err).body.issues| == |err.issues|
  {
  }

  /**
   * `validate(schema)`: a body that parses passes control on with `next()`
   * and writes nothing; a schema error gives 400 with one entry per issue;
   * any other error 500. The parsed value is not kept.
   */
  function ValidateBody<T>(parsed: SchemaResult<T>): (r: Outcome)
    ensures r == Next(None) <==> parsed.Valid?
    ensures r.Sent? <==> parsed.Invalid?
    ensures parsed.Invalid? && parsed.error.isZodError ==>
      r == Sent(Response(400, IssuesBody("Validation failed", IssueEntries(parsed.error.issues))))
    ensures parsed.Invalid? && !parsed.error.isZodError ==>
      r == Sent(Response(500, MessageBody("Internal Server Error")))
  {
    match parsed
    case Valid(_) => Next(None)
    case Invalid(e) =>
      if e.isZodError then Sent(Response(400, IssuesBody("Validation failed", IssueEntries(e.issues))))
      else Sent(Response(500, MessageBody("Internal Server Error")))
  }
}
