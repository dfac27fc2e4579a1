/**
 * The hand-written book-input validator: five field rules checked in a fixed
 * order, each contributing at most one message.
 */
module BookValidation {
  import opened Wrappers
  import opened JsValues

  /** A create/update request body: the fields the rules read, and every other field by name. */
  datatype BookInput = BookInput(
    title: JsValue,
    authorName: JsValue,
    posterUrl: JsValue,
    price: JsValue,
    stockCount: JsValue,
    rest: map<string, JsValue>)

  const TitleError := "Title is required and must be a string."
  const AuthorNameError := "Author Name is required and must be a string."
  const PosterUrlError := "Poster URL must be a valid URL."
  const PriceError := "Price must be a positive number."
  const StockCountError := "Stock Count must be a non-negative integer."

  /** The messages in the order the rules run. */
  const Messages: seq<string> := [TitleError, AuthorNameError, PosterUrlError, PriceError, StockCountError]
  const RuleCount := 5

  /** A required text field is missing: falsy, not a string, or empty once trimmed. */
  predicate MissingText(v: JsValue) {
    !Truthy(v) || !v.Str? || Trim(v.s) == ""
  }

  /** The characters allowed after the scheme: anything but a space or a double quote, at least one. */
  predicate UrlTail(t: string) {
    |t| > 0 && forall i :: 0 <= i < |t| ==> t[i] != ' ' && t[i] != '"'
  }

  /** The whole string matches `^(http|https)://[^ "]+$`. */
  predicate MatchesUrlPattern(s: string) {
    || (|s| >= 7 && s[..7] == "http://" && UrlTail(s[7..]))
    || (|s| >= 8 && s[..8] == "https://" && UrlTail(s[8..]))
  }

  /**
   * `regex.test(v)`, which first converts `v` to a string. Only strings and
   * objects can render as something starting with "http"; booleans, numbers,
   * `null` and `undefined` never match.
   */
  predicate UrlTest(v: JsValue) {
    match v
    case Str(s) => MatchesUrlPattern(s)
    case Obj(t) => MatchesUrlPattern(t)
    case _ => false
  }

  /** Rule `i`, in message order, rejects the input. */
  predicate Fails(data: BookInput, i: nat)
    requires i < RuleCount
  {
    match i
    case 0 => MissingText(data.title)
    case 1 => MissingText(data.authorName)
    case 2 => Truthy(data.posterUrl) && !UrlTest(data.posterUrl)
    case 3 => data.price != Undefined && (!data.price.Num? || data.price.n < 0.0)
    case 4 => data.stockCount != Undefined && (!IsInteger(data.stockCount) || data.stockCount.n < 0.0)
  }

  /** The messages of the failing rules among the first `k`, in rule order. */
  function ErrorsUpTo(data: BookInput, k: nat): seq<string>
    requires k <= RuleCount
  {
    if k == 0 then []
    else ErrorsUpTo(data, k - 1) + (if Fails(data, k - 1) then [Messages[k - 1]] else [])
  }

  /** The messages of all failing rules, in rule order. */
  function Errors(data: BookInput): seq<string> {
    ErrorsUpTo(data, RuleCount)
  }

  /**
   * `validateBookInput`: the failing rules' messages in rule order, or
   * `None` (`null`) when every rule passes.
   */
  method ValidateBookInput(data: BookInput) returns (r: Option<seq<string>>)
    ensures r.None? <==> Errors(data) == []
    ensures r.Some? ==> r.value == Errors(data)
  {
    var errors: seq<string> := [];
    if !Truthy(data.title) || !data.title.Str? || Trim(data.title.s) == "" {
      errors := errors + [TitleError];
    }
    assert errors == ErrorsUpTo(data, 1);
    if !Truthy(data.authorName) || !data.authorName.Str? || Trim(data.authorName.s) == "" {
      errors := errors + [AuthorNameError];
    }
    assert errors == ErrorsUpTo(data, 2);
    if Truthy(data.posterUrl) {
      if !UrlTest(data.posterUrl) {
        errors := errors + [PosterUrlError];
      }
    }
    assert errors == ErrorsUpTo(data, 3);
    if data.price != Undefined {
      if !data.price.Num? || data.price.n < 0.0 {
        errors := errors + [PriceError];
      }
    }
    assert errors == ErrorsUpTo(data, 4);
    if data.stockCount != Undefined {
      if !IsInteger(data.stockCount) || data.stockCount.n < 0.0 {
        errors := errors + [StockCountError];
      }
    }
    if |errors| > 0 {
      r := Some(errors);
    } else {
      r := None;
    }
  }

  /** The position of a message in rule order. */
  function Rank(m: string): nat {
    if m == TitleError then 0
    else if m == AuthorNameError then 1
    else if m == PosterUrlError then 2
    else if m == PriceError then 3
    else if m == StockCountError then 4
    else 5
  }

  lemma RankOfMessage(i: nat)
    requires i < RuleCount
    ensures Rank(Messages[i]) == i
  {
  }

  /**
   * The first `k` rules give a list that holds the message of rule `i < k`
   * exactly when rule `i` fails, in strictly increasing rule order, with
   * nothing else in it.
   */
  lemma {:induction false} ErrorsUpToExactly(data: BookInput, k: nat)
    requires k <= RuleCount
    ensures Exact(data, ErrorsUpTo(data, k), k)
  {
    if k > 0 {
      ErrorsUpToExactly(data, k - 1);
      ExactStep(data, ErrorsUpTo(data, k - 1), k);
    }
  }

  /** `es` lists exactly the failing rules among the first `k`, once each, in rule order. */
  predicate Exact(data: BookInput, es: seq<string>, k: nat)
    requires k <= RuleCount
  {
    && |es| <= k
    && (forall i :: 0 <= i < k ==> (Messages[i] in es <==> Fails(data, i)))
    && (forall m :: m in es ==> Rank(m) < k && m == Messages[Rank(m)])
    && (forall a, b :: 0 <= a < b < |es| ==> Rank(es[a]) < Rank(es[b]))
  }

  /** Running rule `k - 1` after the first `k - 1` keeps the list exact. */
  lemma ExactStep(data: BookInput, prev: seq<string>, k: nat)
    requires 1 <= k <= RuleCount
    requires Exact(data, prev, k - 1)
    ensures Exact(data, prev + (if Fails(data, k - 1) then [Messages[k - 1]] else []), k)
  {
    var e := prev + (if Fails(data, k - 1) then [Messages[k - 1]] else []);
    RankOfMessage(k - 1);
    forall i | 0 <= i < k
      ensures Messages[i] in e <==> Fails(data, i)
    {
      RankOfMessage(i);
    }
    RanksStep(prev, Fails(data, k - 1), k);
  }

  /** Appending the message of rule `k - 1`, or nothing, keeps the messages ranked and in rule order. */
  lemma RanksStep(prev: seq<string>, add: bool, k: nat)
    requires 1 <= k <= RuleCount
    requires |prev| <= k - 1
    requires forall m :: m in prev ==> Rank(m) < k - 1 && m == Messages[Rank(m)]
    requires forall a, b :: 0 <= a < b < |prev| ==> Rank(prev[a]) < Rank(prev[b])
    ensures var e := prev + (if add then [Messages[k - 1]] else []);
      && |e| <= k
      && (forall m :: m in e ==> Rank(m) < k && m == Messages[Rank(m)])
      && (forall a, b :: 0 <= a < b < |e| ==> Rank(e[a]) < Rank(e[b]))
  {
    var last := Messages[k - 1];
    var e := prev + (if add then [last] else []);
    RankOfMessage(k - 1);
    forall m | m in e
      ensures Rank(m) < k && m == Messages[Rank(m)]
    {
      if m !in prev {
        assert m == last;
      }
    }
    forall a, b | 0 <= a < b < |e|
      ensures Rank(e[a]) < Rank(e[b])
    {
      assert e[a] == prev[a] && e[a] in prev;
      if b >= |prev| {
        assert e[b] == last;
      } else {
        assert e[b] == prev[b];
      }
    }
  }

  /**
   * The validator's list: the message of each failing rule, only those, each
   * once, in the order title, author name, poster URL, price, stock count,
   * so at most five; it is empty exactly when no rule fails.
   */
  lemma ErrorsExactly(data: BookInput)
    ensures |Errors(data)| <= RuleCount
    ensures forall i :: 0 <= i < RuleCount ==> (Messages[i] in Errors(data) <==> Fails(data, i))
    ensures forall m :: m in Errors(data) ==> m in Messages
    ensures forall a, b :: 0 <= a < b < |Errors(data)| ==> Rank(Errors(data)[a]) < Rank(Errors(data)[b])
    ensures Errors(data) == [] <==> forall i :: 0 <= i < RuleCount ==> !Fails(data, i)
  {
    ErrorsUpToExactly(data, RuleCount);
    if Errors(data) != [] {
      var m := Errors(data)[0];
      assert m in Errors(data);
      assert Fails(data, Rank(m));
    }
  }

  /** The title and author rules reject exactly the values that are not a string with a visible character. */
  lemma MissingTextMeansNoVisibleText(v: JsValue)
    ensures MissingText(v) <==> !(v.Str? && exists i :: 0 <= i < |v.s| && !IsWhitespace(v.s[i]))
  {
    if v.Str? {
      assert Trim(v.s) == "" <==> Blank(v.s);
    }
  }

  /** `null` is a price error, 0 is an accepted price and an absent price is not checked. */
  lemma PriceEdges(data: BookInput)
    ensures data.price == Null ==> Fails(data, 3)
    ensures data.price == Num(0.0) ==> !Fails(data, 3)
    ensures data.price == Undefined ==> !Fails(data, 3)
    ensures data.price == Str("5") ==> Fails(data, 3)
  {
  }

  /** A fractional or negative stock count is rejected; zero is accepted. */
  lemma StockCountEdges(data: BookInput)
    ensures data.stockCount == Num(1.5) ==> Fails(data, 4)
    ensures data.stockCount == Num(-1.0) ==> Fails(data, 4)
    ensures data.stockCount == Num(0.0) ==> !Fails(data, 4)
  {
  }
}
