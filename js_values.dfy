/**
 * The few pieces of JavaScript value semantics the handlers depend on:
 * dynamically typed values, truthiness, `String.prototype.trim` and
 * `parseInt` with no radix.
 */
module JsValues {
  import opened Wrappers

  /**
   * A JavaScript value as it arrives in a parsed request body. `Num` is a
   * finite number (NaN and the infinities are not modelled); `Obj` is any
   * object or array, kept only through the text `String(v)` gives it.
   */
  datatype JsValue =
    | Undefined
    | Null
    | Bool(b: bool)
    | Num(n: real)
    | Str(s: string)
    | Obj(text: string)

  /** JavaScript truthiness: `undefined`, `null`, `false`, `0` and `""` are falsy. */
  predicate Truthy(v: JsValue) {
    match v
    case Undefined => false
    case Null => false
    case Bool(b) => b
    case Num(n) => n != 0.0
    case Str(s) => s != ""
    case Obj(_) => true
  }

  /** `Number.isInteger(v)`: a number with no fractional part. */
  predicate IsInteger(v: JsValue) {
    v.Num? && v.n.Floor as real == v.n
  }

  /** The characters `trim` and `parseInt` skip: WhiteSpace and LineTerminator of ECMA-262. */
  predicate IsWhitespace(c: char) {
    var n := c as int;
    n == 0x09 || n == 0x0A || n == 0x0B || n == 0x0C || n == 0x0D || n == 0x20
    || n == 0xA0 || n == 0x1680 || (0x2000 <= n <= 0x200A) || n == 0x2028 || n == 0x2029
    || n == 0x202F || n == 0x205F || n == 0x3000 || n == 0xFEFF
  }

  predicate Blank(s: string) {
    forall i :: 0 <= i < |s| ==> IsWhitespace(s[i])
  }

  /** `s.trimStart()` */
  function TrimStart(s: string): (r: string)
    ensures |r| <= |s|
  {
    if s != [] && IsWhitespace(s[0]) then TrimStart(s[1..]) else s
  }

  /** `s.trimEnd()`: a prefix of `s` that does not end with whitespace. */
  function TrimEnd(s: string): (r: string)
    ensures |r| <= |s|
    ensures r != "" ==> !IsWhitespace(r[|r| - 1])
  {
    if s != [] && IsWhitespace(s[|s| - 1]) then TrimEnd(s[..|s| - 1]) else s
  }

  /**
   * `s.trim()`: `s` with its leading and trailing whitespace cut off. It is
   * empty exactly when `s` is all whitespace, and otherwise neither starts
   * nor ends with whitespace.
   */
  function Trim(s: string): (r: string)
    ensures |r| <= |s|
    ensures exists i, j :: 0 <= i <= j <= |s| && r == s[i..j] && Blank(s[..i]) && Blank(s[j..])
    ensures r == "" <==> Blank(s)
    ensures r != "" ==> !IsWhitespace(r[0]) && !IsWhitespace(r[|r| - 1])
  {
    var t := TrimStart(s);
    TrimStartEmptyIffBlank(s);
    TrimStartIsSuffix(s);
    TrimEndIsPrefix(t);
    var i := |s| - |t|;
    var j := i + |TrimEnd(t)|;
    assert TrimEnd(t) == s[i..j] && s[j..] == t[|TrimEnd(t)|..];
    if t != "" then TrimEndKeepsHead(t); TrimEnd(t) else TrimEnd(t)
  }

  /** `trimStart()` cuts off a blank prefix. */
  lemma {:induction false} TrimStartIsSuffix(s: string)
    ensures TrimStart(s) == s[|s| - |TrimStart(s)|..]
    ensures Blank(s[..|s| - |TrimStart(s)|])
  {
    if s != [] && IsWhitespace(s[0]) {
      TrimStartIsSuffix(s[1..]);
      var k := |s| - |TrimStart(s)|;
      assert s[..k] == [s[0]] + s[1..][..k - 1];
    }
  }

  /** `trimEnd()` cuts off a blank suffix. */
  lemma {:induction false} TrimEndIsPrefix(s: string)
    ensures TrimEnd(s) == s[..|TrimEnd(s)|]
    ensures Blank(s[|TrimEnd(s)|..])
  {
    if s != [] && IsWhitespace(s[|s| - 1]) {
      var init := s[..|s| - 1];
      TrimEndIsPrefix(init);
      var k := |TrimEnd(s)|;
      assert s[k..] == init[k..] + [s[|s| - 1]];
    }
  }

  lemma {:induction false} TrimStartEmptyIffBlank(s: string)
    ensures TrimStart(s) == "" <==> Blank(s)
    ensures TrimStart(s) != "" ==> !IsWhitespace(TrimStart(s)[0])
  {
    if s != [] && IsWhitespace(s[0]) {
      TrimStartEmptyIffBlank(s[1..]);
      if Blank(s[1..]) {
        assert Blank(s) by {
          forall i | 0 <= i < |s| ensures IsWhitespace(s[i]) {
            if i > 0 { assert s[i] == s[1..][i - 1]; }
          }
        }
      } else {
        var i :| 0 <= i < |s[1..]| && !IsWhitespace(s[1..][i]);
        assert s[i + 1] == s[1..][i];
      }
    }
  }

  lemma {:induction false} TrimEndKeepsHead(s: string)
    requires s != [] && !IsWhitespace(s[0])
    ensures TrimEnd(s) != "" && TrimEnd(s)[0] == s[0]
  {
    if IsWhitespace(s[|s| - 1]) {
      TrimEndKeepsHead(s[..|s| - 1]);
    }
  }

  // ---------------------------------------------------------------------
  // parseInt(s) with no radix

  function DigitValue(c: char): nat {
    if '0' <= c <= '9' then c as int - '0' as int
    else if 'a' <= c <= 'z' then c as int - 'a' as int + 10
    else if 'A' <= c <= 'Z' then c as int - 'A' as int + 10
    else 36
  }

  predicate IsDigitIn(c: char, radix: nat) {
    DigitValue(c) < radix
  }

  /** The longest prefix of `s` made of digits in `radix`. */
  function DigitPrefix(s: string, radix: nat): (r: string)
    ensures |r| <= |s| && r == s[..|r|]
    ensures forall i :: 0 <= i < |r| ==> IsDigitIn(r[i], radix)
    ensures |r| < |s| ==> !IsDigitIn(s[|r|], radix)
  {
    if s != [] && IsDigitIn(s[0], radix) then [s[0]] + DigitPrefix(s[1..], radix) else ""
  }

  /** The value of a digit string, most significant digit first. */
  function DigitsValue(ds: string, radix: nat): nat
    requires forall i :: 0 <= i < |ds| ==> IsDigitIn(ds[i], radix)
    decreases |ds|
  {
    if ds == [] then 0
    else
      var init := ds[..|ds| - 1];
      assert forall i :: 0 <= i < |init| ==> init[i] == ds[i];
      var v: nat := DigitsValue(init, radix);
      assert v * radix >= 0 by { NatProduct(v, radix); }
      v * radix + DigitValue(ds[|ds| - 1])
  }

  lemma NatProduct(a: nat, b: nat)
    ensures a * b >= 0
  {
  }

  /**
   * `parseInt(s)`: skip leading whitespace, take one optional sign, and read
   * the unsigned number after it; no digit at all gives NaN, here `None`.
   */
  function ParseInt(s: string): (r: Option<int>)
    ensures Blank(s) ==> r.None?
    ensures r.Some? ==> TrimStart(s) != [] && (r.value < 0 ==> TrimStart(s)[0] == '-')
    ensures r.Some? && TrimStart(s)[0] == '-' ==> r.value <= 0
  {
    TrimStartEmptyIffBlank(s);
    var t := TrimStart(s);
    var negative := t != [] && t[0] == '-';
    var u := if t != [] && (t[0] == '-' || t[0] == '+') then t[1..] else t;
    match ParseUnsigned(u)
    case None => None
    case Some(v) =>
      var n: int := if negative then -(v as int) else v;
      Some(n)
  }

  /**
   * The number after the sign: radix 16 after a "0x"/"0X" prefix, otherwise
   * 10; the longest run of digits is read and the rest ignored.
   */
  function ParseUnsigned(u: string): Option<nat> {
    var hex := |u| >= 2 && u[0] == '0' && (u[1] == 'x' || u[1] == 'X');
    var radix := if hex then 16 else 10;
    var ds := DigitPrefix(if hex then u[2..] else u, radix);
    if ds == [] then None else Some(DigitsValue(ds, radix))
  }

  /** `parseInt(x) || fallback` for a query parameter that may be absent (`parseInt(undefined)` is NaN). */
  function ParseIntOr(param: Option<string>, fallback: int): (r: int)
    ensures fallback != 0 ==> r != 0
    ensures param.None? ==> r == fallback
    ensures param.Some? && ParseInt(param.value).Some? && ParseInt(param.value).value != 0
            ==> r == ParseInt(param.value).value
    ensures param.Some? && (ParseInt(param.value).None? || ParseInt(param.value) == Some(0))
            ==> r == fallback
  {
    if param.None? then fallback
    else match ParseInt(param.value)
      case None => fallback
      case Some(n) => if n != 0 then n else fallback
  }

  // ---------------------------------------------------------------------
  // Decimal rendering, the partner of parseInt

  function DecimalDigit(d: nat): char
    requires d < 10
  {
    ('0' as int + d) as char
  }

  function NatToDecimal(n: nat): (r: string)
    ensures r != []
    ensures forall i :: 0 <= i < |r| ==> '0' <= r[i] <= '9'
  {
    if n < 10 then [DecimalDigit(n)] else NatToDecimal(n / 10) + [DecimalDigit(n % 10)]
  }

  /** `String(n)` for an integer. */
  function IntToDecimal(n: int): string {
    if n < 0 then "-" + NatToDecimal(-n) else NatToDecimal(n)
  }

  lemma {:induction false} DecimalDigitsValue(n: nat)
    ensures forall i :: 0 <= i < |NatToDecimal(n)| ==> IsDigitIn(NatToDecimal(n)[i], 10)
    ensures DigitsValue(NatToDecimal(n), 10) == n
  {
    var r := NatToDecimal(n);
    if n >= 10 {
      DecimalDigitsValue(n / 10);
      assert r[..|r| - 1] == NatToDecimal(n / 10);
    }
  }

  /** The digits of a decimal text are exactly what `parseInt` reads from it. */
  lemma DigitPrefixOfDecimal(n: nat)
    ensures DigitPrefix(NatToDecimal(n), 10) == NatToDecimal(n)
  {
    var d := NatToDecimal(n);
    assert |DigitPrefix(d, 10)| == |d|;
  }

  /** The unsigned reader gives back the number a decimal text was written from. */
  lemma ReadDecimal(m: nat)
    ensures ParseUnsigned(NatToDecimal(m)) == Some(m)
  {
    var d := NatToDecimal(m);
    DecimalDigitsValue(m);
    DigitPrefixOfDecimal(m);
    if |d| >= 2 {
      assert '0' <= d[1] <= '9';
    }
  }

  /** Reading back the decimal text of an integer gives the integer: `parseInt(String(n)) === n`. */
  lemma ParseIntDecimal(n: int)
    ensures ParseInt(IntToDecimal(n)) == Some(n)
  {
    var m: nat := if n < 0 then -n else n;
    var d := NatToDecimal(m);
    ReadDecimal(m);
    if n < 0 {
      ParseNegative(d, m);
    } else {
      ParseUnsignedText(d, m);
    }
  }

  /** Text that starts with a digit is read by the unsigned reader alone. */
  lemma ParseUnsignedText(d: string, m: nat)
    requires d != [] && '0' <= d[0] <= '9'
    requires ParseUnsigned(d) == Some(m)
    ensures ParseInt(d) == Some(m)
  {
    assert TrimStart(d) == d;
  }

  /** A '-' before text the unsigned reader reads as `m` is read as `-m`. */
  lemma ParseNegative(d: string, m: nat)
    requires ParseUnsigned(d) == Some(m)
    ensures ParseInt("-" + d) == Some(-(m as int))
  {
    var s := "-" + d;
    assert TrimStart(s) == s;
    assert s[1..] == d;
  }
}
