/** The small part of JavaScript's runtime that the modelled code relies on:
    an Option for values that may be absent (or NaN), a JSON-shaped JS value,
    `String.prototype.trim`, `parseInt(s, 10)` and `String(n)` for integers. */
module JsRuntime {

  datatype Option<+T> = None | Some(value: T)

  /** A JavaScript value as it comes out of JSON.parse or a database row.
      Objects are maps from property names to values. */
  datatype JsValue =
    | JUndefined
    | JNull
    | JBool(b: bool)
    | JNumber(n: real)
    | JString(s: string)
    | JArray(items: seq<JsValue>)
    | JObject(fields: map<string, JsValue>)

  /** `typeof v`; arrays and null are "object". */
  function TypeOf(v: JsValue): string
  {
    match v
    case JUndefined => "undefined"
    case JNull => "object"
    case JBool(_) => "boolean"
    case JNumber(_) => "number"
    case JString(_) => "string"
    case JArray(_) => "object"
    case JObject(_) => "object"
  }

  /** `!!v`: undefined, null, false, 0 and "" are falsy, everything else truthy. */
  predicate Truthy(v: JsValue)
  {
    match v
    case JUndefined => false
    case JNull => false
    case JBool(b) => b
    case JNumber(n) => n != 0.0
    case JString(s) => s != ""
    case JArray(_) => true
    case JObject(_) => true
  }

  /** Property lookup `obj[k]`: a missing property reads as undefined. */
  function Field(obj: map<string, JsValue>, k: string): JsValue
  {
    if k in obj then obj[k] else JUndefined
  }

  /** The code points that ECMAScript's WhiteSpace and LineTerminator
      productions accept, which is what `trim` and `parseInt` skip. */
  predicate IsJsSpace(c: char)
  {
    c == '\t' || c == '\n' || c == '\U{000B}' || c == '\U{000C}' || c == '\r'
    || c == ' ' || c == '\U{00A0}' || c == '\U{1680}'
    || ('\U{2000}' <= c <= '\U{200A}')
    || c == '\U{2028}' || c == '\U{2029}' || c == '\U{202F}' || c == '\U{205F}'
    || c == '\U{3000}' || c == '\U{FEFF}'
  }

  /** `s` with its leading white space removed: a suffix of `s` that is
      empty or starts with a non-space. */
  function TrimStart(s: string): (r: string)
    ensures |r| <= |s| && r == s[|s| - |r|..]
    ensures r == [] || !IsJsSpace(r[0])
    ensures forall i :: 0 <= i < |s| - |r| ==> IsJsSpace(s[i])
  {
    if s == [] || !IsJsSpace(s[0]) then s else TrimStart(s[1..])
  }

  /** `s` with its trailing white space removed: a prefix of `s` that is
      empty or ends with a non-space. */
  function TrimEnd(s: string): (r: string)
    ensures |r| <= |s| && r == s[..|r|]
    ensures r == [] || !IsJsSpace(r[|r| - 1])
    ensures forall i :: |r| <= i < |s| ==> IsJsSpace(s[i])
  {
    if s == [] || !IsJsSpace(s[|s| - 1]) then s else TrimEnd(s[..|s| - 1])
  }

  /** `s.trim()` */
  function Trim(s: string): string
  {
    TrimEnd(TrimStart(s))
  }

  /** What `trim` promises: the result is the slice of `s` between its
      leading and trailing white space, and has none at either end. */
  lemma {:induction false} TrimIsInnerSlice(s: string)
    ensures exists i, j :: 0 <= i <= j <= |s| && Trim(s) == s[i..j]
    ensures Trim(s) == [] || (!IsJsSpace(Trim(s)[0]) && !IsJsSpace(Trim(s)[|Trim(s)| - 1]))
  {
    var t := TrimStart(s);
    var i := |s| - |t|;
    var r := TrimEnd(t);
    assert Trim(s) == r;
    assert t == s[i..] && r == t[..|r|];
    assert r == s[i..i + |r|];
    if r != [] {
      assert r[0] == t[0];
    }
  }

  /** Trimming twice is trimming once. */
  lemma {:induction false} TrimIdempotent(s: string)
    ensures Trim(Trim(s)) == Trim(s)
  {
    var r := Trim(s);
    TrimIsInnerSlice(s);
    assert TrimStart(r) == r;
    assert TrimEnd(r) == r;
  }

  // ---------------------------------------------------------------------
  // Decimal integers

  predicate IsDigit(c: char)
  {
    '0' <= c <= '9'
  }

  function DigitValue(c: char): nat
    requires IsDigit(c)
  {
    c as int - '0' as int
  }

  function DigitChar(d: nat): (c: char)
    requires d < 10
    ensures IsDigit(c) && DigitValue(c) == d
  {
    ('0' as int + d) as char
  }

  predicate AllDigits(s: string)
  {
    forall i :: 0 <= i < |s| ==> IsDigit(s[i])
  }

  /** Length of the longest prefix of `s` made of decimal digits. */
  function DigitRun(s: string): (n: nat)
    ensures n <= |s|
    ensures AllDigits(s[..n])
    ensures n < |s| ==> !IsDigit(s[n])
  {
    if s == [] || !IsDigit(s[0]) then 0 else 1 + DigitRun(s[1..])
  }

  /** The natural number a string of decimal digits denotes. */
  function DigitsValue(d: string): nat
    requires AllDigits(d)
  {
    if d == [] then 0 else 10 * DigitsValue(d[..|d| - 1]) + DigitValue(d[|d| - 1])
  }

  /** The value of the longest run of digits at the start of `body`; None
      (NaN) when there is none. */
  function LeadingDigits(body: string): Option<nat>
  {
    var n := DigitRun(body);
    if n == 0 then None else Some(DigitsValue(body[..n]))
  }

  /** An optional sign, then digits. */
  function ParseSigned(t: string): Option<int>
  {
    var signed := t != [] && (t[0] == '-' || t[0] == '+');
    var magnitude := LeadingDigits(if signed then t[1..] else t);
    if magnitude.None? then None
    else if signed && t[0] == '-' then Some(-(magnitude.value as int))
    else Some(magnitude.value as int)
  }

  /** `parseInt(s, 10)`: skip leading white space, read an optional sign and
      the longest run of digits; NaN (None) when there are no digits.
      `-0` reads as 0, which every caller treats like 0. */
  function ParseInt(s: string): Option<int>
  {
    ParseSigned(TrimStart(s))
  }

  /** The decimal digits of `n`, without leading zeros. */
  function NatToString(n: nat): (s: string)
    ensures |s| > 0 && AllDigits(s)
  {
    if n < 10 then [DigitChar(n)] else NatToString(n / 10) + [DigitChar(n % 10)]
  }

  /** `String(n)` for an integer `n`. */
  function IntToString(n: int): string
  {
    if n < 0 then "-" + NatToString(-n) else NatToString(n)
  }

  lemma {:induction false} NatToStringValue(n: nat)
    ensures DigitsValue(NatToString(n)) == n
  {
    var s := NatToString(n);
    if n >= 10 {
      NatToStringValue(n / 10);
      assert s[..|s| - 1] == NatToString(n / 10);
    }
  }

  /** `parseInt(String(n), 10) == n` for every integer: the number-to-text
      conversion the pages display is read back exactly. */
  lemma {:induction false} ParseIntOfIntToString(n: int)
    ensures ParseInt(IntToString(n)) == Some(n)
  {
    if n < 0 {
      var digits := NatToString(-n);
      NatToStringValue(-n);
      ParseIntOfNegative(digits, -n);
      assert IntToString(n) == "-" + digits;
    } else {
      var digits := NatToString(n);
      NatToStringValue(n);
      ParseIntOfDigits(digits, n);
      assert IntToString(n) == digits;
    }
  }

  /** Digits read back as their value. */
  lemma {:induction false} ParseIntOfDigits(digits: string, value: nat)
    requires |digits| > 0 && AllDigits(digits)
    requires DigitsValue(digits) == value
    ensures ParseInt(digits) == Some(value)
  {
    TrimStartOfNonSpace(digits);
    LeadingDigitsOfDigits(digits);
  }

  /** A minus sign followed by digits reads back as minus their value. */
  lemma {:induction false} ParseIntOfNegative(digits: string, value: nat)
    requires |digits| > 0 && AllDigits(digits)
    requires DigitsValue(digits) == value
    ensures ParseInt("-" + digits) == Some(-(value as int))
  {
    var s := "-" + digits;
    assert s[0] == '-' && s[1..] == digits;
    LeadingDigitsOfDigits(digits);
    ParseSignedNegative(s, value);
    TrimStartOfNonSpace(s);
  }

  lemma {:induction false} ParseSignedNegative(t: string, value: nat)
    requires t != [] && t[0] == '-' && LeadingDigits(t[1..]) == Some(value)
    ensures ParseSigned(t) == Some(-(value as int))
  {
  }

  lemma {:induction false} LeadingDigitsOfDigits(digits: string)
    requires |digits| > 0 && AllDigits(digits)
    ensures LeadingDigits(digits) == Some(DigitsValue(digits))
  {
    DigitRunOfDigits(digits);
    assert digits[..|digits|] == digits;
  }

  lemma {:induction false} TrimStartOfNonSpace(s: string)
    requires s != [] && (s[0] == '-' || IsDigit(s[0]))
    ensures TrimStart(s) == s
  {
    DigitOrMinusNotSpace(s[0]);
  }

  lemma {:induction false} DigitOrMinusNotSpace(c: char)
    requires c == '-' || IsDigit(c)
    ensures !IsJsSpace(c)
  {
  }

  lemma {:induction false} DigitRunOfDigits(d: string)
    requires AllDigits(d)
    ensures DigitRun(d) == |d|
  {
    if d != [] {
      DigitRunOfDigits(d[1..]);
    }
  }

  /** `String(n)` is injective: distinct ids give distinct strings. */
  lemma {:induction false} IntToStringInjective(a: int, b: int)
    requires IntToString(a) == IntToString(b)
    ensures a == b
  {
    ParseIntOfIntToString(a);
    ParseIntOfIntToString(b);
  }
}
