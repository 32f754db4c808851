/**
 * The JavaScript values that the property table keeps in its records, and the
 * two conversions it applies to them: `parseInt(v, 10)` and `parseFloat(v)`.
 *
 * A record (a plain JavaScript object) is a map from key to value; reading a
 * key the object lacks gives `undefined`.  Numbers come in two kinds: integral
 * ones, whose value matters because asset numbers are compared and maximised,
 * and all others, which are carried by their text and never computed with.
 */
module JsValues {
  import opened Options

  datatype Value =
    | Undefined             // a key the object does not have
    | Null
    | Str(s: string)
    | Int(i: int)           // an integral number
    | Number(text: string)  // any other number, known only by the text it was read from

  type Record = map<string, Value>

  /** `r[key]`: a missing key reads as undefined. */
  function Get(r: Record, key: string): Value {
    if key in r then r[key] else Undefined
  }

  /** `String(v)`, the text that parseInt and parseFloat read. */
  function ToText(v: Value): string {
    match v
    case Undefined => "undefined"
    case Null => "null"
    case Str(s) => s
    case Int(i) => IntText(i)
    case Number(t) => t
  }

  /**
   * JavaScript truthiness, as `if (v)` tests it: undefined, null, "" and 0
   * are false.  A number that is not integral is never 0; NaN does not occur
   * in a value read from JSON, the only place truthiness is applied.
   */
  predicate Truthy(v: Value) {
    match v
    case Undefined => false
    case Null => false
    case Str(s) => s != ""
    case Int(i) => i != 0
    case Number(_) => true
  }

  /** WhiteSpace and LineTerminator of the ECMAScript grammar, which parseInt skips. */
  predicate IsJsSpace(c: char) {
    || c == '\t' || c == '\n' || c == '\U{B}' || c == '\U{C}' || c == '\r'
    || c == ' ' || c == '\U{A0}' || c == '\U{1680}' || ('\U{2000}' <= c <= '\U{200A}')
    || c == '\U{2028}' || c == '\U{2029}' || c == '\U{202F}' || c == '\U{205F}'
    || c == '\U{3000}' || c == '\U{FEFF}'
  }

  predicate IsDigit(c: char) {
    '0' <= c <= '9'
  }

  predicate AllDigits(s: string) {
    forall k | 0 <= k < |s| :: IsDigit(s[k])
  }

  /** `s` without its leading white space. */
  function TrimStart(s: string): string {
    if s != [] && IsJsSpace(s[0]) then TrimStart(s[1..]) else s
  }

  /** The longest prefix of `s` made of decimal digits. */
  function DigitPrefix(s: string): (d: string)
    ensures AllDigits(d)
  {
    if s != [] && IsDigit(s[0]) then [s[0]] + DigitPrefix(s[1..]) else []
  }

  function DigitValue(c: char): nat
    requires IsDigit(c)
  {
    (c - '0') as nat
  }

  /** The number a string of decimal digits denotes, most significant digit first. */
  function DigitsValue(ds: string): nat
    requires AllDigits(ds)
  {
    if ds == [] then 0 else 10 * DigitsValue(ds[..|ds| - 1]) + DigitValue(ds[|ds| - 1])
  }

  /**
   * `parseInt(s, 10)`: skip leading white space, read an optional sign, then the
   * longest run of decimal digits; no digit at all is NaN, here None.
   */
  function ParseIntText(s: string): Option<int> {
    ParseSigned(TrimStart(s))
  }

  /** The signed decimal number at the start of `t`, if any. */
  function ParseSigned(t: string): Option<int> {
    if t != [] && t[0] == '-' then
      match ParseDigits(t[1..])
      case None => None
      case Some(n) => Some(-n)
    else if t != [] && t[0] == '+' then ParseDigits(t[1..])
    else ParseDigits(t)
  }

  /** The unsigned decimal number at the start of `t`, if any. */
  function ParseDigits(t: string): Option<int> {
    var ds := DigitPrefix(t);
    if ds == [] then None else Some(DigitsValue(ds))
  }

  /**
   * `parseInt(v, 10)`, which reads the text of its argument; lemma
   * ParseIntReadsText shows that each case below is what that text gives.
   */
  function ParseInt(v: Value): Option<int> {
    match v
    case Undefined => None
    case Null => None
    case Str(s) => ParseIntText(s)
    case Int(i) => Some(i)
    case Number(t) => ParseIntText(t)
  }

  /**
   * `parseFloat(v)`.  Its numeric result is not modelled: an integer stays
   * itself, anything else becomes the number read from its text.
   */
  function ParseFloat(v: Value): Value {
    if v.Int? then v else Number(ToText(v))
  }

  function DigitChar(d: nat): (c: char)
    requires d < 10
    ensures IsDigit(c) && DigitValue(c) == d
  {
    '0' + d as char
  }

  /** The decimal text of a natural number, without leading zeros. */
  function DecimalText(n: nat): (t: string)
    ensures t != [] && AllDigits(t)
  {
    if n < 10 then [DigitChar(n)] else DecimalText(n / 10) + [DigitChar(n % 10)]
  }

  /** `String(i)` for an integer. */
  function IntText(i: int): string {
    if i < 0 then "-" + DecimalText(-i) else DecimalText(i)
  }

  lemma {:induction false} DigitsValueOfDecimalText(n: nat)
    ensures DigitsValue(DecimalText(n)) == n
  {
    if n >= 10 {
      var t := DecimalText(n);
      assert t[..|t| - 1] == DecimalText(n / 10);
      DigitsValueOfDecimalText(n / 10);
    }
  }

  lemma {:induction false} DigitPrefixOfDigits(ds: string, rest: string)
    requires AllDigits(ds)
    requires rest == [] || !IsDigit(rest[0])
    ensures DigitPrefix(ds + rest) == ds
  {
    if ds != [] {
      assert (ds + rest)[1..] == ds[1..] + rest;
      DigitPrefixOfDigits(ds[1..], rest);
    } else {
      assert ds + rest == rest;
    }
  }

  lemma {:induction false} TrimStartOfSpaces(ws: string, t: string)
    requires forall k | 0 <= k < |ws| :: IsJsSpace(ws[k])
    requires t == [] || !IsJsSpace(t[0])
    ensures TrimStart(ws + t) == t
  {
    if ws != [] {
      assert (ws + t)[1..] == ws[1..] + t;
      TrimStartOfSpaces(ws[1..], t);
    } else {
      assert ws + t == t;
    }
  }

  /** TrimStart removes exactly the white space at the front of `s`. */
  lemma {:induction false} TrimStartRemovesLeadingSpace(s: string)
    ensures |TrimStart(s)| <= |s| && TrimStart(s) == s[|s| - |TrimStart(s)|..]
    ensures TrimStart(s) == [] || !IsJsSpace(TrimStart(s)[0])
    ensures forall k | 0 <= k < |s| - |TrimStart(s)| :: IsJsSpace(s[k])
  {
    if s != [] && IsJsSpace(s[0]) {
      TrimStartRemovesLeadingSpace(s[1..]);
      var t := TrimStart(s);
      forall k | 1 <= k < |s| - |t|
        ensures IsJsSpace(s[k])
      {
        assert s[k] == s[1..][k - 1];
      }
    }
  }

  /** DigitPrefix is the longest prefix of `s` made only of digits. */
  lemma {:induction false} DigitPrefixIsLongest(s: string)
    ensures DigitPrefix(s) <= s
    ensures |DigitPrefix(s)| == |s| || !IsDigit(s[|DigitPrefix(s)|])
  {
    if s != [] && IsDigit(s[0]) {
      DigitPrefixIsLongest(s[1..]);
    }
  }

  /** The digits of a natural number's text read back as that number, up to the first non-digit. */
  lemma ParseDigitsOfDecimalText(n: nat, rest: string)
    requires rest == [] || !IsDigit(rest[0])
    ensures ParseDigits(DecimalText(n) + rest) == Some(n)
  {
    DigitPrefixOfDigits(DecimalText(n), rest);
    DigitsValueOfDecimalText(n);
  }

  /** parseInt reads the text of an integer back, up to the first non-digit. */
  lemma ParseSignedOfIntText(i: int, rest: string)
    requires rest == [] || !IsDigit(rest[0])
    ensures ParseSigned(IntText(i) + rest) == Some(i)
  {
    if i < 0 {
      var u := DecimalText(-i) + rest;
      ParseDigitsOfDecimalText(-i, rest);
      assert IntText(i) + rest == ['-'] + u;
      assert (['-'] + u)[1..] == u;
    } else {
      var ds := DecimalText(i);
      ParseDigitsOfDecimalText(i, rest);
      assert IntText(i) + rest == ds + rest;
      assert (ds + rest)[0] == ds[0] && IsDigit(ds[0]);
    }
  }

  /**
   * parseInt reads back the decimal text of any integer, whatever white space
   * precedes it and whatever non-digit text follows it.
   */
  lemma ParseIntTextOfIntText(ws: string, i: int, rest: string)
    requires forall k | 0 <= k < |ws| :: IsJsSpace(ws[k])
    requires rest == [] || !IsDigit(rest[0])
    ensures ParseIntText(ws + IntText(i) + rest) == Some(i)
  {
    var t := IntText(i) + rest;
    assert ws + IntText(i) + rest == ws + t;
    assert t[0] == '-' || IsDigit(t[0]);
    TrimStartOfSpaces(ws, t);
    ParseSignedOfIntText(i, rest);
  }

  /** ParseInt is parseInt applied to String(v), for every value. */
  lemma ParseIntReadsText(v: Value)
    ensures ParseInt(v) == ParseIntText(ToText(v))
  {
    match v
    case Int(i) =>
      ParseIntTextOfIntText([], i, []);
      assert [] + IntText(i) + [] == IntText(i);
    case Null =>
      assert DigitPrefix("null") == [];
    case Undefined =>
      assert DigitPrefix("undefined") == [];
    case _ =>
  }
}
