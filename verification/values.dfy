/**
 * PHP values as the bundle handles them (filter and sorter values, element
 * data, snapshot fields), with the PHP 7 conversions the code relies on:
 * `empty()`, loose `==` against a word, `intval` of a string and the
 * decimal rendering of an integer.
 */
module Values {
  import opened Wrappers

  /** A PHP value. Arrays keep their (string) keys in insertion order;
      `Obj` is an opaque object handle such as a fetched entity. */
  datatype Value =
    | Null
    | Bool(b: bool)
    | Int(i: int)
    | Str(s: string)
    | Arr(entries: seq<(string, Value)>)
    | Obj(ref: nat)

  /** PHP `empty()`: null, false, 0, "", "0" and [] are empty. */
  predicate IsEmpty(v: Value) {
    match v
    case Null => true
    case Bool(b) => !b
    case Int(i) => i == 0
    case Str(s) => IsEmptyString(s)
    case Arr(e) => |e| == 0
    case Obj(_) => false
  }

  /** PHP truthiness of a value used as a condition. */
  predicate Truthy(v: Value) {
    !IsEmpty(v)
  }

  /** `empty()` of a string. */
  predicate IsEmptyString(s: string) {
    s == "" || s == "0"
  }

  predicate IsAsciiLetter(c: char) {
    ('a' <= c <= 'z') || ('A' <= c <= 'Z')
  }

  /** A non-empty string of ASCII letters, such as "ASC": never numeric. */
  predicate IsWord(t: string) {
    |t| > 0 && forall i :: 0 <= i < |t| ==> IsAsciiLetter(t[i])
  }

  /** PHP 7 loose comparison `v == t` against a word `t`. Such a string
      converts to the number 0, is truthy, and is compared as a string with
      another string. */
  function LooseEqualsWord(v: Value, t: string): (r: bool)
    requires IsWord(t)
    ensures v.Str? ==> (r <==> v.s == t)
    ensures v == Null || v.Arr? || v.Obj? ==> !r
  {
    match v
    case Null => false
    case Bool(b) => b
    case Int(i) => i == 0
    case Str(s) => s == t
    case Arr(_) => false
    case Obj(_) => false
  }

  lemma LooseEqualsWordExamples()
    ensures LooseEqualsWord(Int(0), "ASC") && LooseEqualsWord(Bool(true), "DESC")
    ensures !LooseEqualsWord(Str("asc"), "ASC") && !LooseEqualsWord(Int(5), "ASC")
  {
  }

  function DigitChar(d: nat): (c: char)
    requires d < 10
    ensures '0' <= c <= '9'
  {
    ('0' as int + d) as char
  }

  predicate IsDigit(c: char) {
    '0' <= c <= '9'
  }

  /** Decimal digits of a natural number, most significant first. */
  function Digits(n: nat): (r: string)
    ensures |r| > 0
    ensures forall i :: 0 <= i < |r| ==> IsDigit(r[i])
    decreases n
  {
    if n < 10 then [DigitChar(n)] else Digits(n / 10) + [DigitChar(n % 10)]
  }

  /** PHP's string form of an integer, as used by `"…$val…"` interpolation. */
  function IntToString(i: int): (r: string)
    ensures |r| > 0
  {
    if i < 0 then "-" + Digits(-i) else Digits(i)
  }

  /** The number a string of digits denotes. */
  function DigitsValue(ds: string): nat
    requires forall i :: 0 <= i < |ds| ==> IsDigit(ds[i])
  {
    if |ds| == 0 then 0
    else
      var last := ds[|ds| - 1];
      assert IsDigit(last);
      DigitsValue(ds[..|ds| - 1]) * 10 + (last as int - '0' as int)
  }

  /** The longest prefix of `s` made of digits. */
  function DigitPrefix(s: string): (r: string)
    ensures |r| <= |s| && r == s[..|r|]
    ensures forall i :: 0 <= i < |r| ==> IsDigit(r[i])
    ensures |r| < |s| ==> !IsDigit(s[|r|])
  {
    if |s| > 0 && IsDigit(s[0]) then [s[0]] + DigitPrefix(s[1..]) else []
  }

  predicate IsNumericSpace(c: char) {
    c == ' ' || c == '\t' || c == '\n' || c == '\r' || c == 11 as char || c == 12 as char
  }

  /** `s` without its leading white space. */
  function SkipSpace(s: string): (r: string)
    ensures |r| <= |s| && r == s[|s| - |r|..]
    ensures |r| > 0 ==> !IsNumericSpace(r[0])
  {
    if |s| > 0 && IsNumericSpace(s[0]) then SkipSpace(s[1..]) else s
  }

  /** The range of a PHP integer on a 64-bit build. */
  const PhpIntMax: int := 0x7FFF_FFFF_FFFF_FFFF
  const PhpIntMin: int := -0x8000_0000_0000_0000

  /** The number `intval` reads from a string before it is fitted to the
      integer range: optional leading white space and sign, then the leading
      run of digits; anything else reads as 0. */
  function IntValUnbounded(s: string): int {
    var t := SkipSpace(s);
    if |t| > 0 && t[0] == '-' then -(DigitsValue(DigitPrefix(t[1..])) as int)
    else if |t| > 0 && t[0] == '+' then DigitsValue(DigitPrefix(t[1..]))
    else DigitsValue(DigitPrefix(t))
  }

  /** PHP `intval` of a string, as `strtol` reads it: a number outside the
      integer range saturates at its nearer end. */
  function IntVal(s: string): (r: int)
    ensures PhpIntMin <= r <= PhpIntMax
    ensures PhpIntMin <= IntValUnbounded(s) <= PhpIntMax ==> r == IntValUnbounded(s)
    ensures IntValUnbounded(s) > PhpIntMax ==> r == PhpIntMax
    ensures IntValUnbounded(s) < PhpIntMin ==> r == PhpIntMin
  {
    var n := IntValUnbounded(s);
    if n > PhpIntMax then PhpIntMax else if n < PhpIntMin then PhpIntMin else n
  }

  lemma {:induction false} DigitsValueOfDigits(n: nat)
    ensures DigitsValue(Digits(n)) == n
    decreases n
  {
    if n >= 10 {
      DigitsValueOfDigits(n / 10);
      var ds := Digits(n);
      assert ds[..|ds| - 1] == Digits(n / 10);
    }
  }

  lemma {:induction false} DigitPrefixOfDigits(ds: string)
    requires forall i :: 0 <= i < |ds| ==> IsDigit(ds[i])
    ensures DigitPrefix(ds) == ds
    decreases |ds|
  {
    if |ds| > 0 {
      DigitPrefixOfDigits(ds[1..]);
      assert ds == [ds[0]] + ds[1..];
    }
  }

  /** Reading back the string form of an integer gives the integer; a
      number past the integer range reads as the end it passed. */
  lemma IntValOfIntToString(i: int)
    ensures PhpIntMin <= i <= PhpIntMax ==> IntVal(IntToString(i)) == i
    ensures i > PhpIntMax ==> IntVal(IntToString(i)) == PhpIntMax
    ensures i < PhpIntMin ==> IntVal(IntToString(i)) == PhpIntMin
  {
    var n: nat := if i < 0 then -i else i;
    DigitsValueOfDigits(n);
    DigitPrefixOfDigits(Digits(n));
    var s := IntToString(i);
    assert !IsNumericSpace(s[0]);
    assert SkipSpace(s) == s;
    if i < 0 {
      assert s[1..] == Digits(n);
    } else {
      assert s[0] != '-' && s[0] != '+';
    }
    assert IntValUnbounded(s) == i;
  }

  /** PHP string conversion of a scalar value; arrays and objects have none. */
  function ScalarString(v: Value): (r: Option<string>)
    ensures r.None? <==> v.Arr? || v.Obj?
    ensures v.Str? ==> r == Some(v.s)
  {
    match v
    case Null => Some("")
    case Bool(b) => Some(if b then "1" else "")
    case Int(i) => Some(IntToString(i))
    case Str(s) => Some(s)
    case Arr(_) => None
    case Obj(_) => None
  }
}
