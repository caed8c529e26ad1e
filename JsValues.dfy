/** JavaScript values as the validators see them, the lodash type
    predicates the library relies on, and own-property lookup.

    Numbers carry no payload (only their type tag is ever inspected) and a
    Date carries only whether its timestamp is NaN. */
module JsValues {
  import opened Wrappers

  datatype Value =
    | JUndefined
    | JNull
    | JBool(b: bool)
    | JNum
    | JStr(s: string)
    | JDate(timeIsNaN: bool)
    | JArr(elems: seq<Value>)
    | JObj(props: map<string, Value>)

  // The lodash classifiers. `_.isNumber` accepts NaN, which is just a JNum
  // here; `_.isObject` holds for arrays and dates as well as plain objects.

  predicate IsBoolean(x: Value) { x.JBool? }

  predicate IsNumber(x: Value) { x.JNum? }

  predicate IsString(x: Value) { x.JStr? }

  predicate IsDate(x: Value) { x.JDate? }

  predicate IsArray(x: Value) { x.JArr? }

  predicate IsObject(x: Value) { x.JDate? || x.JArr? || x.JObj? }

  /** `x.length === 0`, for the strings and arrays on which it is asked. */
  predicate HasZeroLength(x: Value)
  {
    match x
    case JStr(s) => |s| == 0
    case JArr(xs) => |xs| == 0
    case _ => false
  }

  /** The elements `xs.map` visits; only arrays have any. */
  function Elements(x: Value): seq<Value>
  {
    if x.JArr? then x.elems else []
  }

  // ----- termination measure for validation, which recurses into the value -----

  /** Values that own other values. */
  predicate IsContainer(x: Value) { x.JArr? || x.JObj? }

  function Rank(x: Value): nat { if IsContainer(x) then 1 else 0 }

  /** `y` is strictly smaller than `x` in the order (Rank, structure). */
  ghost predicate Below(y: Value, x: Value)
  {
    IsContainer(x) && (y < x || !IsContainer(y))
  }

  // ----- canonical array-index property names -----

  predicate IsDigit(c: char) { '0' <= c <= '9' }

  function DigitChar(d: nat): (c: char)
    requires d < 10
    ensures IsDigit(c)
  {
    ('0' as int + d) as char
  }

  function DigitValue(c: char): (d: nat)
    requires IsDigit(c)
    ensures d < 10
  {
    c as int - '0' as int
  }

  predicate AllDigits(s: string)
  {
    forall i :: 0 <= i < |s| ==> IsDigit(s[i])
  }

  /** A property name that denotes an array index: decimal digits with no
      leading zero, except "0" itself. */
  predicate IsCanonicalIndex(s: string)
  {
    |s| >= 1 && AllDigits(s) && (s[0] == '0' ==> |s| == 1)
  }

  /** The number written by a string of decimal digits, most significant first. */
  function DigitsValue(s: string): nat
    requires AllDigits(s)
  {
    if s == [] then 0 else DigitsValue(s[..|s| - 1]) * 10 + DigitValue(s[|s| - 1])
  }

  /** The property name under which an array stores its element `n`. */
  function IndexString(n: nat): (s: string)
    ensures IsCanonicalIndex(s)
    ensures s[0] == '0' <==> n == 0
  {
    if n < 10 then [DigitChar(n)] else IndexString(n / 10) + [DigitChar(n % 10)]
  }

  /** The array index a property name denotes, if it denotes one. */
  function ParseIndex(s: string): Option<nat>
  {
    if IsCanonicalIndex(s) then Some(DigitsValue(s)) else None
  }

  lemma {:induction false} ParseIndexString(n: nat)
    ensures ParseIndex(IndexString(n)) == Some(n)
  {
    var s := IndexString(n);
    if n < 10 {
      assert DigitsValue(s) == DigitsValue([]) * 10 + DigitValue(DigitChar(n));
    } else {
      ParseIndexString(n / 10);
      assert s[..|s| - 1] == IndexString(n / 10);
      assert DigitsValue(s) == (n / 10) * 10 + DigitValue(DigitChar(n % 10));
    }
  }

  lemma {:induction false} PositiveDigitsValue(s: string)
    requires |s| >= 1 && AllDigits(s) && s[0] != '0'
    ensures DigitsValue(s) >= 1
  {
    if |s| > 1 {
      PositiveDigitsValue(s[..|s| - 1]);
    }
  }

  lemma {:induction false} IndexStringParse(s: string)
    requires ParseIndex(s).Some?
    ensures IndexString(ParseIndex(s).value) == s
  {
    if |s| > 1 {
      var t := s[..|s| - 1];
      assert IsCanonicalIndex(t);
      PositiveDigitsValue(t);
      IndexStringParse(t);
      var n := DigitsValue(s);
      assert n / 10 == DigitsValue(t) && n % 10 == DigitValue(s[|s| - 1]);
      assert s == t + [s[|s| - 1]];
    }
  }

  /** `hasOwnProperty.call(x, name) ? x[name] : absent` for the values the
      object check lets through: a plain object owns its keys, an array owns
      "length" and the canonical names of its indices, a Date owns nothing. */
  function OwnProperty(x: Value, name: string): (r: Option<Value>)
    ensures r.Some? ==> IsObject(x) && Below(r.value, x)
  {
    match x
    case JObj(m) => if name in m then Some(m[name]) else None
    case JArr(xs) =>
      if name == "length" then Some(JNum)
      else if ParseIndex(name).Some? && ParseIndex(name).value < |xs| then Some(xs[ParseIndex(name).value])
      else None
    case _ => None
  }

  /** Element `i` of an array is exactly its own property named by the
      decimal form of `i`. */
  lemma ArrayIndexProperty(xs: seq<Value>, i: nat)
    ensures OwnProperty(JArr(xs), IndexString(i)) == if i < |xs| then Some(xs[i]) else None
  {
    ParseIndexString(i);
  }

  /** Every own property of an array other than "length" is one of its
      elements, found at the index its name spells. */
  lemma ArrayPropertyIsElement(xs: seq<Value>, name: string)
    requires name != "length" && OwnProperty(JArr(xs), name).Some?
    ensures ParseIndex(name).Some? && ParseIndex(name).value < |xs|
    ensures name == IndexString(ParseIndex(name).value)
    ensures OwnProperty(JArr(xs), name).value == xs[ParseIndex(name).value]
  {
    IndexStringParse(name);
  }
}
