/** The fragment of PHP's dynamic values that the lock task reads: task
    parameters, host-list entries and the decoded lock marker. Floats are
    not modelled. */
module Php {

  /** A PHP value. An array is keyed by strings; PHP's integer keys are
      written as their decimal string. */
  datatype Value =
    | Null
    | Bool(b: bool)
    | Int(i: int)
    | Str(s: string)
    | Arr(entries: map<string, Value>)

  /** A key of a PHP array as iterated by `foreach`. */
  datatype Key = IntKey(n: int) | StrKey(name: string)

  /** The value a key takes when it is assigned to a variable. */
  function KeyValue(k: Key): (v: Value)
    ensures v.Int? || v.Str?
  {
    match k
    case IntKey(n) => Int(n)
    case StrKey(name) => Str(name)
  }

  /** PHP's conversion to boolean: null, false, 0, "", "0" and the empty
      array are falsy, everything else is truthy. */
  predicate Truthy(v: Value)
    ensures !Truthy(v)
            <==> (v == Null || v == Bool(false) || v == Int(0)
                  || v == Str("") || v == Str("0") || v == Arr(map[]))
  {
    match v
    case Null => false
    case Bool(b) => b
    case Int(i) => i != 0
    case Str(s) => s != "" && s != "0"
    case Arr(m) => |m| > 0
  }

  /** PHP's `empty()` on a string: true for "" and for "0". */
  predicate EmptyString(s: string)
    ensures EmptyString(s) <==> s == "" || s == "0"
  {
    !Truthy(Str(s))
  }

  /** `isset($a[k])`: the key is present and its value is not null. Unlike
      `empty()`, it holds of an empty string. */
  predicate IsSet(m: map<string, Value>, k: string)
    ensures IsSet(m, k) ==> k in m
    ensures k in m ==> (IsSet(m, k) <==> !m[k].Null?)
    ensures k in m && m[k] == Str("") ==> IsSet(m, k)
  {
    k in m && m[k] != Null
  }

  function DigitChar(d: nat): (c: char)
    requires d < 10
    ensures '0' <= c <= '9'
  {
    "0123456789"[d]
  }

  /** The number a string of decimal digits denotes, most significant first. */
  function DigitsValue(s: string): nat
    requires forall k :: 0 <= k < |s| ==> '0' <= s[k] <= '9'
  {
    if s == [] then 0
    else 10 * DigitsValue(s[..|s| - 1]) + ((s[|s| - 1] as int) - ('0' as int))
  }

  /** The decimal digits of a natural number, without leading zeros. */
  function Decimal(n: nat): (s: string)
    ensures 0 < |s|
    ensures forall k :: 0 <= k < |s| ==> '0' <= s[k] <= '9'
    ensures DigitsValue(s) == n
    ensures (s[0] == '0') <==> n == 0
    decreases n
  {
    if n < 10 then [DigitChar(n)]
    else
      var s := Decimal(n / 10) + [DigitChar(n % 10)];
      assert s[..|s| - 1] == Decimal(n / 10);
      s
  }

  /** PHP's conversion to string, as string concatenation applies it. */
  function ToStr(v: Value): (s: string)
    ensures v.Str? ==> s == v.s
    ensures s == "" <==> v.Null? || v == Bool(false) || v == Str("")
  {
    match v
    case Null => ""
    case Bool(b) => if b then "1" else ""
    case Int(i) => if i < 0 then "-" + Decimal(-i) else Decimal(i)
    case Str(s) => s
    case Arr(_) => "Array"
  }
}
