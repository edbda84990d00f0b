/**
 * The PHP values that appear in object-model definitions, and the few
 * language rules the schema builder relies on: truthiness, string
 * conversion, `isset`/`array_key_exists` lookups and loose comparison of a
 * value with an integer constant.
 */
module Php {
  import opened Strings

  /** A PHP value as it may appear in a definition array (floats and objects are not modelled). */
  datatype Value = Null | Bool(b: bool) | Int(i: int) | Str(s: string) | List(items: seq<Value>)

  /** An associative option array; lookups by key do not depend on its order. */
  type Options = map<string, Value>

  /** `!!$v` */
  predicate Truthy(v: Value) {
    match v
    case Null => false
    case Bool(b) => b
    case Int(i) => i != 0
    case Str(s) => s != "" && s != "0"
    case List(items) => items != []
  }

  /** `(string)$v`: what string interpolation and `implode` produce; an array becomes "Array". */
  function StrOf(v: Value): string {
    match v
    case Null => ""
    case Bool(b) => if b then "1" else ""
    case Int(i) => IntToString(i)
    case Str(s) => s
    case List(_) => "Array"
  }

  /** `isset($options[$key])`: present and not null. */
  predicate IsSet(options: Options, key: string) {
    key in options && options[key] != Null
  }

  /** `checkOption`: the option is set and truthy. */
  function CheckOption(options: Options, key: string): (r: bool)
    ensures r <==> key in options && Truthy(options[key])
    ensures r <==> Truthy(GetOption(options, key, Null))
  {
    IsSet(options, key) && Truthy(options[key])
  }

  /** `getOption`: the stored value whenever the key exists, even an explicit null; else the fallback. */
  function GetOption(options: Options, key: string, fallback: Value): (r: Value)
    ensures key in options ==> r == options[key]
    ensures key !in options ==> r == fallback
  {
    if key in options then options[key] else fallback
  }

  /** An explicit null is returned as null, never replaced by the fallback. */
  lemma GetOptionKeepsNull(options: Options, key: string, fallback: Value)
    requires key in options && options[key] == Null
    ensures GetOption(options, key, fallback) == Null
  {
  }

  /** The fallback matters exactly when the key is absent. */
  lemma GetOptionFallback(options: Options, key: string, f1: Value, f2: Value)
    ensures GetOption(options, key, f1) == GetOption(options, key, f2) <==> key in options || f1 == f2
  {
  }

  /** Three-way comparison of integers. */
  function CompareInts(a: int, b: int): int {
    if a < b then -1 else if a == b then 0 else 1
  }

  /** Three-way comparison of booleans, false below true. */
  function CompareBools(a: bool, b: bool): int {
    if a == b then 0 else if b then -1 else 1
  }

  /** Three-way `strcmp` sign. */
  function CompareStrings(a: string, b: string): int {
    if a == b then 0 else if StrLess(a, b) then -1 else 1
  }

  /**
   * `$v <=> $n` for an integer `$n` under PHP 8 loose comparison: null and
   * booleans compare as booleans, a numeric string as a number, any other
   * string against the decimal form of `$n`, and an array is always greater.
   * Numeric strings are modelled as plain decimal digit strings.
   */
  function CompareWithInt(v: Value, n: int): (r: int)
    ensures -1 <= r <= 1
  {
    match v
    case Null => CompareBools(false, n != 0)
    case Bool(b) => CompareBools(b, n != 0)
    case Int(i) => CompareInts(i, n)
    case Str(s) => if IsDigits(s) then CompareInts(ParseDigits(s), n) else CompareStrings(s, IntToString(n))
    case List(_) => 1
  }

  /** `$v == $n` */
  predicate LooseEqualsInt(v: Value, n: int) {
    CompareWithInt(v, n) == 0
  }

  /** `$v <= $n` */
  predicate LooseAtMostInt(v: Value, n: int) {
    CompareWithInt(v, n) <= 0
  }

  /** On integers, and on the decimal strings of naturals, loose comparison is numeric comparison. */
  lemma LooseComparisonNumeric(v: Value, k: nat, n: int)
    requires v == Int(k) || v == Str(NatToString(k))
    ensures LooseEqualsInt(v, n) <==> k == n
    ensures LooseAtMostInt(v, n) <==> k <= n
  {
    ParseNatToString(k);
  }
}
