/** JavaScript values as they arrive in a request body, query string or route parameter. */
module Json {
  import opened Wrappers

  /** A JSON-ish value. `Composite` stands for any object or array, whose content
      no rule in the core looks into. Numbers are JavaScript numbers without NaN
      or the infinities. */
  datatype JsValue =
    | Undefined
    | Null
    | Bool(b: bool)
    | Num(n: real)
    | Str(s: string)
    | Composite

  datatype Entry = Entry(key: string, value: JsValue)

  /** A JavaScript object never holds the same key twice. */
  predicate DistinctKeys(entries: seq<Entry>)
  {
    forall i, j :: 0 <= i < j < |entries| ==> entries[i].key != entries[j].key
  }

  /** A plain object such as `req.body` or `req.query`, keys in insertion order. */
  type JsObject = entries: seq<Entry> | DistinctKeys(entries)

  predicate HasKey(obj: seq<Entry>, key: string)
  {
    exists i :: 0 <= i < |obj| && obj[i].key == key
  }

  /** Property access `obj[key]`: `undefined` when the key is absent. */
  function Get(obj: seq<Entry>, key: string): (v: JsValue)
    ensures !HasKey(obj, key) ==> v == Undefined
    ensures forall i :: 0 <= i < |obj| && obj[i].key == key && DistinctKeys(obj) ==> v == obj[i].value
  {
    if obj == [] then Undefined
    else if obj[0].key == key then obj[0].value
    else Get(obj[1..], key)
  }

  function DigitValue(c: char): nat
    requires '0' <= c <= '9'
  {
    (c as int) - ('0' as int)
  }

  predicate AllDigits(s: string)
  {
    forall i :: 0 <= i < |s| ==> '0' <= s[i] <= '9'
  }

  /** The decimal value of a string of digits. */
  function DecimalValue(s: string): (n: nat)
    requires AllDigits(s)
  {
    if s == [] then 0 else 10 * DecimalValue(s[..|s| - 1]) + DigitValue(s[|s| - 1])
  }

  predicate IsSign(c: char)
  {
    c == '+' || c == '-'
  }

  /** `[+-]?digits`: the numeric strings whose conversion this model knows. */
  predicate IsNumeral(s: string)
  {
    if |s| > 0 && IsSign(s[0]) then |s| > 1 && AllDigits(s[1..]) else |s| > 0 && AllDigits(s)
  }

  /** A numeral read as an integer. */
  function ParseInteger(s: string): (r: Option<int>)
    ensures r.Some? <==> IsNumeral(s)
    ensures r.Some? && s[0] == '-' ==> r.value <= 0
    ensures r.Some? && s[0] != '-' ==> r.value >= 0
  {
    if !IsNumeral(s) then None
    else if s[0] == '-' then Some(0 - (DecimalValue(s[1..]) as int))
    else if s[0] == '+' then Some(DecimalValue(s[1..]))
    else Some(DecimalValue(s))
  }

  /** JavaScript truthiness: `undefined`, `null`, `false`, `0` and `""` are falsy. */
  predicate Truthy(v: JsValue)
  {
    match v
    case Undefined => false
    case Null => false
    case Bool(b) => b
    case Num(n) => n != 0.0
    case Str(s) => s != ""
    case Composite => true
  }

  predicate IsIntegral(n: real)
  {
    n.Floor as real == n
  }
}
