/** The declarative request validation the handlers run (Joi object schemas
    validated with `convert: true` and `abortEarly: false`), and the shaping of
    its error details into `{field, message}` entries. */
module Validation {
  import opened Wrappers
  import opened Json
  import opened Http

  /** `Joi.string()` or `Joi.number()`. */
  datatype BaseType = StringType | NumberType

  /** The rules checked after the base type: `.integer()`, `.greater(0)` and
      the ObjectId format check written with `.custom(...)`. */
  datatype Rule = Integer | Positive | ObjectIdFormat

  /** The schema of one key: its base type, whether it is `.required()`, the
      values it `.allow(...)`s and its further rules, in order. */
  datatype KeyRule = KeyRule(key: string, base: BaseType, required: bool, allowed: seq<JsValue>, rules: seq<Rule>)

  /** The error types the rule sets can raise. */
  datatype ErrorCode =
    | AnyRequired
    | StringBase
    | StringEmpty
    | NumberBase
    | NumberInteger
    | NumberGreater
    | AnyInvalid
    | ObjectUnknown

  /** One element of `error.details`. */
  datatype Detail = Detail(path: seq<string>, code: ErrorCode, message: string)

  /** The text that follows the label in each error message. */
  function Template(code: ErrorCode): string
  {
    match code
    case AnyRequired => " is required"
    case StringBase => " must be a string"
    case StringEmpty => " is not allowed to be empty"
    case NumberBase => " must be a number"
    case NumberInteger => " must be an integer"
    case NumberGreater => " must be greater than 0"
    case AnyInvalid => " contains an invalid value"
    case ObjectUnknown => " is not allowed"
  }

  /** The detail for a violation at a top-level key; the label is the key in
      double quotes. */
  function Violation(key: string, code: ErrorCode): Detail
  {
    Detail([key], code, "\"" + key + "\"" + Template(code))
  }

  /** With `convert: true` a number schema turns a numeric string into the
      number it denotes; every other value is left as it is. */
  function Coerce(base: BaseType, v: JsValue): (c: JsValue)
    ensures base == StringType ==> c == v
    ensures c.Undefined? <==> v.Undefined?
  {
    if base == NumberType && v.Str? && IsNumeral(v.s) then Num(ParseInteger(v.s).value as real) else v
  }

  /** The number a number schema sees: a number, or a numeric string. */
  function NumberValue(v: JsValue): (r: Option<real>)
    ensures r.Some? <==> Coerce(NumberType, v).Num?
    ensures r.Some? ==> Coerce(NumberType, v) == Num(r.value)
  {
    match v
    case Num(n) => Some(n)
    case Str(s) => if IsNumeral(s) then Some(ParseInteger(s).value as real) else None
    case _ => None
  }

  predicate NonEmptyString(v: JsValue)
  {
    v.Str? && v.s != ""
  }

  predicate RuleHolds(rule: Rule, c: JsValue, validId: string -> bool)
  {
    match rule
    case Integer => c.Num? && IsIntegral(c.n)
    case Positive => c.Num? && c.n > 0.0
    case ObjectIdFormat => c.Str? && validId(c.s)
  }

  function RuleCode(rule: Rule): ErrorCode
  {
    match rule
    case Integer => NumberInteger
    case Positive => NumberGreater
    case ObjectIdFormat => AnyInvalid
  }

  /** Every further rule is checked and every failure is reported. */
  function RuleViolations(key: string, rules: seq<Rule>, c: JsValue, validId: string -> bool): (ds: seq<Detail>)
    ensures ds == [] <==> forall i :: 0 <= i < |rules| ==> RuleHolds(rules[i], c, validId)
    ensures forall d :: d in ds ==> d.path == [key]
  {
    if rules == [] then []
    else
      var rest := RuleViolations(key, rules[1..], c, validId);
      assert forall i :: 1 <= i < |rules| ==> rules[i] == rules[1..][i - 1];
      if RuleHolds(rules[0], c, validId) then rest
      else [Violation(key, RuleCode(rules[0]))] + rest
  }

  /** The value of one key checked against its schema: coercion, then
      presence, then the allowed values, then the base type (whose failure
      stops the checks of that key), then every further rule. */
  function CheckKey(rule: KeyRule, v: JsValue, validId: string -> bool): (ds: seq<Detail>)
    ensures forall d :: d in ds ==> d.path == [rule.key]
  {
    var c := Coerce(rule.base, v);
    if c.Undefined? then
      if rule.required then [Violation(rule.key, AnyRequired)] else []
    else if c in rule.allowed then []
    else
      match rule.base
      case StringType =>
        if !c.Str? then [Violation(rule.key, StringBase)]
        else if c.s == "" then [Violation(rule.key, StringEmpty)]
        else RuleViolations(rule.key, rule.rules, c, validId)
      case NumberType =>
        if !c.Num? then [Violation(rule.key, NumberBase)]
        else RuleViolations(rule.key, rule.rules, c, validId)
  }

  /** What a key schema admits, stated without the order of the checks:
      an absent optional value, an allowed value, or a value of the base type
      (a non-empty string, or a number or numeric string) that every further
      rule accepts. */
  predicate Admits(rule: KeyRule, v: JsValue, validId: string -> bool)
  {
    (v.Undefined? && !rule.required)
    || (!v.Undefined? && Coerce(rule.base, v) in rule.allowed)
    || (match rule.base
        case StringType => NonEmptyString(v) && forall i :: 0 <= i < |rule.rules| ==> RuleHolds(rule.rules[i], v, validId)
        case NumberType => NumberValue(v).Some? && forall i :: 0 <= i < |rule.rules| ==> RuleHolds(rule.rules[i], Num(NumberValue(v).value), validId))
  }

  lemma CheckKeyAdmits(rule: KeyRule, v: JsValue, validId: string -> bool)
    ensures CheckKey(rule, v, validId) == [] <==> Admits(rule, v, validId)
  {
    if rule.base == NumberType && NumberValue(v).Some? {
      assert Coerce(rule.base, v) == Num(NumberValue(v).value);
    }
  }

  /** The keys a rule set declares, in order. */
  function Keys(rules: seq<KeyRule>): (ks: seq<string>)
    ensures |ks| == |rules|
    ensures forall i :: 0 <= i < |rules| ==> ks[i] == rules[i].key
  {
    if rules == [] then [] else [rules[0].key] + Keys(rules[1..])
  }

  /** The details of the declared keys, key by key in declaration order. */
  function KeyViolations(rules: seq<KeyRule>, obj: seq<Entry>, validId: string -> bool): seq<Detail>
  {
    if rules == [] then []
    else CheckKey(rules[0], Get(obj, rules[0].key), validId) + KeyViolations(rules[1..], obj, validId)
  }

  /** One `object.unknown` detail for every key the rule set does not declare,
      in the order of the object's keys. */
  function UnknownKeys(rules: seq<KeyRule>, obj: seq<Entry>): seq<Detail>
  {
    if obj == [] then []
    else
      (if obj[0].key in Keys(rules) then [] else [Violation(obj[0].key, ObjectUnknown)])
      + UnknownKeys(rules, obj[1..])
  }

  /** `schema.validate(obj, {abortEarly: false})`: `[]` when it passes,
      otherwise `error.details`. */
  function Validate(rules: seq<KeyRule>, obj: seq<Entry>, validId: string -> bool): seq<Detail>
  {
    KeyViolations(rules, obj, validId) + UnknownKeys(rules, obj)
  }

  lemma {:induction false} KeyViolationsEmpty(rules: seq<KeyRule>, obj: seq<Entry>, validId: string -> bool)
    ensures KeyViolations(rules, obj, validId) == []
        <==> forall i :: 0 <= i < |rules| ==> CheckKey(rules[i], Get(obj, rules[i].key), validId) == []
  {
    if rules != [] {
      KeyViolationsEmpty(rules[1..], obj, validId);
      assert forall i :: 1 <= i < |rules| ==> rules[i] == rules[1..][i - 1];
    }
  }

  lemma {:induction false} UnknownKeysEmpty(rules: seq<KeyRule>, obj: seq<Entry>)
    ensures UnknownKeys(rules, obj) == [] <==> forall i :: 0 <= i < |obj| ==> obj[i].key in Keys(rules)
  {
    if obj != [] {
      UnknownKeysEmpty(rules, obj[1..]);
      assert forall i :: 1 <= i < |obj| ==> obj[i] == obj[1..][i - 1];
    }
  }

  /** A required string key with no other rule admits exactly the non-empty
      strings. */
  lemma AdmitsRequiredString(key: string, v: JsValue, validId: string -> bool)
    ensures Admits(KeyRule(key, StringType, true, [], []), v, validId) <==> NonEmptyString(v)
  {
  }

  /** The object has no key outside `keys`. */
  predicate OnlyKeys(obj: seq<Entry>, keys: seq<string>)
  {
    forall i :: 0 <= i < |obj| ==> obj[i].key in keys
  }

  /** Validation passes exactly when every declared key is admitted and the
      object has no other key. */
  lemma ValidateEmpty(rules: seq<KeyRule>, obj: seq<Entry>, validId: string -> bool)
    ensures Validate(rules, obj, validId) == []
        <==> ((forall i :: 0 <= i < |rules| ==> Admits(rules[i], Get(obj, rules[i].key), validId))
              && (forall i :: 0 <= i < |obj| ==> obj[i].key in Keys(rules)))
  {
    KeyViolationsEmpty(rules, obj, validId);
    UnknownKeysEmpty(rules, obj);
    forall i | 0 <= i < |rules|
      ensures CheckKey(rules[i], Get(obj, rules[i].key), validId) == [] <==> Admits(rules[i], Get(obj, rules[i].key), validId)
    {
      CheckKeyAdmits(rules[i], Get(obj, rules[i].key), validId);
    }
  }

  /** Validation of a rule set with keys `keys` passes exactly when `fieldsOk`
      and the object has no other key, given that `fieldsOk` says exactly
      that every declared key is admitted. */
  lemma ValidateIff(rules: seq<KeyRule>, obj: seq<Entry>, validId: string -> bool, fieldsOk: bool, keys: seq<string>)
    requires Keys(rules) == keys
    requires fieldsOk <==> forall i :: 0 <= i < |rules| ==> Admits(rules[i], Get(obj, rules[i].key), validId)
    ensures Validate(rules, obj, validId) == [] <==> fieldsOk && OnlyKeys(obj, keys)
  {
    ValidateEmpty(rules, obj, validId);
  }

  /** `abortEarly: false`: a violation found at any declared key is in the
      reported details, whatever the other keys hold. */
  lemma {:induction false} EveryViolationReported(rules: seq<KeyRule>, obj: seq<Entry>, validId: string -> bool, i: nat, d: Detail)
    requires i < |rules|
    requires d in CheckKey(rules[i], Get(obj, rules[i].key), validId)
    ensures d in Validate(rules, obj, validId)
  {
    KeyViolationsContain(rules, obj, validId, i, d);
  }

  lemma {:induction false} KeyViolationsContain(rules: seq<KeyRule>, obj: seq<Entry>, validId: string -> bool, i: nat, d: Detail)
    requires i < |rules|
    requires d in CheckKey(rules[i], Get(obj, rules[i].key), validId)
    ensures d in KeyViolations(rules, obj, validId)
  {
    if i > 0 {
      KeyViolationsContain(rules[1..], obj, validId, i - 1, d);
    }
  }

  /** Each missing required key contributes its own `is required` detail. */
  lemma MissingRequiredReported(rules: seq<KeyRule>, obj: seq<Entry>, validId: string -> bool, i: nat)
    requires i < |rules| && rules[i].required
    requires !HasKey(obj, rules[i].key)
    ensures Violation(rules[i].key, AnyRequired) in Validate(rules, obj, validId)
  {
    EveryViolationReported(rules, obj, validId, i, Violation(rules[i].key, AnyRequired));
  }

  /** A key the rule set does not declare is reported as not allowed. */
  lemma {:induction false} UnknownKeyReported(rules: seq<KeyRule>, obj: seq<Entry>, validId: string -> bool, j: nat)
    requires j < |obj| && obj[j].key !in Keys(rules)
    ensures Violation(obj[j].key, ObjectUnknown) in Validate(rules, obj, validId)
  {
    UnknownKeysContain(rules, obj, j);
  }

  lemma {:induction false} UnknownKeysContain(rules: seq<KeyRule>, obj: seq<Entry>, j: nat)
    requires j < |obj| && obj[j].key !in Keys(rules)
    ensures Violation(obj[j].key, ObjectUnknown) in UnknownKeys(rules, obj)
  {
    if j > 0 {
      UnknownKeysContain(rules, obj[1..], j - 1);
    }
  }

  /** The details reported at the top-level key `key`, in the order
      reported. */
  function DetailsAt(ds: seq<Detail>, key: string): (r: seq<Detail>)
    ensures forall d :: d in r <==> d in ds && d.path == [key]
    ensures |r| <= |ds|
  {
    if ds == [] then []
    else (if ds[0].path == [key] then [ds[0]] else []) + DetailsAt(ds[1..], key)
  }

  lemma {:induction false} DetailsAtAppend(a: seq<Detail>, b: seq<Detail>, key: string)
    ensures DetailsAt(a + b, key) == DetailsAt(a, key) + DetailsAt(b, key)
  {
    if a == [] {
      assert a + b == b;
    } else {
      assert (a + b)[0] == a[0];
      assert (a + b)[1..] == a[1..] + b;
      DetailsAtAppend(a[1..], b, key);
    }
  }

  /** Details that are all at `key` are all kept, in order. */
  lemma {:induction false} DetailsAtAll(ds: seq<Detail>, key: string)
    requires forall d :: d in ds ==> d.path == [key]
    ensures DetailsAt(ds, key) == ds
  {
    if ds != [] {
      assert ds[0] in ds;
      assert forall d :: d in ds[1..] ==> d in ds;
      DetailsAtAll(ds[1..], key);
    }
  }

  /** Details none of which is at `key` leave nothing. */
  lemma DetailsAtNone(ds: seq<Detail>, key: string)
    requires forall d :: d in ds ==> d.path != [key]
    ensures DetailsAt(ds, key) == []
  {
  }

  /** No two keys of the rule set are the same. */
  predicate DeclaredOnce(rules: seq<KeyRule>)
  {
    forall a, b :: 0 <= a < b < |rules| ==> rules[a].key != rules[b].key
  }

  /** A key the rule set does not declare has no key detail. */
  lemma {:induction false} KeyViolationsUndeclared(rules: seq<KeyRule>, obj: seq<Entry>, validId: string -> bool, key: string)
    requires forall j :: 0 <= j < |rules| ==> rules[j].key != key
    ensures DetailsAt(KeyViolations(rules, obj, validId), key) == []
  {
    if rules != [] {
      var head := CheckKey(rules[0], Get(obj, rules[0].key), validId);
      DetailsAtAppend(head, KeyViolations(rules[1..], obj, validId), key);
      DetailsAtNone(head, key);
      assert forall j :: 0 <= j < |rules| - 1 ==> rules[1..][j] == rules[j + 1];
      KeyViolationsUndeclared(rules[1..], obj, validId, key);
    }
  }

  /** With every key declared once, the key details at a declared key are
      exactly that key's own. */
  lemma {:induction false} KeyViolationsDeclared(rules: seq<KeyRule>, obj: seq<Entry>, validId: string -> bool, i: nat)
    requires i < |rules| && DeclaredOnce(rules)
    ensures DetailsAt(KeyViolations(rules, obj, validId), rules[i].key) == CheckKey(rules[i], Get(obj, rules[i].key), validId)
  {
    var key := rules[i].key;
    var head := CheckKey(rules[0], Get(obj, rules[0].key), validId);
    DetailsAtAppend(head, KeyViolations(rules[1..], obj, validId), key);
    assert forall j :: 0 <= j < |rules| - 1 ==> rules[1..][j] == rules[j + 1];
    if i == 0 {
      DetailsAtAll(head, key);
      KeyViolationsUndeclared(rules[1..], obj, validId, key);
    } else {
      DetailsAtNone(head, key);
      KeyViolationsDeclared(rules[1..], obj, validId, i - 1);
    }
  }

  /** An `object.unknown` detail is never at a declared key. */
  lemma {:induction false} UnknownKeysDeclared(rules: seq<KeyRule>, obj: seq<Entry>, key: string)
    requires key in Keys(rules)
    ensures DetailsAt(UnknownKeys(rules, obj), key) == []
  {
    if obj != [] {
      var head: seq<Detail> := if obj[0].key in Keys(rules) then [] else [Violation(obj[0].key, ObjectUnknown)];
      DetailsAtAppend(head, UnknownKeys(rules, obj[1..]), key);
      DetailsAtNone(head, key);
      UnknownKeysDeclared(rules, obj[1..], key);
    }
  }

  /** With every key declared once, the details reported at a declared key
      are exactly the ones its own schema raises: no other key and no unknown
      key adds to them. */
  lemma DetailsAtDeclaredKey(rules: seq<KeyRule>, obj: seq<Entry>, validId: string -> bool, i: nat)
    requires i < |rules| && DeclaredOnce(rules)
    ensures DetailsAt(Validate(rules, obj, validId), rules[i].key) == CheckKey(rules[i], Get(obj, rules[i].key), validId)
  {
    KeyViolationsDeclared(rules, obj, validId, i);
    UnknownKeysDeclared(rules, obj, rules[i].key);
    DetailsAtAppend(KeyViolations(rules, obj, validId), UnknownKeys(rules, obj), rules[i].key);
  }

  /** A missing required key is reported exactly once, as `any.required`,
      and nothing else is reported at it. */
  lemma MissingRequiredOnce(rules: seq<KeyRule>, obj: seq<Entry>, validId: string -> bool, i: nat)
    requires i < |rules| && DeclaredOnce(rules) && rules[i].required
    requires !HasKey(obj, rules[i].key)
    ensures DetailsAt(Validate(rules, obj, validId), rules[i].key) == [Violation(rules[i].key, AnyRequired)]
  {
    DetailsAtDeclaredKey(rules, obj, validId, i);
  }

  // Error shaping: `details.map(({path, message}) => ({field: path.join("."), message: message.replace(/"/g, "")}))`.

  /** `message.replace(/"/g, "")`. */
  function RemoveQuotes(s: string): (r: string)
    ensures '"' !in r
    ensures |r| <= |s|
  {
    if s == [] then []
    else if s[0] == '"' then RemoveQuotes(s[1..])
    else [s[0]] + RemoveQuotes(s[1..])
  }

  lemma {:induction false} RemoveQuotesAppend(a: string, b: string)
    ensures RemoveQuotes(a + b) == RemoveQuotes(a) + RemoveQuotes(b)
  {
    if a == [] {
      assert a + b == b;
    } else {
      assert (a + b)[0] == a[0] && (a + b)[1..] == a[1..] + b;
      RemoveQuotesAppend(a[1..], b);
    }
  }

  lemma {:induction false} RemoveQuotesUnquoted(s: string)
    requires '"' !in s
    ensures RemoveQuotes(s) == s
  {
    if s != [] {
      RemoveQuotesUnquoted(s[1..]);
    }
  }

  /** `path.join(".")`. */
  function JoinPath(path: seq<string>): string
  {
    if path == [] then ""
    else if |path| == 1 then path[0]
    else path[0] + "." + JoinPath(path[1..])
  }

  function Shape(d: Detail): ErrorEntry
  {
    ErrorEntry(JoinPath(d.path), RemoveQuotes(d.message))
  }

  function ShapeAll(ds: seq<Detail>): seq<ErrorEntry>
  {
    seq(|ds|, i requires 0 <= i < |ds| => Shape(ds[i]))
  }

  lemma TemplateUnquoted(code: ErrorCode)
    ensures '"' !in Template(code)
  {
  }

  /** Removing the quotes from a label gives the key without its quotes. */
  lemma QuotedLabel(key: string)
    ensures RemoveQuotes("\"" + key + "\"") == RemoveQuotes(key)
  {
    var q := "\"";
    assert RemoveQuotes(q) == [];
    RemoveQuotesAppend(q + key, q);
    RemoveQuotesAppend(q, key);
  }

  /** A violation at key `k` becomes the entry whose field is `k` and whose
      message is the key, stripped of quotes, followed by the error text. */
  lemma ShapedViolation(key: string, code: ErrorCode)
    ensures Shape(Violation(key, code)) == ErrorEntry(key, RemoveQuotes(key) + Template(code))
  {
    var quoted := "\"" + key + "\"";
    QuotedLabel(key);
    TemplateUnquoted(code);
    RemoveQuotesAppend(quoted, Template(code));
    RemoveQuotesUnquoted(Template(code));
    assert JoinPath([key]) == key;
  }

  /** No shaped message contains a double quote, and there is one entry per
      detail, in order. */
  lemma ShapedEntries(ds: seq<Detail>)
    ensures |ShapeAll(ds)| == |ds|
    ensures forall e :: e in ShapeAll(ds) ==> '"' !in e.message
  {
  }

  /** The entry for a missing key `k` without quotes in its name reads
      `k is required`. */
  lemma MissingEntry(key: string)
    requires '"' !in key
    ensures Shape(Violation(key, AnyRequired)) == ErrorEntry(key, key + " is required")
  {
    ShapedViolation(key, AnyRequired);
    RemoveQuotesUnquoted(key);
  }

  /** A required key missing from the object is reported to the client as
      `<key> is required`, under the key itself. */
  lemma MissingKeyShaped(rules: seq<KeyRule>, obj: seq<Entry>, validId: string -> bool, i: nat)
    requires i < |rules| && rules[i].required && '"' !in rules[i].key
    requires !HasKey(obj, rules[i].key)
    ensures ErrorEntry(rules[i].key, rules[i].key + " is required") in ShapeAll(Validate(rules, obj, validId))
  {
    var key := rules[i].key;
    var ds := Validate(rules, obj, validId);
    MissingRequiredReported(rules, obj, validId, i);
    var k :| 0 <= k < |ds| && ds[k] == Violation(key, AnyRequired);
    MissingEntry(key);
    assert ShapeAll(ds)[k] == Shape(ds[k]);
  }
}
