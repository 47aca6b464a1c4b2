/** The product handlers (controllers/ProductController.js): their rule sets,
    the shaping of validation errors, and add, list, view, edit and delete
    over the product collection. */
module ProductController {
  import opened Wrappers
  import opened Json
  import opened Messages
  import opened Http
  import opened Validation
  import opened ProductModel

  // ---------------------------------------------------------------------
  // Rule sets

  const AddProductRules: seq<KeyRule> := [
    KeyRule("productName", StringType, true, [], []),
    KeyRule("productCode", StringType, true, [], []),
    KeyRule("productColor", StringType, true, [], []),
    KeyRule("productDescription", StringType, false, [Null], []),
    KeyRule("productPrice", NumberType, true, [], [Integer]),
    KeyRule("productImage", StringType, true, [], [])
  ]

  const ListProductRules: seq<KeyRule> := [
    KeyRule("page", NumberType, true, [], [Integer, Positive]),
    KeyRule("limit", NumberType, true, [], [Integer, Positive])
  ]

  const ProductIdRule: KeyRule := KeyRule("productId", StringType, true, [], [ObjectIdFormat])

  const EditProductRules: seq<KeyRule> := [
    ProductIdRule,
    KeyRule("productName", StringType, true, [], []),
    KeyRule("productCode", StringType, true, [], []),
    KeyRule("productColor", StringType, true, [], []),
    KeyRule("productDescription", StringType, false, [Null], []),
    KeyRule("productPrice", NumberType, true, [], [Integer]),
    KeyRule("productImage", StringType, false, [Null], [])
  ]

  /** The object `viewProduct` and `deleteProduct` validate. */
  function IdObject(productId: JsValue): seq<Entry>
  {
    [Entry("productId", productId)]
  }

  /** The keys of the object `editProduct` validates. */
  const EditKeys: seq<string> := ["productId", "productName", "productCode", "productColor", "productDescription", "productPrice", "productImage"]

  /** The object `editProduct` validates: the route id and six body fields. */
  function EditObject(productId: JsValue, body: seq<Entry>): seq<Entry>
  {
    seq(|EditKeys|, i requires 0 <= i < |EditKeys| => Entry(EditKeys[i], if i == 0 then productId else Get(body, EditKeys[i])))
  }

  /** What the rule sets ask of their fields, stated directly. */
  predicate IntegerValue(v: JsValue)
  {
    NumberValue(v).Some? && IsIntegral(NumberValue(v).value)
  }

  predicate PositiveIntegerValue(v: JsValue)
  {
    IntegerValue(v) && NumberValue(v).value > 0.0
  }

  predicate NullableString(v: JsValue)
  {
    v.Undefined? || v.Null? || NonEmptyString(v)
  }

  predicate WellFormedId(v: JsValue, validId: string -> bool)
  {
    NonEmptyString(v) && validId(v.s)
  }

  const AddProductKeys: seq<string> := ["productName", "productCode", "productColor", "productDescription", "productPrice", "productImage"]

  predicate AddFieldsOk(body: seq<Entry>)
  {
    NonEmptyString(Get(body, "productName"))
    && NonEmptyString(Get(body, "productCode"))
    && NonEmptyString(Get(body, "productColor"))
    && NullableString(Get(body, "productDescription"))
    && IntegerValue(Get(body, "productPrice"))
    && NonEmptyString(Get(body, "productImage"))
  }

  predicate AddBodyOk(body: seq<Entry>)
  {
    AddFieldsOk(body) && OnlyKeys(body, AddProductKeys)
  }

  predicate ListQueryOk(query: seq<Entry>)
  {
    PositiveIntegerValue(Get(query, "page"))
    && PositiveIntegerValue(Get(query, "limit"))
    && OnlyKeys(query, ["page", "limit"])
  }

  predicate EditRequestOk(productId: JsValue, body: seq<Entry>, validId: string -> bool)
  {
    WellFormedId(productId, validId)
    && NonEmptyString(Get(body, "productName"))
    && NonEmptyString(Get(body, "productCode"))
    && NonEmptyString(Get(body, "productColor"))
    && NullableString(Get(body, "productDescription"))
    && IntegerValue(Get(body, "productPrice"))
    && NullableString(Get(body, "productImage"))
  }

  lemma AdmitsNullableString(key: string, v: JsValue, validId: string -> bool)
    ensures Admits(KeyRule(key, StringType, false, [Null], []), v, validId) <==> NullableString(v)
  {
  }

  lemma AdmitsInteger(key: string, v: JsValue, validId: string -> bool)
    ensures Admits(KeyRule(key, NumberType, true, [], [Integer]), v, validId) <==> IntegerValue(v)
  {
    var rules := [Integer];
    if NumberValue(v).Some? {
      var n := NumberValue(v).value;
      assert (forall i :: 0 <= i < |rules| ==> RuleHolds(rules[i], Num(n), validId)) <==> IsIntegral(n) by {
        assert rules[0] == Integer;
      }
    }
  }

  lemma AdmitsPositiveInteger(key: string, v: JsValue, validId: string -> bool)
    ensures Admits(KeyRule(key, NumberType, true, [], [Integer, Positive]), v, validId) <==> PositiveIntegerValue(v)
  {
    var rules := [Integer, Positive];
    if PositiveIntegerValue(v) {
      assert forall i :: 0 <= i < |rules| ==> RuleHolds(rules[i], Num(NumberValue(v).value), validId);
    }
    if Admits(KeyRule(key, NumberType, true, [], rules), v, validId) {
      assert RuleHolds(rules[0], Num(NumberValue(v).value), validId);
      assert RuleHolds(rules[1], Num(NumberValue(v).value), validId);
    }
  }

  lemma AdmitsProductId(v: JsValue, validId: string -> bool)
    ensures Admits(ProductIdRule, v, validId) <==> WellFormedId(v, validId)
  {
    if Admits(ProductIdRule, v, validId) {
      assert RuleHolds(ProductIdRule.rules[0], v, validId);
    }
  }

  /** What the `i`-th key of the `addProduct` rule set asks of the body. */
  lemma AddRuleAt(body: seq<Entry>, validId: string -> bool, i: nat)
    requires i < |AddProductRules|
    ensures Admits(AddProductRules[i], Get(body, AddProductRules[i].key), validId) <==>
      match i
      case 0 => NonEmptyString(Get(body, "productName"))
      case 1 => NonEmptyString(Get(body, "productCode"))
      case 2 => NonEmptyString(Get(body, "productColor"))
      case 3 => NullableString(Get(body, "productDescription"))
      case 4 => IntegerValue(Get(body, "productPrice"))
      case _ => NonEmptyString(Get(body, "productImage"))
  {
    var r := AddProductRules;
    if i == 0 { AdmitsRequiredString(r[0].key, Get(body, r[0].key), validId); }
    else if i == 1 { AdmitsRequiredString(r[1].key, Get(body, r[1].key), validId); }
    else if i == 2 { AdmitsRequiredString(r[2].key, Get(body, r[2].key), validId); }
    else if i == 3 { AdmitsNullableString(r[3].key, Get(body, r[3].key), validId); }
    else if i == 4 { AdmitsInteger(r[4].key, Get(body, r[4].key), validId); }
    else { AdmitsRequiredString(r[5].key, Get(body, r[5].key), validId); }
  }

  /** `addProduct` accepts exactly the bodies with a non-empty name, code,
      colour and image, an integer price (a number or a numeric string), a
      description that is absent, `null` or a non-empty string, and no other
      key. */
  lemma AddProductValidation(body: seq<Entry>, validId: string -> bool)
    ensures Validate(AddProductRules, body, validId) == [] <==> AddBodyOk(body)
  {
    AddProductKeysDeclared();
    AddFieldsAdmitted(body, validId);
    ValidateIff(AddProductRules, body, validId, AddFieldsOk(body), AddProductKeys);
  }

  lemma AddProductKeysDeclared()
    ensures Keys(AddProductRules) == AddProductKeys
  {
  }

  /** The six `addProduct` keys are admitted exactly when the body's fields
      are as `AddFieldsOk` says. */
  lemma AddFieldsAdmitted(body: seq<Entry>, validId: string -> bool)
    ensures AddFieldsOk(body) <==> forall i :: 0 <= i < |AddProductRules| ==> Admits(AddProductRules[i], Get(body, AddProductRules[i].key), validId)
  {
    if AddFieldsOk(body) {
      forall i | 0 <= i < |AddProductRules|
        ensures Admits(AddProductRules[i], Get(body, AddProductRules[i].key), validId)
      {
        AddRuleAt(body, validId, i);
      }
    }
    if forall i :: 0 <= i < |AddProductRules| ==> Admits(AddProductRules[i], Get(body, AddProductRules[i].key), validId) {
      AddRuleAt(body, validId, 0);
      AddRuleAt(body, validId, 1);
      AddRuleAt(body, validId, 2);
      AddRuleAt(body, validId, 3);
      AddRuleAt(body, validId, 4);
      AddRuleAt(body, validId, 5);
    }
  }

  /** `listProduct` accepts exactly the queries whose `page` and `limit` are
      integers greater than 0 and that have no other key. */
  lemma ListProductValidation(query: seq<Entry>, validId: string -> bool)
    ensures Validate(ListProductRules, query, validId) == [] <==> ListQueryOk(query)
  {
    ValidateEmpty(ListProductRules, query, validId);
    AdmitsPositiveInteger("page", Get(query, "page"), validId);
    AdmitsPositiveInteger("limit", Get(query, "limit"), validId);
    assert Keys(ListProductRules) == ["page", "limit"];
  }

  /** `viewProduct` and `deleteProduct` accept exactly a non-empty id that
      passes the ObjectId format check. */
  lemma ProductIdValidation(productId: JsValue, validId: string -> bool)
    ensures Validate([ProductIdRule], IdObject(productId), validId) == [] <==> WellFormedId(productId, validId)
  {
    ValidateEmpty([ProductIdRule], IdObject(productId), validId);
    AdmitsProductId(productId, validId);
  }

  /** The object `editProduct` validates holds the route id and the body's
      values under the rule set's keys, and nothing else. */
  lemma EditObjectValues(productId: JsValue, body: seq<Entry>, i: nat)
    requires i < |EditProductRules|
    ensures |EditObject(productId, body)| == |EditProductRules|
    ensures EditObject(productId, body)[i].key == EditProductRules[i].key
    ensures Get(EditObject(productId, body), EditProductRules[i].key)
         == if i == 0 then productId else Get(body, EditProductRules[i].key)
  {
    var obj := EditObject(productId, body);
    EditObjectDistinct(productId, body);
    assert obj[i].key == EditProductRules[i].key;
  }

  lemma EditObjectDistinct(productId: JsValue, body: seq<Entry>)
    ensures DistinctKeys(EditObject(productId, body))
  {
    EditKeysDistinct();
  }

  lemma EditKeysDistinct()
    ensures forall i, j :: 0 <= i < j < |EditKeys| ==> EditKeys[i] != EditKeys[j]
  {
    var ks := EditKeys;
    forall i, j | 0 <= i < j < |ks|
      ensures ks[i] != ks[j]
    {
      assert |ks[i]| != |ks[j]| || ks[i][7] != ks[j][7];
    }
  }

  /** What the `i`-th key of the `editProduct` rule set asks of the request. */
  lemma EditRuleAt(productId: JsValue, body: seq<Entry>, validId: string -> bool, i: nat)
    requires i < |EditProductRules|
    ensures Admits(EditProductRules[i], if i == 0 then productId else Get(body, EditProductRules[i].key), validId) <==>
      match i
      case 0 => WellFormedId(productId, validId)
      case 1 => NonEmptyString(Get(body, "productName"))
      case 2 => NonEmptyString(Get(body, "productCode"))
      case 3 => NonEmptyString(Get(body, "productColor"))
      case 4 => NullableString(Get(body, "productDescription"))
      case 5 => IntegerValue(Get(body, "productPrice"))
      case _ => NullableString(Get(body, "productImage"))
  {
    var r := EditProductRules;
    if i == 0 { AdmitsProductId(productId, validId); }
    else if i == 1 { AdmitsRequiredString(r[1].key, Get(body, r[1].key), validId); }
    else if i == 2 { AdmitsRequiredString(r[2].key, Get(body, r[2].key), validId); }
    else if i == 3 { AdmitsRequiredString(r[3].key, Get(body, r[3].key), validId); }
    else if i == 4 { AdmitsNullableString(r[4].key, Get(body, r[4].key), validId); }
    else if i == 5 { AdmitsInteger(r[5].key, Get(body, r[5].key), validId); }
    else { AdmitsNullableString(r[6].key, Get(body, r[6].key), validId); }
  }

  /** `editProduct` accepts exactly a well-formed id with a body holding a
      non-empty name, code and colour, an integer price, and a description
      and image that are absent, `null` or a non-empty string. Other body
      keys are never looked at. */
  lemma EditProductValidation(productId: JsValue, body: seq<Entry>, validId: string -> bool)
    ensures Validate(EditProductRules, EditObject(productId, body), validId) == [] <==> EditRequestOk(productId, body, validId)
  {
    var obj := EditObject(productId, body);
    EditKeysDeclared();
    EditFieldsAdmitted(productId, body, validId);
    ValidateIff(EditProductRules, obj, validId, EditRequestOk(productId, body, validId), EditKeys);
    assert OnlyKeys(obj, EditKeys);
  }

  lemma EditKeysDeclared()
    ensures Keys(EditProductRules) == EditKeys
  {
  }

  /** The seven `editProduct` keys are admitted exactly when the request is
      as `EditRequestOk` says. */
  lemma EditFieldsAdmitted(productId: JsValue, body: seq<Entry>, validId: string -> bool)
    ensures EditRequestOk(productId, body, validId) <==>
      forall i :: 0 <= i < |EditProductRules| ==> Admits(EditProductRules[i], Get(EditObject(productId, body), EditProductRules[i].key), validId)
  {
    var obj := EditObject(productId, body);
    if EditRequestOk(productId, body, validId) {
      forall i | 0 <= i < |EditProductRules|
        ensures Admits(EditProductRules[i], Get(obj, EditProductRules[i].key), validId)
      {
        EditObjectValues(productId, body, i);
        EditRuleAt(productId, body, validId, i);
      }
    }
    if forall i :: 0 <= i < |EditProductRules| ==> Admits(EditProductRules[i], Get(obj, EditProductRules[i].key), validId) {
      forall i | 0 <= i < |EditProductRules|
        ensures Admits(EditProductRules[i], if i == 0 then productId else Get(body, EditProductRules[i].key), validId)
      {
        EditObjectValues(productId, body, i);
      }
      EditRuleAt(productId, body, validId, 0);
      EditRuleAt(productId, body, validId, 1);
      EditRuleAt(productId, body, validId, 2);
      EditRuleAt(productId, body, validId, 3);
      EditRuleAt(productId, body, validId, 4);
      EditRuleAt(productId, body, validId, 5);
      EditRuleAt(productId, body, validId, 6);
    }
  }

  /** Every required field missing from an `addProduct` body is reported,
      each in its own entry reading `<field> is required`. */
  lemma AddProductMissingFields(body: seq<Entry>, validId: string -> bool, i: nat)
    requires i < |AddProductRules| && i != 3
    requires !HasKey(body, AddProductRules[i].key)
    ensures ErrorEntry(AddProductRules[i].key, AddProductRules[i].key + " is required")
            in ShapeAll(Validate(AddProductRules, body, validId))
  {
    AddKeyUnquoted(i);
    MissingKeyShaped(AddProductRules, body, validId, i);
  }

  /** A required field missing from an `addProduct` body, `productPrice`
      among them, is reported exactly once: the only detail at that field is
      its `any.required` one, whatever else the body holds. */
  lemma AddProductMissingOnce(body: seq<Entry>, validId: string -> bool, i: nat)
    requires i < |AddProductRules| && i != 3
    requires !HasKey(body, AddProductRules[i].key)
    ensures DetailsAt(Validate(AddProductRules, body, validId), AddProductRules[i].key)
            == [Violation(AddProductRules[i].key, AnyRequired)]
  {
    AddRulesDeclaredOnce();
    MissingRequiredOnce(AddProductRules, body, validId, i);
  }

  lemma AddRulesDeclaredOnce()
    ensures DeclaredOnce(AddProductRules)
  {
    AddProductKeysDeclared();
    var ks := AddProductKeys;
    forall a, b | 0 <= a < b < |ks|
      ensures ks[a] != ks[b]
    {
      assert |ks[a]| != |ks[b]| || ks[a][7] != ks[b][7];
    }
  }

  lemma AddKeyUnquoted(i: nat)
    requires i < |AddProductRules|
    ensures '"' !in AddProductRules[i].key
  {
    var r := AddProductRules;
    if i == 0 { assert r[0].key == "productName"; }
    else if i == 1 { assert r[1].key == "productCode"; }
    else if i == 2 { assert r[2].key == "productColor"; }
    else if i == 3 { assert r[3].key == "productDescription"; }
    else if i == 4 { assert r[4].key == "productPrice"; }
    else { assert r[5].key == "productImage"; }
  }

  // ---------------------------------------------------------------------
  // From the request to the record

  /** A body string field as the store receives it. */
  function TextField(v: JsValue): Option<string>
  {
    if v.Str? then Some(v.s) else None
  }

  /** `field || ""` for a string, `null` or an absent field. */
  function TextOrEmpty(v: JsValue): (r: string)
    ensures v.Undefined? || v.Null? || v.Str? ==> r == (if Truthy(v) then v.s else "")
  {
    if v.Str? then v.s else ""
  }

  /** A validated price as the store casts it. */
  function IntegerField(v: JsValue): Option<int>
  {
    match v
    case Num(n) => Some(n.Floor)
    case Str(s) => ParseInteger(s)
    case _ => None
  }

  /** The object `addProduct` passes to `create`. */
  function CreateValues(body: seq<Entry>): ProductFields
  {
    ProductFields(
      TextField(Get(body, "productName")),
      TextField(Get(body, "productCode")),
      TextField(Get(body, "productColor")),
      Some(TextOrEmpty(Get(body, "productDescription"))),
      IntegerField(Get(body, "productPrice")),
      if Get(body, "productImage").Str? then ImageText(Get(body, "productImage").s) else NoImage)
  }

  /** The image part of the `editProduct` update: left out of the update
      when undefined, cleared by `null`. */
  function ImageUpdate(v: JsValue): Option<StoredImage>
  {
    match v
    case Undefined => None
    case Str(s) => Some(ImageText(s))
    case _ => Some(NoImage)
  }

  /** The update object `editProduct` passes to `findByIdAndUpdate`. */
  function UpdateValues(body: seq<Entry>): ProductUpdate
  {
    ProductUpdate(
      TextOrEmpty(Get(body, "productName")),
      TextOrEmpty(Get(body, "productCode")),
      TextOrEmpty(Get(body, "productColor")),
      TextOrEmpty(Get(body, "productDescription")),
      if IntegerField(Get(body, "productPrice")).Some? then IntegerField(Get(body, "productPrice")).value else 0,
      ImageUpdate(Get(body, "productImage")))
  }

  /** The route id as a string. */
  function IdText(v: JsValue): string
  {
    if v.Str? then v.s else ""
  }

  /** A body that passes validation makes a record the store accepts: its
      name, code and colour are the body's, its description is
      `productDescription` when truthy and `""` otherwise, its price is the
      body's integer, both times are `now`, and its image is the plain string,
      which is not the shape the schema declares. */
  lemma AddedProduct(body: seq<Entry>, id: string, now: int)
    requires AddFieldsOk(body)
    ensures Create(id, CreateValues(body), now).Some?
    ensures var p := Create(id, CreateValues(body), now).value;
      && p.name == Get(body, "productName").s
      && p.code == Get(body, "productCode").s
      && p.color == Get(body, "productColor").s
      && p.description == Some(if Truthy(Get(body, "productDescription")) then Get(body, "productDescription").s else "")
      && p.price as real == NumberValue(Get(body, "productPrice")).value
      && p.createdAt == now && p.updatedAt == now
      && !ImageConforms(p.image)
  {
    var f := CreateValues(body);
    assert Admissible(f);
    var p := Create(id, f, now).value;
    assert FieldsOf(p) == f;
  }

  /** After a validated edit, the record holds the body's name, code, colour
      and price, the description or `""`, the image unless the body has
      none; its id and both times are unchanged. */
  lemma EditedProduct(p: Product, productId: JsValue, body: seq<Entry>, validId: string -> bool)
    requires EditRequestOk(productId, body, validId)
    ensures var q := ApplyUpdate(p, UpdateValues(body));
      && q.id == p.id && q.createdAt == p.createdAt && q.updatedAt == p.updatedAt
      && q.name == Get(body, "productName").s
      && q.code == Get(body, "productCode").s
      && q.color == Get(body, "productColor").s
      && q.description == Some(if Truthy(Get(body, "productDescription")) then Get(body, "productDescription").s else "")
      && q.price as real == NumberValue(Get(body, "productPrice")).value
      && (Get(body, "productImage").Undefined? ==> q.image == p.image)
      && WellFormed(q)
  {
    var u := UpdateValues(body);
    UpdateKeepsWellFormed(p, u);
  }

  // ---------------------------------------------------------------------
  // Listing

  /** Newest first: non-increasing `createdAt`. */
  predicate NewestFirstOrder(s: seq<Product>)
  {
    forall i, j :: 0 <= i < j < |s| ==> s[i].createdAt >= s[j].createdAt
  }

  function InsertByDate(p: Product, s: seq<Product>): seq<Product>
  {
    if s == [] || p.createdAt >= s[0].createdAt then [p] + s
    else [s[0]] + InsertByDate(p, s[1..])
  }

  lemma {:induction false} InsertByDatePermutes(p: Product, s: seq<Product>)
    ensures multiset(InsertByDate(p, s)) == multiset(s) + multiset{p}
  {
    if s == [] || p.createdAt >= s[0].createdAt {
    } else {
      InsertByDatePermutes(p, s[1..]);
      assert s == [s[0]] + s[1..];
    }
  }

  /** A product newer than or as new as every element stays newest first
      in front of a newest-first sequence. */
  lemma PrependNewest(x: Product, s: seq<Product>)
    requires NewestFirstOrder(s)
    requires forall y :: y in s ==> y.createdAt <= x.createdAt
    ensures NewestFirstOrder([x] + s)
  {
    var r := [x] + s;
    forall i, j | 0 <= i < j < |r|
      ensures r[i].createdAt >= r[j].createdAt
    {
      assert r[j] == s[j - 1];
      if i > 0 {
        assert r[i] == s[i - 1];
      }
    }
  }

  lemma {:induction false} InsertByDateSorted(p: Product, s: seq<Product>)
    requires NewestFirstOrder(s)
    ensures NewestFirstOrder(InsertByDate(p, s))
  {
    if s == [] || p.createdAt >= s[0].createdAt {
      forall y | y in s
        ensures y.createdAt <= p.createdAt
      {
        var k :| 0 <= k < |s| && s[k] == y;
        assert s[0].createdAt >= s[k].createdAt;
      }
      PrependNewest(p, s);
    } else {
      var tail := s[1..];
      assert NewestFirstOrder(tail);
      var rest := InsertByDate(p, tail);
      InsertByDateSorted(p, tail);
      InsertByDatePermutes(p, tail);
      forall y | y in rest
        ensures y.createdAt <= s[0].createdAt
      {
        assert y in multiset(rest);
        if y != p {
          assert y in multiset(tail);
          var k :| 0 <= k < |tail| && tail[k] == y;
          assert s[k + 1] == y;
        }
      }
      PrependNewest(s[0], rest);
    }
  }

  /** `.sort({createdAt: -1})`. */
  function NewestFirst(s: seq<Product>): seq<Product>
  {
    if s == [] then [] else InsertByDate(s[0], NewestFirst(s[1..]))
  }

  lemma {:induction false} NewestFirstSorted(s: seq<Product>)
    ensures NewestFirstOrder(NewestFirst(s))
    ensures multiset(NewestFirst(s)) == multiset(s)
  {
    if s != [] {
      NewestFirstSorted(s[1..]);
      InsertByDateSorted(s[0], NewestFirst(s[1..]));
      InsertByDatePermutes(s[0], NewestFirst(s[1..]));
      assert s == [s[0]] + s[1..];
    }
  }

  /** `(page - 1) * limit`, the number of products a page skips. */
  function Skip(page: int, limit: int): nat
    requires page >= 1 && limit >= 1
  {
    var p: nat, l: nat := page - 1, limit;
    p * l
  }

  /** `.skip((page - 1) * limit).limit(limit)`. */
  function Window<T>(s: seq<T>, page: int, limit: int): (w: seq<T>)
    requires page >= 1 && limit >= 1
    ensures |w| <= limit
    ensures forall i :: 0 <= i < |w| ==> Skip(page, limit) + i < |s| && w[i] == s[Skip(page, limit) + i]
    ensures Skip(page, limit) + limit <= |s| ==> |w| == limit
    ensures Skip(page, limit) < |s| < Skip(page, limit) + limit ==> |w| == |s| - Skip(page, limit)
    ensures |s| <= Skip(page, limit) ==> w == []
  {
    var start := Skip(page, limit);
    if start >= |s| then []
    else if start + limit <= |s| then s[start..start + limit]
    else s[start..]
  }

  /** The products in the collection's natural order. */
  function InOrder(products: map<string, Product>, order: seq<string>): (r: seq<Product>)
    ensures forall p :: p in r ==> p in products.Values
    ensures forall k :: k in order && k in products ==> products[k] in r
  {
    if order == [] then []
    else (if order[0] in products then [products[order[0]]] else []) + InOrder(products, order[1..])
  }

  /** When every scanned id is stored, the scan yields one record per id,
      position by position. */
  lemma {:induction false} InOrderFollowsOrder(products: map<string, Product>, order: seq<string>)
    requires forall k :: k in order ==> k in products
    ensures |InOrder(products, order)| == |order|
    ensures forall i :: 0 <= i < |order| ==> InOrder(products, order)[i] == products[order[i]]
  {
    if order != [] {
      InOrderFollowsOrder(products, order[1..]);
      var r := InOrder(products, order);
      forall i | 1 <= i < |order|
        ensures r[i] == products[order[i]]
      {
        assert r[i] == InOrder(products, order[1..])[i - 1];
        assert order[1..][i - 1] == order[i];
      }
    }
  }

  /** A sequence without repeats has as many elements as its set. */
  lemma {:induction false} DistinctCardinality(s: seq<string>)
    requires Distinct(s)
    ensures |set k | k in s| == |s|
  {
    if s != [] {
      DistinctCardinality(s[1..]);
      assert s[0] !in s[1..] by {
        forall i | 0 <= i < |s| - 1
          ensures s[1..][i] != s[0]
        {
          assert s[1..][i] == s[i + 1];
        }
      }
      assert (set k | k in s) == (set k | k in s[1..]) + {s[0]};
    }
  }

  /** An element at two positions is counted at least twice. */
  lemma TwiceCounted<T>(s: seq<T>, i: int, j: int)
    requires 0 <= i < j < |s| && s[i] == s[j]
    ensures multiset(s)[s[i]] >= 2
  {
    assert s == s[..j] + [s[j]] + s[j + 1..];
    assert s[..j][i] == s[i];
  }

  /** In a sequence without repeats every value is counted at most once. */
  lemma {:induction false} CountedOnce<T>(s: seq<T>, x: T)
    requires forall i, j :: 0 <= i < j < |s| ==> s[i] != s[j]
    ensures multiset(s)[x] <= 1
  {
    if s != [] {
      var rest := s[1..];
      forall i, j | 0 <= i < j < |rest|
        ensures rest[i] != rest[j]
      {
        assert rest[i] == s[i + 1] && rest[j] == s[j + 1];
      }
      CountedOnce(rest, x);
      assert s == [s[0]] + rest;
      if x == s[0] {
        assert x !in rest by {
          forall i | 0 <= i < |rest|
            ensures rest[i] != x
          {
            assert rest[i] == s[i + 1];
          }
        }
      }
    }
  }

  /** Under the index, the scan counts each record at most once. */
  lemma NoRepeatCounted(products: map<string, Product>, order: seq<string>, p: Product)
    requires Indexed(products, order)
    ensures multiset(InOrder(products, order))[p] <= 1
  {
    InOrderFollowsOrder(products, order);
    var scanned := InOrder(products, order);
    forall i, j | 0 <= i < j < |scanned|
      ensures scanned[i] != scanned[j]
    {
      assert scanned[i].id == order[i] && scanned[j].id == order[j];
    }
    CountedOnce(scanned, p);
  }

  /** Under the index, the scan has one record per stored id. */
  lemma ScanLength(products: map<string, Product>, order: seq<string>)
    requires Indexed(products, order)
    ensures |InOrder(products, order)| == |products|
  {
    InOrderFollowsOrder(products, order);
    DistinctCardinality(order);
    assert products.Keys == set k | k in order;
  }

  /** A listing that permutes the scan repeats no id. */
  lemma PermutedNoRepeat(products: map<string, Product>, order: seq<string>, all: seq<Product>, i: int, j: int)
    requires Indexed(products, order) && multiset(all) == multiset(InOrder(products, order))
    requires 0 <= i < j < |all|
    ensures all[i].id != all[j].id
  {
    var scanned := InOrder(products, order);
    InOrderFollowsOrder(products, order);
    if all[i] == all[j] {
      TwiceCounted(all, i, j);
      NoRepeatCounted(products, order, all[i]);
    }
    assert all[i] in multiset(scanned) && all[j] in multiset(scanned);
    var a :| 0 <= a < |scanned| && scanned[a] == all[i];
    var b :| 0 <= b < |scanned| && scanned[b] == all[j];
    assert all[i].id == order[a] && all[j].id == order[b];
  }

  /** The full listing holds every stored product exactly once, so its
      length is the count the handler reports. */
  lemma ListingCoversTable(products: map<string, Product>, order: seq<string>)
    requires Indexed(products, order)
    ensures var all := NewestFirst(InOrder(products, order));
      && |all| == |products|
      && (forall i, j :: 0 <= i < j < |all| ==> all[i].id != all[j].id)
      && (forall k :: k in products ==> products[k] in all)
  {
    var scanned := InOrder(products, order);
    var all := NewestFirst(scanned);
    NewestFirstSorted(scanned);
    ScanLength(products, order);
    assert |all| == |multiset(all)| == |multiset(scanned)| == |scanned|;
    forall i, j | 0 <= i < j < |all|
      ensures all[i].id != all[j].id
    {
      PermutedNoRepeat(products, order, all, i, j);
    }
    forall k | k in products
      ensures products[k] in all
    {
      assert products[k] in multiset(scanned);
    }
  }

  lemma WindowKeepsOrder(all: seq<Product>, page: int, limit: int)
    requires page >= 1 && limit >= 1 && NewestFirstOrder(all)
    ensures NewestFirstOrder(Window(all, page, limit))
  {
    var w := Window(all, page, limit);
    var start := Skip(page, limit);
    forall i, j | 0 <= i < j < |w|
      ensures w[i].createdAt >= w[j].createdAt
    {
      var a, b := start + i, start + j;
      assert w[i] == all[a] && w[j] == all[b];
      assert 0 <= a < b < |all|;
    }
  }

  lemma WindowMembers<T>(all: seq<T>, page: int, limit: int)
    requires page >= 1 && limit >= 1
    ensures forall x :: x in Window(all, page, limit) ==> x in all
  {
    var w := Window(all, page, limit);
    forall x | x in w
      ensures x in all
    {
      var i :| 0 <= i < |w| && w[i] == x;
      assert all[Skip(page, limit) + i] == x;
    }
  }

  /** A listed page holds at most `limit` products of the collection, newest
      first, and is the contiguous run of the newest-first listing that
      starts at `(page - 1) * limit`. */
  lemma ListedPage(products: map<string, Product>, order: seq<string>, page: int, limit: int)
    requires page >= 1 && limit >= 1
    ensures var all := NewestFirst(InOrder(products, order));
      var items := Window(all, page, limit);
      && |items| <= limit
      && NewestFirstOrder(items)
      && (forall p :: p in items ==> p in products.Values)
      && (forall i :: 0 <= i < |items| ==> items[i] == all[Skip(page, limit) + i])
  {
    var scanned := InOrder(products, order);
    var all := NewestFirst(scanned);
    NewestFirstSorted(scanned);
    WindowKeepsOrder(all, page, limit);
    WindowMembers(all, page, limit);
    forall p | p in Window(all, page, limit)
      ensures p in products.Values
    {
      assert p in multiset(all);
      assert p in scanned;
    }
  }

  /** The element at index `k` is on page `k / limit + 1`. */
  lemma WindowCovers<T>(all: seq<T>, k: nat, limit: int)
    requires k < |all| && limit >= 1
    ensures k / limit >= 0 && all[k] in Window(all, k / limit + 1, limit)
  {
    var page := k / limit + 1;
    var start := Skip(page, limit);
    assert start == (k / limit) * limit;
    assert start <= k < start + limit;
    var w := Window(all, page, limit);
    assert k - start < |w|;
    assert w[k - start] == all[k];
  }

  /** Every element of a listing is on some page. */
  lemma OnSomePage<T>(all: seq<T>, x: T, limit: int)
    requires x in all && limit >= 1
    ensures exists page :: page >= 1 && x in Window(all, page, limit)
  {
    var k :| 0 <= k < |all| && all[k] == x;
    WindowCovers(all, k, limit);
    var page := k / limit + 1;
    assert page >= 1 && x in Window(all, page, limit);
  }

  /** Every product of the collection is on some page. */
  lemma EveryProductListed(products: map<string, Product>, order: seq<string>, id: string, limit: int)
    requires id in products && id in order && limit >= 1
    ensures exists page :: page >= 1 && products[id] in Window(NewestFirst(InOrder(products, order)), page, limit)
  {
    var scanned := InOrder(products, order);
    NewestFirstSorted(scanned);
    assert products[id] in multiset(NewestFirst(scanned));
    OnSomePage(NewestFirst(scanned), products[id], limit);
  }

  // ---------------------------------------------------------------------
  // The handlers

  /** The `data` of a successful list or view. */
  datatype ProductData =
    | Listing(items: seq<Product>, totalCount: nat, page: int, limit: int)
    | Single(product: Product)

  const ProductAddedText: string := "Product successfully added"
  const ProductsFoundText: string := "Products found"
  const ProductFoundText: string := "Product found"
  const ProductUpdatedText: string := "Product updated successfully"
  const ProductDeletedText: string := "Product deleted successfully"

  /** The validation failure envelope. Its message is `VALIDATION_FAILED` of
      utils/error.messages.js, which is undefined. */
  function ValidationFailure(status: int, key: ListKey, ds: seq<Detail>): Response<ProductData>
  {
    Response(status, false, LegacyErrorText(ValidationFailed), Errors(key, ShapeAll(ds)))
  }

  /** The not-found envelope; `PRODUCT_NOT_FOUND` is undefined too. */
  function NotFound(): Response<ProductData>
  {
    Failure(400, LegacyErrorText(ProductNotFound))
  }

  function ServerError(): Response<ProductData>
  {
    Failure(500, LegacyErrorText(InternalServerError))
  }

  function Done(text: string, payload: Payload<ProductData>): Response<ProductData>
  {
    Response(200, true, Some(text), payload)
  }

  /** A validated positive integer query value. */
  function QueryInteger(v: JsValue): int
  {
    if NumberValue(v).Some? then NumberValue(v).value.Floor else 0
  }

  /** Keys and order stay in step, every key once, and each record is filed
      under its own id. */
  ghost predicate Indexed(products: map<string, Product>, order: seq<string>)
  {
    (forall k :: k in products <==> k in order)
    && Distinct(order)
    && (forall k :: k in products ==> products[k].id == k)
  }

  predicate Distinct(s: seq<string>)
  {
    forall i, j :: 0 <= i < j < |s| ==> s[i] != s[j]
  }

  /** `order` without `id`. */
  function Without(order: seq<string>, id: string): (r: seq<string>)
    ensures forall k :: k in r <==> k in order && k != id
  {
    if order == [] then []
    else (if order[0] == id then [] else [order[0]]) + Without(order[1..], id)
  }

  lemma {:induction false} WithoutDistinct(order: seq<string>, id: string)
    requires Distinct(order)
    ensures Distinct(Without(order, id))
  {
    if order != [] {
      WithoutDistinct(order[1..], id);
      var rest := Without(order[1..], id);
      assert order[0] !in order[1..] by {
        forall k | 0 <= k < |order| - 1
          ensures order[1..][k] != order[0]
        {
          assert order[1..][k] == order[k + 1];
        }
      }
      if order[0] != id {
        var r := [order[0]] + rest;
        forall i, j | 0 <= i < j < |r|
          ensures r[i] != r[j]
        {
          assert r[j] == rest[j - 1];
          if i > 0 {
            assert r[i] == rest[i - 1];
          }
        }
      }
    }
  }

  /** Inserting a record under a fresh id, replacing the record under a
      present id and removing an id all keep the index in step. */
  lemma IndexedInsert(products: map<string, Product>, order: seq<string>, p: Product)
    requires Indexed(products, order) && p.id !in products
    ensures Indexed(products[p.id := p], order + [p.id])
  {
  }

  lemma IndexedUpdate(products: map<string, Product>, order: seq<string>, id: string, q: Product)
    requires Indexed(products, order) && id in products && q.id == id
    ensures Indexed(products[id := q], order)
  {
  }

  lemma IndexedRemove(products: map<string, Product>, order: seq<string>, id: string)
    requires Indexed(products, order)
    ensures Indexed(products - {id}, Without(order, id))
  {
    WithoutDistinct(order, id);
  }

  /** The product collection. `order` is the natural order in which the
      store returns records: insertion order. */
  class ProductStore {
    var products: map<string, Product>
    var order: seq<string>

    ghost predicate Valid()
      reads this
    {
      Indexed(products, order)
    }

    constructor ()
      ensures Valid() && products == map[] && order == []
    {
      products := map[];
      order := [];
    }

    /** `addProduct(req, res)`; `newId` and `now` are the id and the time the
        store assigns, `storeFails` whether `create` rejects for a reason of
        its own. */
    method AddProduct(body: JsObject, validId: string -> bool, newId: string, now: int, storeFails: bool, res: Res<ProductData>)
      requires Valid() && res.attempts == [] && newId !in products
      modifies this, res
      ensures Valid()
      ensures Validate(AddProductRules, body, validId) != [] ==>
        products == old(products) && order == old(order)
        && res.attempts == [ValidationFailure(200, ErrorField, Validate(AddProductRules, body, validId))]
      ensures Validate(AddProductRules, body, validId) == [] && (storeFails || Create(newId, CreateValues(body), now).None?) ==>
        products == old(products) && order == old(order) && res.attempts == [ServerError()]
      ensures Validate(AddProductRules, body, validId) == [] && !storeFails && Create(newId, CreateValues(body), now).Some? ==>
        products == old(products)[newId := Create(newId, CreateValues(body), now).value]
        && order == old(order) + [newId]
        && res.attempts == [Done(ProductAddedText, Bare)]
    {
      var errors := Validate(AddProductRules, body, validId);
      if errors != [] {
        var _ := res.Json(ValidationFailure(200, ErrorField, errors));
        return;
      }
      var created := Create(newId, CreateValues(body), now);
      if storeFails || created.None? {
        var _ := res.Json(ServerError());
        return;
      }
      Insert(created.value);
      var _ := res.Json(Done(ProductAddedText, Bare));
    }

    /** The insert of `create`: a record under a fresh id goes last in
        natural order. */
    method Insert(p: Product)
      requires Valid() && p.id !in products
      modifies this
      ensures Valid()
      ensures products == old(products)[p.id := p] && order == old(order) + [p.id]
    {
      IndexedInsert(products, order, p);
      products := products[p.id := p];
      order := order + [p.id];
    }

    /** `listProduct(req, res)`; the page and the count are two reads of the
        same collection, `storeFails` whether the reads reject. */
    method ListProduct(query: JsObject, validId: string -> bool, storeFails: bool, res: Res<ProductData>)
      requires Valid() && res.attempts == []
      modifies res
      ensures Validate(ListProductRules, query, validId) != [] ==>
        res.attempts == [ValidationFailure(400, ErrorsField, Validate(ListProductRules, query, validId))]
      ensures Validate(ListProductRules, query, validId) == [] && storeFails ==> res.attempts == [ServerError()]
      ensures Validate(ListProductRules, query, validId) == [] && !storeFails ==>
        var page, limit := QueryInteger(Get(query, "page")), QueryInteger(Get(query, "limit"));
        page >= 1 && limit >= 1
        && res.attempts == [Done(ProductsFoundText, Data(Listing(Window(NewestFirst(InOrder(products, order)), page, limit), |products|, page, limit)))]
    {
      var errors := Validate(ListProductRules, query, validId);
      if errors != [] {
        var _ := res.Json(ValidationFailure(400, ErrorsField, errors));
        return;
      }
      ListProductValidation(query, validId);
      var page, limit := QueryInteger(Get(query, "page")), QueryInteger(Get(query, "limit"));
      if storeFails {
        var _ := res.Json(ServerError());
        return;
      }
      var items := Window(NewestFirst(InOrder(products, order)), page, limit);
      var productsCount := |products|;
      var _ := res.Json(Done(ProductsFoundText, Data(Listing(items, productsCount, page, limit))));
    }

    /** `viewProduct(req, res)` for the route parameter `productId`. */
    method ViewProduct(productId: JsValue, validId: string -> bool, storeFails: bool, res: Res<ProductData>)
      requires Valid() && res.attempts == []
      modifies res
      ensures Validate([ProductIdRule], IdObject(productId), validId) != [] ==>
        res.attempts == [ValidationFailure(400, ErrorsField, Validate([ProductIdRule], IdObject(productId), validId))]
      ensures Validate([ProductIdRule], IdObject(productId), validId) == [] && storeFails ==> res.attempts == [ServerError()]
      ensures Validate([ProductIdRule], IdObject(productId), validId) == [] && !storeFails && IdText(productId) !in products ==>
        res.attempts == [NotFound()]
      ensures Validate([ProductIdRule], IdObject(productId), validId) == [] && !storeFails && IdText(productId) in products ==>
        res.attempts == [Done(ProductFoundText, Data(Single(products[IdText(productId)])))]
    {
      var errors := Validate([ProductIdRule], IdObject(productId), validId);
      if errors != [] {
        var _ := res.Json(ValidationFailure(400, ErrorsField, errors));
        return;
      }
      if storeFails {
        var _ := res.Json(ServerError());
        return;
      }
      var id := IdText(productId);
      if id !in products {
        var _ := res.Json(NotFound());
        return;
      }
      var _ := res.Json(Done(ProductFoundText, Data(Single(products[id]))));
    }

    /** `editProduct(req, res)`. */
    method EditProduct(productId: JsValue, body: JsObject, validId: string -> bool, storeFails: bool, res: Res<ProductData>)
      requires Valid() && res.attempts == []
      modifies this, res
      ensures Valid() && order == old(order)
      ensures Validate(EditProductRules, EditObject(productId, body), validId) != [] ==>
        products == old(products)
        && res.attempts == [ValidationFailure(400, ErrorsField, Validate(EditProductRules, EditObject(productId, body), validId))]
      ensures Validate(EditProductRules, EditObject(productId, body), validId) == [] && storeFails ==>
        products == old(products) && res.attempts == [ServerError()]
      ensures Validate(EditProductRules, EditObject(productId, body), validId) == [] && !storeFails && IdText(productId) !in old(products) ==>
        products == old(products) && res.attempts == [NotFound()]
      ensures Validate(EditProductRules, EditObject(productId, body), validId) == [] && !storeFails && IdText(productId) in old(products) ==>
        products == old(products)[IdText(productId) := ApplyUpdate(old(products)[IdText(productId)], UpdateValues(body))]
        && res.attempts == [Done(ProductUpdatedText, Bare)]
    {
      var errors := Validate(EditProductRules, EditObject(productId, body), validId);
      if errors != [] {
        var _ := res.Json(ValidationFailure(400, ErrorsField, errors));
        return;
      }
      if storeFails {
        var _ := res.Json(ServerError());
        return;
      }
      var id := IdText(productId);
      if id !in products {
        var _ := res.Json(NotFound());
        return;
      }
      Update(id, UpdateValues(body));
      var _ := res.Json(Done(ProductUpdatedText, Bare));
    }

    /** `findByIdAndUpdate(id, update)` on a present id. */
    method Update(id: string, u: ProductUpdate)
      requires Valid() && id in products
      modifies this
      ensures Valid() && order == old(order)
      ensures products == old(products)[id := ApplyUpdate(old(products)[id], u)]
    {
      IndexedUpdate(products, order, id, ApplyUpdate(products[id], u));
      products := products[id := ApplyUpdate(products[id], u)];
    }

    /** `deleteProduct(req, res)`. */
    method DeleteProduct(productId: JsValue, validId: string -> bool, storeFails: bool, res: Res<ProductData>)
      requires Valid() && res.attempts == []
      modifies this, res
      ensures Valid()
      ensures Validate([ProductIdRule], IdObject(productId), validId) != [] ==>
        products == old(products) && order == old(order)
        && res.attempts == [ValidationFailure(400, ErrorsField, Validate([ProductIdRule], IdObject(productId), validId))]
      ensures Validate([ProductIdRule], IdObject(productId), validId) == [] && storeFails ==>
        products == old(products) && order == old(order) && res.attempts == [ServerError()]
      ensures Validate([ProductIdRule], IdObject(productId), validId) == [] && !storeFails && IdText(productId) !in old(products) ==>
        products == old(products) && order == old(order) && res.attempts == [NotFound()]
      ensures Validate([ProductIdRule], IdObject(productId), validId) == [] && !storeFails && IdText(productId) in old(products) ==>
        products == old(products) - {IdText(productId)} && order == Without(old(order), IdText(productId))
        && res.attempts == [Done(ProductDeletedText, Bare)]
    {
      var errors := Validate([ProductIdRule], IdObject(productId), validId);
      if errors != [] {
        var _ := res.Json(ValidationFailure(400, ErrorsField, errors));
        return;
      }
      if storeFails {
        var _ := res.Json(ServerError());
        return;
      }
      var id := IdText(productId);
      if id !in products {
        var _ := res.Json(NotFound());
        return;
      }
      Remove(id);
      var _ := res.Json(Done(ProductDeletedText, Bare));
    }

    /** `findByIdAndDelete(id)` on a present id. */
    method Remove(id: string)
      requires Valid()
      modifies this
      ensures Valid()
      ensures products == old(products) - {id} && order == Without(old(order), id)
    {
      IndexedRemove(products, order, id);
      products := products - {id};
      order := Without(order, id);
    }
  }

  /** After a delete the id is gone and every other record is as it was;
      after an edit only the edited record differs. */
  lemma DeleteLeavesOthers(products: map<string, Product>, id: string)
    ensures id !in products - {id}
    ensures forall k :: k in products && k != id ==> k in products - {id} && (products - {id})[k] == products[k]
  {
  }

  lemma EditLeavesOthers(products: map<string, Product>, id: string, q: Product)
    requires id in products
    ensures (products[id := q]).Keys == products.Keys
    ensures forall k :: k in products && k != id ==> (products[id := q])[k] == products[k]
  {
  }
}
