/** The category handlers (controllers/CategoryController.js): the
    `addCategory` rule set and record mapping, and `listCategory`. */
module CategoryController {
  import opened Wrappers
  import opened Json
  import opened Messages
  import opened Http
  import opened Validation
  import opened CategoryModel

  // ---------------------------------------------------------------------
  // Validation

  const AddCategoryRules: seq<KeyRule> := [
    KeyRule("categoryName", StringType, true, [], []),
    KeyRule("categoryParentId", StringType, false, [Null, Str("")], []),
    KeyRule("categoryUrl", StringType, true, [], []),
    KeyRule("categoryDescription", StringType, false, [Null, Str("")], []),
    KeyRule("categoryStatus", NumberType, true, [Num(0.0), Num(1.0)], [])
  ]

  const CategoryKeys: seq<string> := ["categoryName", "categoryParentId", "categoryUrl", "categoryDescription", "categoryStatus"]

  /** Absent, `null` or any string, the empty one included. */
  predicate OptionalString(v: JsValue)
  {
    v.Undefined? || v.Null? || v.Str?
  }

  /** A number or a numeric string, whatever its value. */
  predicate AnyNumber(v: JsValue)
  {
    NumberValue(v).Some?
  }

  predicate CategoryFieldsOk(body: seq<Entry>)
  {
    NonEmptyString(Get(body, "categoryName"))
    && OptionalString(Get(body, "categoryParentId"))
    && NonEmptyString(Get(body, "categoryUrl"))
    && OptionalString(Get(body, "categoryDescription"))
    && AnyNumber(Get(body, "categoryStatus"))
  }

  predicate CategoryBodyOk(body: seq<Entry>)
  {
    CategoryFieldsOk(body) && OnlyKeys(body, CategoryKeys)
  }

  lemma AdmitsOptionalString(key: string, v: JsValue, validId: string -> bool)
    ensures Admits(KeyRule(key, StringType, false, [Null, Str("")], []), v, validId) <==> OptionalString(v)
  {
  }

  /** `.allow(0, 1)` adds two values to the numbers already admitted: every
      number passes, not only 0 and 1. */
  lemma AdmitsAnyNumber(key: string, v: JsValue, validId: string -> bool)
    ensures Admits(KeyRule(key, NumberType, true, [Num(0.0), Num(1.0)], []), v, validId) <==> AnyNumber(v)
  {
    if Coerce(NumberType, v) in [Num(0.0), Num(1.0)] {
      assert Coerce(NumberType, v).Num?;
    }
  }

  /** What the `i`-th key of the `addCategory` rule set asks of the body. */
  lemma CategoryRuleAt(body: seq<Entry>, validId: string -> bool, i: nat)
    requires i < |AddCategoryRules|
    ensures Admits(AddCategoryRules[i], Get(body, AddCategoryRules[i].key), validId) <==>
      match i
      case 0 => NonEmptyString(Get(body, "categoryName"))
      case 1 => OptionalString(Get(body, "categoryParentId"))
      case 2 => NonEmptyString(Get(body, "categoryUrl"))
      case 3 => OptionalString(Get(body, "categoryDescription"))
      case _ => AnyNumber(Get(body, "categoryStatus"))
  {
    var r := AddCategoryRules;
    if i == 0 { AdmitsRequiredString(r[0].key, Get(body, r[0].key), validId); }
    else if i == 1 { AdmitsOptionalString(r[1].key, Get(body, r[1].key), validId); }
    else if i == 2 { AdmitsRequiredString(r[2].key, Get(body, r[2].key), validId); }
    else if i == 3 { AdmitsOptionalString(r[3].key, Get(body, r[3].key), validId); }
    else { AdmitsAnyNumber(r[4].key, Get(body, r[4].key), validId); }
  }

  /** `addCategory` accepts exactly the bodies with a non-empty name and url,
      a parent id and a description that are absent, `null` or any string, a
      status that is any number or numeric string, and no other key. */
  lemma AddCategoryValidation(body: seq<Entry>, validId: string -> bool)
    ensures Validate(AddCategoryRules, body, validId) == [] <==> CategoryBodyOk(body)
  {
    CategoryKeysDeclared();
    CategoryFieldsAdmitted(body, validId);
    ValidateIff(AddCategoryRules, body, validId, CategoryFieldsOk(body), CategoryKeys);
  }

  lemma CategoryKeysDeclared()
    ensures Keys(AddCategoryRules) == CategoryKeys
  {
  }

  /** The five `addCategory` keys are admitted exactly when the body's
      fields are as `CategoryFieldsOk` says. */
  lemma CategoryFieldsAdmitted(body: seq<Entry>, validId: string -> bool)
    ensures CategoryFieldsOk(body) <==> forall i :: 0 <= i < |AddCategoryRules| ==> Admits(AddCategoryRules[i], Get(body, AddCategoryRules[i].key), validId)
  {
    if CategoryFieldsOk(body) {
      forall i | 0 <= i < |AddCategoryRules|
        ensures Admits(AddCategoryRules[i], Get(body, AddCategoryRules[i].key), validId)
      {
        CategoryRuleAt(body, validId, i);
      }
    }
    if forall i :: 0 <= i < |AddCategoryRules| ==> Admits(AddCategoryRules[i], Get(body, AddCategoryRules[i].key), validId) {
      CategoryRuleAt(body, validId, 0);
      CategoryRuleAt(body, validId, 1);
      CategoryRuleAt(body, validId, 2);
      CategoryRuleAt(body, validId, 3);
      CategoryRuleAt(body, validId, 4);
    }
  }

  /** A body that passes validation has no `status` key: the key the record's
      status is read from is always undefined. */
  lemma ValidatedBodyHasNoStatus(body: seq<Entry>, validId: string -> bool)
    requires Validate(AddCategoryRules, body, validId) == []
    ensures !HasKey(body, "status") && Get(body, "status") == Undefined
  {
    if HasKey(body, "status") {
      var j :| 0 <= j < |body| && body[j].key == "status";
      CategoryKeysDeclared();
      StatusUndeclared();
      UnknownKeyReported(AddCategoryRules, body, validId, j);
      assert false;
    }
  }

  lemma StatusUndeclared()
    ensures "status" !in CategoryKeys
  {
    var ks := CategoryKeys;
    assert ks[0][0] != 's' && ks[1][0] != 's' && ks[2][0] != 's' && ks[3][0] != 's' && ks[4][0] != 's';
  }

  // ---------------------------------------------------------------------
  // From the request to the record

  /** How the store casts one request value: left out (undefined), a value,
      or a cast error that rejects the insert. */
  datatype Cast<T> = Absent | Value(v: T) | CastError

  /** `categoryParentId` cast to an ObjectId. `null` is kept as the default
      `null`; a string is accepted only in ObjectId form, so `""` fails. */
  function CastParentId(v: JsValue, validId: string -> bool): (c: Cast<Option<string>>)
    ensures v.Undefined? ==> c == Absent
    ensures v.Null? ==> c == Value(None)
    ensures v.Str? ==> (c == Value(Some(v.s)) <==> validId(v.s)) && (c == CastError <==> !validId(v.s))
  {
    match v
    case Undefined => Absent
    case Null => Value(None)
    case Str(s) => if validId(s) then Value(Some(s)) else CastError
    case _ => CastError
  }

  /** A string path: a string is kept, `null` and undefined leave it unset. */
  function CastText(v: JsValue): Cast<string>
  {
    match v
    case Str(s) => Value(s)
    case Undefined => Absent
    case Null => Absent
    case _ => CastError
  }

  /** The `status` path of type Number: an absent value takes the default,
      and an integral number or numeric string is kept. A non-integral
      number is treated as a cast error here, although Mongoose's cast keeps
      it; no validated body carries a `status`, so no handler reaches it. */
  function CastStatus(v: JsValue): Cast<int>
  {
    if v.Undefined? then Absent
    else if NumberValue(v).Some? && IsIntegral(NumberValue(v).value) then Value(NumberValue(v).value.Floor)
    else CastError
  }

  /** A cast value as `create` receives it: `None` when left out. */
  function Given<T>(c: Cast<T>): Option<T>
  {
    if c.Value? then Some(c.v) else None
  }

  /** The values `addCategory` passes to `create`, after casting: `name`,
      `parentId`, `url` and `description` from the `category*` keys and
      `status` from the `status` key. `None` when a cast fails. */
  function CategoryValues(body: seq<Entry>, validId: string -> bool): Option<CategoryFields>
  {
    CastAll(Get(body, "categoryParentId"), Get(body, "categoryName"), Get(body, "categoryUrl"),
            Get(body, "categoryDescription"), Get(body, "status"), validId)
  }

  /** The five values cast one by one; `None` when any cast fails. */
  function CastAll(parentId: JsValue, name: JsValue, url: JsValue, description: JsValue, status: JsValue,
                   validId: string -> bool): Option<CategoryFields>
  {
    var parent := CastParentId(parentId, validId);
    var name := CastText(name);
    var url := CastText(url);
    var description := CastText(description);
    var status := CastStatus(status);
    if parent.CastError? || name.CastError? || url.CastError? || description.CastError? || status.CastError? then None
    else
      var parentId := if parent.Value? then parent.v else None;
      Some(CategoryFields(parentId, Given(name), Given(url), Given(description), Given(status)))
  }

  /** The record the store inserts, or `None` when a cast or the schema
      rejects it. */
  function NewCategory(body: seq<Entry>, validId: string -> bool, id: string, now: int): (r: Option<Category>)
    ensures r.Some? ==> WellFormed(r.value) && r.value.id == id && r.value.createdAt == now
  {
    match CategoryValues(body, validId)
    case None => None
    case Some(f) => Create(id, f, now)
  }

  /** A validated body (see `ValidatedBodyHasNoStatus`) is inserted unless
      its parent id is not in ObjectId form. The record has the body's name,
      url, description and parent, and the default status 1 whatever
      `categoryStatus` says. */
  lemma AddedCategory(body: seq<Entry>, validId: string -> bool, id: string, now: int)
    requires CategoryFieldsOk(body) && Get(body, "status") == Undefined
    ensures NewCategory(body, validId, id, now).Some?
        <==> !(Get(body, "categoryParentId").Str? && !validId(Get(body, "categoryParentId").s))
    ensures NewCategory(body, validId, id, now).Some? ==>
      var c := NewCategory(body, validId, id, now).value;
      && c.id == id && c.createdAt == now && c.updatedAt == now
      && c.name == Get(body, "categoryName").s
      && c.url == Get(body, "categoryUrl").s
      && c.description == (if Get(body, "categoryDescription").Str? then Some(Get(body, "categoryDescription").s) else None)
      && c.parentId == (if Get(body, "categoryParentId").Str? then Some(Get(body, "categoryParentId").s) else None)
      && c.status == DefaultStatus
      && WellFormed(c)
  {
    var p := Get(body, "categoryParentId");
    var d := Get(body, "categoryDescription");
    var f := CategoryFields(
      if p.Str? then Some(p.s) else None,
      Some(Get(body, "categoryName").s),
      Some(Get(body, "categoryUrl").s),
      if d.Str? then Some(d.s) else None,
      None);
    ValidatedValues(body, validId, f);
    if CategoryValues(body, validId).Some? {
      assert Create(id, f, now).Some?;
    }
  }

  /** The cast values of a validated body, when its parent id casts. */
  lemma ValidatedValues(body: seq<Entry>, validId: string -> bool, f: CategoryFields)
    requires Get(body, "categoryName").Str? && Get(body, "categoryUrl").Str? && Get(body, "status") == Undefined
    requires OptionalString(Get(body, "categoryParentId")) && OptionalString(Get(body, "categoryDescription"))
    requires f.name == Some(Get(body, "categoryName").s) && f.url == Some(Get(body, "categoryUrl").s)
    requires f.parentId == (if Get(body, "categoryParentId").Str? then Some(Get(body, "categoryParentId").s) else None)
    requires f.description == (if Get(body, "categoryDescription").Str? then Some(Get(body, "categoryDescription").s) else None)
    requires f.status == None
    ensures CategoryValues(body, validId) ==
      if Get(body, "categoryParentId").Str? && !validId(Get(body, "categoryParentId").s) then None else Some(f)
  {
    CastOptional(Get(body, "categoryParentId"), Get(body, "categoryName").s, Get(body, "categoryUrl").s,
                 Get(body, "categoryDescription"), validId, f);
  }

  lemma CastOptional(parentId: JsValue, name: string, url: string, description: JsValue,
                     validId: string -> bool, f: CategoryFields)
    requires OptionalString(parentId) && OptionalString(description)
    requires f == CategoryFields(if parentId.Str? then Some(parentId.s) else None, Some(name), Some(url),
                                 if description.Str? then Some(description.s) else None, None)
    ensures CastAll(parentId, Str(name), Str(url), description, Undefined, validId) ==
      if parentId.Str? && !validId(parentId.s) then None else Some(f)
  {
  }

  /** An insert whose parent id is given as a string the ObjectId cast
      rejects is rejected by the store. */
  lemma UncastableParentRejected(body: seq<Entry>, validId: string -> bool, id: string, now: int)
    requires Get(body, "categoryParentId").Str? && !validId(Get(body, "categoryParentId").s)
    ensures NewCategory(body, validId, id, now).None?
  {
  }

  // ---------------------------------------------------------------------
  // The handlers

  /** The `data` of `listCategory`. */
  datatype CategoryData = Categories(views: seq<CategoryView>)

  function CategoryValidationFailure(ds: seq<Detail>): Response<CategoryData>
  {
    Response(400, false, Some(ErrorText(ValidationFailed)), Errors(ErrorField, ShapeAll(ds)))
  }

  function CategoryServerError(): Response<CategoryData>
  {
    Failure(500, Some(ErrorText(InternalServerError)))
  }

  predicate DistinctIds(cats: seq<Category>)
  {
    forall i, j :: 0 <= i < j < |cats| ==> cats[i].id != cats[j].id
  }

  function Ids(cats: seq<Category>): (r: set<string>)
    ensures forall id :: id in r <==> exists c :: c in cats && c.id == id
  {
    set c | c in cats :: c.id
  }

  /** Appending a category under a fresh id keeps ids distinct. */
  lemma AppendKeepsIdsDistinct(cats: seq<Category>, c: Category)
    requires DistinctIds(cats) && c.id !in Ids(cats)
    ensures DistinctIds(cats + [c])
  {
    var r := cats + [c];
    forall i, j | 0 <= i < j < |r|
      ensures r[i].id != r[j].id
    {
      assert r[i] == cats[i];
      if j < |cats| {
        assert r[j] == cats[j];
      } else {
        assert cats[i] in cats;
      }
    }
  }

  /** A store of well-formed categories with distinct ids stays so when a
      well-formed category with a fresh id is appended. */
  lemma AppendKeepsStoreValid(cats: seq<Category>, c: Category)
    requires DistinctIds(cats) && (forall x :: x in cats ==> WellFormed(x))
    requires c.id !in Ids(cats) && WellFormed(c)
    ensures DistinctIds(cats + [c]) && forall x :: x in cats + [c] ==> WellFormed(x)
  {
    AppendKeepsIdsDistinct(cats, c);
  }

  /** The category collection in its natural (insertion) order. */
  class CategoryStore {
    var categories: seq<Category>

    ghost predicate Valid()
      reads this
    {
      DistinctIds(categories) && forall c :: c in categories ==> WellFormed(c)
    }

    constructor ()
      ensures Valid() && categories == []
    {
      categories := [];
    }

    /** `addCategory(req, res)`; `newId` and `now` are the id and the time the
        store assigns, `storeFails` whether `create` rejects for a reason of
        its own. */
    method AddCategory(body: JsObject, validId: string -> bool, newId: string, now: int, storeFails: bool, res: Res<CategoryData>)
      requires Valid() && res.attempts == [] && newId !in Ids(categories)
      modifies this, res
      ensures Valid()
      ensures Validate(AddCategoryRules, body, validId) != [] ==>
        categories == old(categories)
        && res.attempts == [CategoryValidationFailure(Validate(AddCategoryRules, body, validId))]
      ensures Validate(AddCategoryRules, body, validId) == [] && (storeFails || NewCategory(body, validId, newId, now).None?) ==>
        categories == old(categories) && res.attempts == [CategoryServerError()]
      ensures Validate(AddCategoryRules, body, validId) == [] && !storeFails && NewCategory(body, validId, newId, now).Some? ==>
        categories == old(categories) + [NewCategory(body, validId, newId, now).value]
        && res.attempts == [Response(200, true, Some(SuccessText(CategoryAdded)), Bare)]
    {
      var errors := Validate(AddCategoryRules, body, validId);
      if errors != [] {
        var _ := res.Json(CategoryValidationFailure(errors));
        return;
      }
      var created := NewCategory(body, validId, newId, now);
      if storeFails || created.None? {
        var _ := res.Json(CategoryServerError());
        return;
      }
      Insert(created.value);
      var _ := res.Json(Response(200, true, Some(SuccessText(CategoryAdded)), Bare));
    }

    /** The insert of `create`: a well-formed record under a fresh id goes
        last in natural order. */
    method Insert(c: Category)
      requires Valid() && c.id !in Ids(categories) && WellFormed(c)
      modifies this
      ensures Valid() && categories == old(categories) + [c]
    {
      AppendKeepsStoreValid(categories, c);
      categories := categories + [c];
    }

    /** `listCategory(req, res)`; `storeFails` whether the query rejects. The
        message is `PRODUCT_FOUND`, "Products found". */
    method ListCategory(storeFails: bool, res: Res<CategoryData>)
      requires res.attempts == []
      modifies res
      ensures storeFails ==> res.attempts == [CategoryServerError()]
      ensures !storeFails ==>
        res.attempts == [Response(200, true, Some(SuccessText(ProductFound)), Data(Categories(Listing(categories))))]
    {
      if storeFails {
        var _ := res.Json(CategoryServerError());
        return;
      }
      var found := Listing(categories);
      var _ := res.Json(Response(200, true, Some(SuccessText(ProductFound)), Data(Categories(found))));
    }
  }
}
