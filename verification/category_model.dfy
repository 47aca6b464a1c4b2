/** The category record of models/Category.js: its fields, the store-side
    default and bounds, and the derived `subCategories` relation. */
module CategoryModel {
  import opened Wrappers

  /** `status` when none is given, and its bounds. */
  const DefaultStatus: int := 1
  const MinStatus: int := 0
  const MaxStatus: int := 255

  /** A stored category. `parentId` is `None` for `null` (the default), which
      marks a top-level category; `description` is `None` when absent. */
  datatype Category = Category(
    id: string,
    parentId: Option<string>,
    name: string,
    url: string,
    description: Option<string>,
    status: int,
    createdAt: int,
    updatedAt: int)

  /** The values passed to `CategoryModel.create`, after casting; `None` is a
      missing value. */
  datatype CategoryFields = CategoryFields(
    parentId: Option<string>,
    name: Option<string>,
    url: Option<string>,
    description: Option<string>,
    status: Option<int>)

  predicate StatusInRange(status: int)
  {
    MinStatus <= status <= MaxStatus
  }

  /** A stored category has a name and a url and a status within bounds. */
  predicate WellFormed(c: Category)
  {
    c.name != "" && c.url != "" && StatusInRange(c.status)
  }

  predicate IsTopLevel(c: Category)
  {
    c.parentId.None?
  }

  /** `CategoryModel.create(fields)` at time `now` with the id the store
      assigns: the new record, or `None` when the name or the url is missing
      or the status is out of bounds. A missing status takes the default. */
  function Create(id: string, f: CategoryFields, now: int): (r: Option<Category>)
    ensures r.Some? <==> Present(f.name) && Present(f.url) && (f.status.None? || StatusInRange(f.status.value))
    ensures r.Some? ==> WellFormed(r.value)
    ensures r.Some? ==> r.value.id == id && r.value.createdAt == now && r.value.updatedAt == now
    ensures r.Some? ==> r.value.parentId == f.parentId && Some(r.value.name) == f.name
    ensures r.Some? ==> Some(r.value.url) == f.url && r.value.description == f.description
    ensures r.Some? && f.status.None? ==> r.value.status == DefaultStatus
    ensures r.Some? && f.status.Some? ==> r.value.status == f.status.value
  {
    var status := if f.status.Some? then f.status.value else DefaultStatus;
    if Present(f.name) && Present(f.url) && StatusInRange(status) then
      Some(Category(id, f.parentId, f.name.value, f.url.value, f.description, status, now, now))
    else None
  }

  /** The virtual `subCategories`: the categories whose `parentId` is `id`, in
      the store's natural order. */
  function Children(id: string, cats: seq<Category>): (r: seq<Category>)
    ensures forall c :: c in r <==> c in cats && c.parentId == Some(id)
    ensures |r| <= |cats|
  {
    if cats == [] then []
    else (if cats[0].parentId == Some(id) then [cats[0]] else []) + Children(id, cats[1..])
  }

  /** The categories whose `parentId` is null, in natural order. */
  function TopLevel(cats: seq<Category>): (r: seq<Category>)
    ensures forall c :: c in r <==> c in cats && IsTopLevel(c)
    ensures |r| <= |cats|
  {
    if cats == [] then []
    else (if IsTopLevel(cats[0]) then [cats[0]] else []) + TopLevel(cats[1..])
  }

  /** A category as serialised with its virtuals: the record and its
      populated children, whose own children are not populated. */
  datatype CategoryView = CategoryView(category: Category, subCategories: seq<Category>)

  function View(c: Category, cats: seq<Category>): (v: CategoryView)
    ensures v.category == c
    ensures forall s :: s in v.subCategories <==> s in cats && s.parentId == Some(c.id)
  {
    CategoryView(c, Children(c.id, cats))
  }

  /** `find({parentId: null}).populate("subCategories")`. */
  function Listing(cats: seq<Category>): (r: seq<CategoryView>)
    ensures |r| == |TopLevel(cats)|
    ensures forall i :: 0 <= i < |r| ==> r[i] == View(TopLevel(cats)[i], cats)
  {
    var top := TopLevel(cats);
    seq(|top|, i requires 0 <= i < |top| => View(top[i], cats))
  }

  /** The listing holds exactly the top-level categories, each with exactly
      the categories that name it as parent. */
  lemma ListingExact(cats: seq<Category>)
    ensures forall c :: (exists v :: v in Listing(cats) && v.category == c) <==> c in cats && IsTopLevel(c)
    ensures forall v, s :: v in Listing(cats) ==> (s in v.subCategories <==> s in cats && s.parentId == Some(v.category.id))
  {
    var r := Listing(cats);
    var top := TopLevel(cats);
    forall c | c in cats && IsTopLevel(c)
      ensures exists v :: v in r && v.category == c
    {
      var i :| 0 <= i < |top| && top[i] == c;
      assert r[i] in r && r[i].category == c;
    }
    forall v | v in r
      ensures v.category in top && v.subCategories == Children(v.category.id, cats)
    {
      var i :| 0 <= i < |r| && r[i] == v;
    }
  }
}
