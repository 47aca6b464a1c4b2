/** The product record of models/Product.js: its fields, what the store
    requires of them and the defaults it fills in. */
module ProductModel {
  import opened Wrappers

  /** The `image` path. The schema declares an object with two optional
      strings; the handlers assign a plain string, kept as `ImageText`. */
  datatype StoredImage =
    | ImageObject(publicId: Option<string>, secureUrl: Option<string>)
    | ImageText(text: string)
    | NoImage

  /** A stored product. `description` is `None` when the field is absent;
      the two times are in the store clock's units. */
  datatype Product = Product(
    id: string,
    name: string,
    code: string,
    color: string,
    description: Option<string>,
    price: int,
    image: StoredImage,
    createdAt: int,
    updatedAt: int)

  /** The values a handler passes to `ProductModel.create`; `None` is a
      missing value. */
  datatype ProductFields = ProductFields(
    name: Option<string>,
    code: Option<string>,
    color: Option<string>,
    description: Option<string>,
    price: Option<int>,
    image: StoredImage)

  /** The store accepts a new product only with a name, a code, a colour and
      a price; the description and the image are optional. */
  predicate Admissible(f: ProductFields)
  {
    Present(f.name) && Present(f.code) && Present(f.color) && f.price.Some?
  }

  /** A stored product has its required fields. */
  predicate WellFormed(p: Product)
  {
    p.name != "" && p.code != "" && p.color != ""
  }

  /** The image has the shape the schema declares. */
  predicate ImageConforms(image: StoredImage)
  {
    !image.ImageText?
  }

  /** The fields of a stored product, as they would be passed to `create`. */
  function FieldsOf(p: Product): ProductFields
  {
    ProductFields(Some(p.name), Some(p.code), Some(p.color), p.description, Some(p.price), p.image)
  }

  /** `ProductModel.create(fields)` at time `now` with the id the store
      assigns: the new record, or `None` when a required field is missing.
      Both times default to `now`. */
  function Create(id: string, f: ProductFields, now: int): (r: Option<Product>)
    ensures r.Some? <==> Admissible(f)
    ensures r.Some? ==> WellFormed(r.value) && FieldsOf(r.value) == f
    ensures r.Some? ==> r.value.id == id && r.value.createdAt == now && r.value.updatedAt == now
  {
    if Admissible(f) then
      Some(Product(id, f.name.value, f.code.value, f.color.value, f.description, f.price.value, f.image, now, now))
    else None
  }

  /** The update object of `findByIdAndUpdate`. `image` is `None` when the
      body has no `productImage`: an undefined value is dropped from the
      update and leaves the stored image as it is. */
  datatype ProductUpdate = ProductUpdate(
    name: string,
    code: string,
    color: string,
    description: string,
    price: int,
    image: Option<StoredImage>)

  /** The record after the update. The schema has no `timestamps` option
      and the update names neither time, so both stay as they were; the id
      stays too. */
  function ApplyUpdate(p: Product, u: ProductUpdate): (q: Product)
    ensures q.id == p.id && q.createdAt == p.createdAt && q.updatedAt == p.updatedAt
    ensures FieldsOf(q) == ProductFields(Some(u.name), Some(u.code), Some(u.color), Some(u.description), Some(u.price),
                                         if u.image.Some? then u.image.value else p.image)
  {
    p.(name := u.name, code := u.code, color := u.color, description := Some(u.description), price := u.price,
       image := if u.image.Some? then u.image.value else p.image)
  }

  /** Created records and updated ones keep their required fields; an update
      is judged by the same required-field rule as a creation. */
  lemma UpdateKeepsWellFormed(p: Product, u: ProductUpdate)
    requires u.name != "" && u.code != "" && u.color != ""
    ensures WellFormed(ApplyUpdate(p, u))
    ensures Admissible(FieldsOf(ApplyUpdate(p, u)))
  {
  }

  /** A record keeps its fields through a round trip by `FieldsOf` and
      `Create`. */
  lemma CreateFieldsOf(p: Product)
    requires WellFormed(p)
    ensures Create(p.id, FieldsOf(p), p.createdAt) == Some(p.(updatedAt := p.createdAt))
  {
  }
}
