# Admin API core — a Dafny model

This project models the decision logic of a small Express/Mongoose admin API:

- the label formatter `formatErrorMessage`;
- the access-token gate `checkToken`;
- user registration and login;
- the product handlers (add, list, view, edit, delete) with their Joi rule sets;
- the category handlers (add, list) with their Joi rule set;
- the product and category records with their store-side defaults, bounds and derived relations.

Library calls are abstract:

- bcrypt is a symbolic digest (`Crypto.Hash`, `Crypto.Matches`).
- `jwt.sign` is a symbolic token (`Crypto.Sign`).
- `jwt.verify` is a function parameter returning one of four outcomes (`Crypto.VerifyResult`).
- `mongoose.Types.ObjectId.isValid` is a function parameter `validId`.
- Collections are held by classes: users and products as tables keyed by email and by id, categories as a sequence in natural order.
- A store operation that rejects for a reason of its own is a boolean parameter: `lookupFails` for the `findOne` of `login` and `register`, `storeFails` for the other store calls of each handler.
- Ids and times the store assigns are parameters too.

Joi is modelled by the part of its behaviour the rule sets use (`Validation`):

- numeric-string conversion;
- `required`, `allow(...)`, the string and number base types and the empty-string rule;
- `integer()`, `greater(0)`, and the custom ObjectId rule;
- unknown-key rejection;
- collection of every detail (`abortEarly: false`), in declaration order and then in key order.

The Express response object is `Http.Res`, a log of every `json(...)` write attempted. The client receives the first one; a later write raises because the headers are already sent.

Files:

- `wrappers.dfy`: `Option`.
- `json.dfy`: JavaScript values and objects, property access, integer numerals, truthiness.
- `http.dfy`: the response envelope and the response log.
- `crypto.dfy`: bcrypt and jsonwebtoken stand-ins.
- `messages.dfy`: utils/messages.js and utils/error.messages.js as constants.
- `common.dfy`: `formatErrorMessage`.
- `auth_middleware.dfy`: `checkToken`.
- `auth_controller.dfy`: `login` and `register`.
- `validation.dfy`: the Joi rule model and the shaping of error details.
- `product_model.dfy`: models/Product.js.
- `product_controller.dfy`: controllers/ProductController.js.
- `category_model.dfy`: models/Category.js.
- `category_controller.dfy`: controllers/CategoryController.js.

## Model

| member | source | states |
|---|---|---|
| Common.SpaceCapitals | utils/common.js:15 | definition of the capital-spacing replace; properties in `SpacedCapitals`, `SpacedVisible` and `SpacedWithoutWhitespace` |
| Common.MessageBody | utils/common.js:14-17 | definition of the message before its suffix; properties in `RoundTrip` and `LeadingLetter` |
| Common.FormatErrorMessage | utils/common.js:13-18 | the result always ends with `" is required"` |
| Common.CapitalsFollowSpaces | utils/common.js:15-18 | every uppercase ASCII letter of the result after the first character is preceded by a space |
| Common.FirstCharacterVisible | utils/common.js:15-18 | the result starts with a non-whitespace character exactly when the label has one; a blank label gives just `" is required"` |
| Common.CapitalizeFirst | utils/common.js:17 | only the first character changes, and it changes only when it is a lowercase letter, which is uppercased |
| Common.LeadingLetter | utils/common.js:15-17 | for a whitespace-free non-empty label, the first character of the result is the label's first character uppercased |
| Common.RoundTrip | utils/common.js:15-18 | for a whitespace-free label, deleting the spaces from the part before the suffix gives the label with its first letter uppercased |
| Common.SpacedWithoutWhitespace | utils/common.js:15 | for a whitespace-free label, every space after the rewrite is an inserted one, directly before a capital, and deleting them gives back the label |
| Common.SpacedCapitals | utils/common.js:15 | after the rewrite, every capital is preceded by a space and the text does not start with a capital |
| Common.SpacedVisible | utils/common.js:15-16 | the rewrite adds no visible character, so the label has a non-whitespace character exactly when the rewrite has one |
| Common.Trim | utils/common.js:16 | the trimmed text is the infix left after dropping leading and trailing whitespace, and it neither starts nor ends with whitespace |
| Common.TrimEmpty | utils/common.js:16 | trimming yields the empty string exactly for blank text |
| Common.CamelCaseTwoWords | utils/common.js:13-18 | a lowercase word followed by a capitalised lowercase word formats as the first word capitalised, a space, the second word and the suffix |
| Common.ExampleProductPrice | utils/common.js:13-18 | `"productPrice"` formats as `"Product Price is required"` |
| Common.ExampleCategoryName | utils/common.js:13-18 | `"categoryName"` formats as `"Category Name is required"` |
| AuthMiddleware.FirstOccurrence | middlewares/AuthMiddleware.js:17 | the result is the first position at or after the start where the pattern occurs, or none when it occurs nowhere |
| AuthMiddleware.StripBearer | middlewares/AuthMiddleware.js:17 | definition of the first-occurrence replace; properties in `StripWithoutBearer`, `StripFirstBearer` and `StripBearerPrefix` |
| AuthMiddleware.StripWithoutBearer | middlewares/AuthMiddleware.js:17 | a header without `"Bearer "` is passed to verification unchanged |
| AuthMiddleware.StripFirstBearer | middlewares/AuthMiddleware.js:17 | the first `"Bearer "` is removed wherever it stands, and only that one |
| AuthMiddleware.StripBearerPrefix | middlewares/AuthMiddleware.js:17 | `"Bearer " + t` yields `t` |
| AuthMiddleware.Gate | middlewares/AuthMiddleware.js:9-41 | a missing or empty header is rejected with 401 `UNAUTHORIZED`; the request proceeds exactly when verification succeeds, with the decoded claims; it is 500 exactly for an unclassified failure; every rejection is 401 or 500 |
| AuthMiddleware.RejectedTokens | middlewares/AuthMiddleware.js:25-41 | an expired token gives 401 `TOKEN_EXPIRED`, a malformed one 401 `INVALID_TOKEN`, any other failure 500 `INTERNAL_SERVER_ERROR` |
| AuthMiddleware.CheckToken | middlewares/AuthMiddleware.js:6-42 | exactly one thing happens, `next()` or a single write; on success `req.user` is the decoded claims and `next` is called once; on rejection `req.user` is untouched and the one write carries the gate's status and message |
| AuthController.LoginAttempts | controllers/AuthController.js:6-53 | definition of the writes `login` attempts as written; properties in the lemmas below |
| AuthController.CheckedLoginAttempts | controllers/AuthController.js:6-53 | definition of the corrected `login`; properties in `CheckedLoginSingleResponse` and `LoginLookupFails` |
| AuthController.LoginNeedsCredentials | controllers/AuthController.js:11-16 | a falsy email or password gets 400 `INVALID_REQUEST` whatever the user table holds |
| AuthController.LoginLookupFails | controllers/AuthController.js:19 | a rejected `findOne` is answered with one 500 write, as written and corrected alike |
| AuthController.UnknownEmailCrashes | controllers/AuthController.js:19-22 | an unknown email is answered 500, not 401 (as written) |
| AuthController.WrongPasswordFallsThrough | controllers/AuthController.js:22-45 | a wrong password writes 401, then a signed-session write and a 500 write; the client receives the 401 (as written) |
| AuthController.SuccessfulLogin | controllers/AuthController.js:29-45 | a successful login writes once, 200, with data `{name, email, accessToken}` whose token carries exactly `{id, name, email}` for one hour and no password |
| AuthController.CheckedLoginSingleResponse | controllers/AuthController.js:11-45 | the corrected login writes exactly once, answers 401 for an unknown email and a wrong password alike, and agrees with the code as written wherever that writes once |
| AuthController.Users.Login | controllers/AuthController.js:6-53 | the writes attempted by `login` are exactly the as-written sequence `LoginAttempts`, a rejected lookup included |
| AuthController.Users.LoginChecked | controllers/AuthController.js:6-53 | the writes attempted by the corrected `login` are exactly `CheckedLoginAttempts`, a rejected lookup included |
| AuthController.Users.Register | controllers/AuthController.js:55-90 | falsy fields give 400 `INVALID_REQUEST`, a rejected lookup gives 500, and a known email gives 400 `EMAIL_ALREADY_EXISTS`, all with the table unchanged; a store failure gives 500; otherwise exactly one user is added, whose password is the cost-10 digest of the password, and the answer is 200 `REGISTRATION_SUCCESS` with no data; the table stays keyed by email |
| AuthController.RegisteredUserCanLogIn | controllers/AuthController.js:74-79 | after registration the stored digest has cost 10 and logging in with the same credentials succeeds |
| Crypto.Hash | controllers/AuthController.js:74 | the digest matches the password it was made from and records the cost |
| Messages.LegacyErrorText | utils/error.messages.js:1-9 | the default error table has a text for every key except `VALIDATION_FAILED` and `PRODUCT_NOT_FOUND`, and where it has one it is the text of utils/messages.js |
| Http.Res.Json | controllers/AuthController.js:22-45 | every write is recorded; a write after the first raises and does not change what the client receives |
| Json.Get | controllers/ProductController.js:41-48 | an absent key reads as `undefined`; otherwise the value stored under the key |
| Json.ParseInteger | controllers/ProductController.js:24 | a string converts to an integer exactly when it is an optional sign followed by digits, with the sign of the result following the written sign |
| Validation.Coerce | controllers/ProductController.js:24 | string keys are not converted, and conversion never makes a value absent or present |
| Validation.NumberValue | controllers/ProductController.js:21 | the number a number key sees is exactly the converted value when that is a number |
| Validation.RuleViolations | controllers/ProductController.js:21-24 | no detail is reported exactly when every further rule holds, and every detail is at the key's own path |
| Validation.CheckKeyAdmits | controllers/ProductController.js:16-24 | a key yields no detail exactly when its schema admits the value: absent and optional, an allowed value, or a value of the base type that passes every further rule |
| Validation.CheckKey | controllers/ProductController.js:16-24 | every detail of a key is at that key's own path; exactly when it yields none is stated by `CheckKeyAdmits` |
| Validation.Validate | controllers/ProductController.js:24 | definition of `validate` with `abortEarly: false`; properties in `ValidateEmpty`, `EveryViolationReported`, `UnknownKeyReported` and `DetailsAtDeclaredKey` |
| Validation.ValidateEmpty | controllers/ProductController.js:16-26 | validation passes exactly when every declared key is admitted and the object has no other key |
| Validation.ValidateIff | controllers/ProductController.js:16-26 | for any rule set whose keys are given, validation passes exactly when a stated condition on the declared keys holds and the object has no other key |
| Validation.EveryViolationReported | controllers/ProductController.js:24 | a detail found at any declared key is reported whatever the other keys hold (`abortEarly: false`) |
| Validation.MissingRequiredReported | controllers/ProductController.js:16-24 | each missing required key contributes its own `required` detail |
| Validation.UnknownKeyReported | controllers/ProductController.js:16-24 | every key the rule set does not declare contributes a `not allowed` detail |
| Validation.DetailsAt | controllers/ProductController.js:29-30 | the details at one field are exactly the reported details whose path is that field, in order |
| Validation.DetailsAtDeclaredKey | controllers/ProductController.js:16-24 | when no key is declared twice, the details at a declared key are exactly those its own schema raises; neither other keys nor unknown keys add to them |
| Validation.MissingRequiredOnce | controllers/ProductController.js:16-24 | when no key is declared twice, a missing required key has exactly one detail, `any.required` |
| Validation.RemoveQuotes | controllers/ProductController.js:31 | the result has no `"` and is no longer than the input |
| Validation.RemoveQuotesAppend | controllers/ProductController.js:31 | quote removal distributes over concatenation |
| Validation.ShapedViolation | controllers/ProductController.js:29-32 | a detail's entry is named by its key and reads as the key and the template without quotes |
| Validation.ShapeAll | controllers/ProductController.js:29-32 | definition of the `details.map` shaping; properties in `ShapedEntries` and `ShapedViolation` |
| Validation.ShapedEntries | controllers/ProductController.js:29-32 | there is one entry per detail and no entry message contains `"` |
| Validation.MissingKeyShaped | controllers/ProductController.js:16-32 | a missing required key whose name has no quote is reported to the client as `<key> is required` under the key itself |
| Validation.AdmitsRequiredString | controllers/ProductController.js:17-19 | `Joi.string().required()` admits exactly the non-empty strings |
| ProductModel.Create | models/Product.js:4-40 | the store accepts a new product exactly when name, code and colour are non-empty and a price is given; the record then keeps the given fields, takes the assigned id, and has both times equal to the insertion time |
| ProductModel.ApplyUpdate | controllers/ProductController.js:227-234 | an update sets name, code, colour, description and price, sets the image unless none is given, and keeps the id and both times |
| ProductModel.UpdateKeepsWellFormed | models/Product.js:5-23 | an update with a non-empty name, code and colour leaves a record the store would accept |
| ProductModel.CreateFieldsOf | models/Product.js:4-40 | creating a record from a stored record's own fields gives that record back |
| ProductController.AdmitsNullableString | controllers/ProductController.js:20 | `Joi.string().allow(null)` admits exactly absent, `null` or non-empty strings |
| ProductController.AdmitsInteger | controllers/ProductController.js:21 | `Joi.number().integer().required()` admits exactly numbers and numeric strings of integral value |
| ProductController.AdmitsPositiveInteger | controllers/ProductController.js:71-72 | `Joi.number().integer().greater(0).required()` admits exactly integral values above 0 |
| ProductController.AdmitsProductId | controllers/ProductController.js:131 | the id rule admits exactly non-empty strings that pass the ObjectId check |
| ProductController.AddProductValidation | controllers/ProductController.js:16-24 | `addProduct` accepts exactly bodies with non-empty name, code, colour and image, an integral price, a description that is absent, `null` or non-empty, and no other key |
| ProductController.ListProductValidation | controllers/ProductController.js:70-76 | `listProduct` accepts exactly queries whose `page` and `limit` are integers above 0, and no other key |
| ProductController.ProductIdValidation | controllers/ProductController.js:130-137 | view and delete accept exactly a non-empty id passing the ObjectId check |
| ProductController.EditProductValidation | controllers/ProductController.js:186-207 | `editProduct` accepts exactly a well-formed id with non-empty name, code and colour, an integral price, and a description and image that are absent, `null` or non-empty |
| ProductController.AddProductMissingFields | controllers/ProductController.js:16-32 | each missing required `addProduct` field is reported in its own entry reading `<field> is required` |
| ProductController.AddProductMissingOnce | controllers/ProductController.js:16-24 | a required field missing from an `addProduct` body, `productPrice` among them, has exactly one detail, its `any.required` one, whatever else the body holds |
| ProductController.TextOrEmpty | controllers/ProductController.js:45 | `field \|\| ""` for a string, `null` or absent field is the string when truthy and `""` otherwise |
| ProductController.CreateValues | controllers/ProductController.js:41-48 | definition of `createValues`; properties in `AddedProduct` |
| ProductController.UpdateValues | controllers/ProductController.js:227-234 | definition of the update object; properties in `EditedProduct` |
| ProductController.AddedProduct | controllers/ProductController.js:41-49 | a body that passes validation makes a record the store accepts, with the body's name, code, colour and price, the description or `""`, both times at insertion, and a plain-string image that is not the schema's shape |
| ProductController.EditedProduct | controllers/ProductController.js:227-234 | after a validated edit the record holds the body's name, code, colour and price, the description or `""`, the old image when the body has none, and its old id and times |
| ProductController.InsertByDatePermutes | controllers/ProductController.js:99 | insertion into the date order adds exactly the one record |
| ProductController.InsertByDateSorted | controllers/ProductController.js:99 | insertion keeps a newest-first sequence newest first |
| ProductController.NewestFirst | controllers/ProductController.js:99 | definition of the `createdAt` descending sort; properties in `NewestFirstSorted` |
| ProductController.NewestFirstSorted | controllers/ProductController.js:98-99 | the sort by `createdAt` descending is newest first and a permutation of its input |
| ProductController.Window | controllers/ProductController.js:100-101 | a page has at most `limit` items, is the run starting at `(page-1)*limit`, is full when enough items follow, and is empty past the end |
| ProductController.WindowKeepsOrder | controllers/ProductController.js:98-101 | a page of a newest-first listing is itself newest first |
| ProductController.WindowMembers | controllers/ProductController.js:100-101 | a page holds only items of the listing |
| ProductController.WindowCovers | controllers/ProductController.js:100-101 | the item at position `k` is on page `k / limit + 1` |
| ProductController.InOrder | controllers/ProductController.js:98 | the scan returns only stored products and every stored product it is asked for |
| ProductController.ListedPage | controllers/ProductController.js:97-103 | a listed page has at most `limit` stored products, newest first, and is the contiguous slice at `(page-1)*limit` of the sorted listing |
| ProductController.EveryProductListed | controllers/ProductController.js:97-103 | every stored product is on some page |
| ProductController.InOrderFollowsOrder | controllers/ProductController.js:98 | when every scanned id is stored, the scan yields the stored record of each id, in the order of the ids |
| ProductController.ScanLength | controllers/ProductController.js:98 | under the index the scan has as many records as the collection |
| ProductController.ListingCoversTable | controllers/ProductController.js:97-103 | the full newest-first listing holds every stored product exactly once, so its length is the `totalCount` the handler reports |
| ProductController.Without | controllers/ProductController.js:292 | removing an id from the natural order keeps exactly the other ids |
| ProductController.IndexedInsert | controllers/ProductController.js:49 | inserting under a fresh id keeps table and natural order in step |
| ProductController.IndexedRemove | controllers/ProductController.js:292 | removing an id keeps table and natural order in step |
| ProductController.IndexedUpdate | controllers/ProductController.js:227-234 | replacing the record under a present id by one with the same id keeps table and natural order in step |
| ProductController.ProductStore.Insert | controllers/ProductController.js:49 | the new record is added under its id and its id goes last in the natural order; the table stays indexed |
| ProductController.ProductStore.Update | controllers/ProductController.js:227-234 | only the record under the id is replaced, by the update applied to it; the natural order is unchanged |
| ProductController.ProductStore.Remove | controllers/ProductController.js:292 | exactly the id is removed from the table and from the natural order; the table stays indexed |
| ProductController.ProductStore.AddProduct | controllers/ProductController.js:13-61 | a failed validation answers 200 with key `error` and an undefined message and leaves the table; a store failure answers 500; otherwise exactly the new record is added at the end of the natural order and the answer is 200 |
| ProductController.ProductStore.ListProduct | controllers/ProductController.js:69-120 | a failed validation answers 400 with key `errors`; a store failure answers 500; otherwise 200 with the page of the newest-first listing and `totalCount` the size of the whole table |
| ProductController.ProductStore.ViewProduct | controllers/ProductController.js:128-176 | a bad id answers 400 with `errors`; a well-formed unknown id answers 400 with the undefined `PRODUCT_NOT_FOUND` message; a known id answers 200 with that record |
| ProductController.ProductStore.EditProduct | controllers/ProductController.js:184-253 | a failed validation, a store failure or an unknown id leave the table unchanged; otherwise only the record with that id is replaced by the updated one |
| ProductController.ProductStore.DeleteProduct | controllers/ProductController.js:261-311 | a failed validation, a store failure or an unknown id leave the table unchanged; otherwise exactly that id is removed from the table and the natural order |
| ProductController.DeleteLeavesOthers | controllers/ProductController.js:292-303 | after a delete the id is absent and every other record is unchanged |
| ProductController.EditLeavesOthers | controllers/ProductController.js:227-245 | after an edit the ids are the same and every other record is unchanged |
| CategoryModel.Create | models/Category.js:4-28 | the store accepts a category exactly when name and url are non-empty and the status, default 1, lies in 0..255; the record keeps the given parent, name, url and description |
| CategoryModel.Children | models/Category.js:31-35 | the children of an id are exactly the categories whose `parentId` is that id |
| CategoryModel.TopLevel | controllers/CategoryController.js:98 | the query returns exactly the categories whose `parentId` is null |
| CategoryModel.View | models/Category.js:38-39 | a serialised category carries exactly its children as `subCategories` |
| CategoryModel.ListingExact | controllers/CategoryController.js:98 | the listing holds exactly the top-level categories, each with exactly the categories naming it as parent |
| CategoryController.AdmitsOptionalString | controllers/CategoryController.js:13-15 | `Joi.string().allow(null, "")` admits exactly absent, `null` or any string |
| CategoryController.AdmitsAnyNumber | controllers/CategoryController.js:16 | `Joi.number().required().allow(0, 1)` admits every number and numeric string, not only 0 and 1 |
| CategoryController.AddCategoryValidation | controllers/CategoryController.js:11-20 | `addCategory` accepts exactly bodies with non-empty name and url, parent id and description absent, `null` or any string, any number as status, and no other key |
| CategoryController.ValidatedBodyHasNoStatus | controllers/CategoryController.js:11-20 | a body that passes validation has no `status` key, the key the record's status is read from |
| CategoryController.CategoryValues | controllers/CategoryController.js:36-42 | definition of the values passed to `create`; properties in `ValidatedValues` and `AddedCategory` |
| CategoryController.CastAll | controllers/CategoryController.js:36-42 | definition of the five casts; properties in `CastOptional` |
| CategoryController.CastStatus | controllers/CategoryController.js:41 | definition of the `status` cast; an absent value is left out, see `ValidatedValues` |
| CategoryController.CastParentId | controllers/CategoryController.js:38 | an absent parent id is left out, `null` stays `null`, a string is kept exactly when it is in ObjectId form and is a cast error otherwise |
| CategoryController.ValidatedValues | controllers/CategoryController.js:36-42 | for a validated body, the values passed to `create` are its name, url, description and parent with no status, or none when the parent does not cast |
| CategoryController.NewCategory | controllers/CategoryController.js:36-42 | a record the store inserts is well-formed and has the assigned id and creation time |
| CategoryController.AddedCategory | controllers/CategoryController.js:36-42 | a validated body is inserted unless its parent id is a string not in ObjectId form; the record has the body's name, url, description and parent, and status 1 whatever `categoryStatus` says |
| CategoryController.UncastableParentRejected | controllers/CategoryController.js:36-42 | a parent id string that `validId` rejects makes the insert fail |
| CategoryController.AppendKeepsIdsDistinct | controllers/CategoryController.js:36 | appending a category under a fresh id keeps ids distinct |
| CategoryController.AppendKeepsStoreValid | controllers/CategoryController.js:36 | appending a well-formed category under a fresh id keeps the store's ids distinct and its records well-formed |
| CategoryController.CategoryStore.Insert | controllers/CategoryController.js:36 | the record goes last in natural order and the store keeps distinct ids and well-formed records |
| CategoryController.CategoryStore.AddCategory | controllers/CategoryController.js:6-54 | a failed validation answers 400 with key `error`, the `VALIDATION_FAILED` text and quote-stripped entries, and leaves the table; a rejected insert answers 500; otherwise exactly the new record is appended and the answer is 200 `CATEGORY_ADDED` |
| CategoryController.CategoryStore.ListCategory | controllers/CategoryController.js:62-115 | a store failure answers 500; otherwise 200 with message `"Products found"` and the top-level listing |

## Left out

- Library internals of Joi, bcrypt, jsonwebtoken and mongoose. They are replaced by the abstract interfaces above. bson's ObjectId rule is the `validId` parameter, and the store's cast of a parent id uses that same predicate.
- Crypto.Hash: the symbolic digest is collision-free; bcrypt truncates passwords at 72 bytes, which is not modelled.
- Token cryptography, the clock and the JWT secret: expiry is only an outcome of verification, and a configured secret is assumed.
- Numbers: JavaScript doubles, NaN, the infinities and the safe-integer bound are not modelled. Numbers are reals, and only `[+-]?digits` numerals are converted from strings. Joi also accepts decimal, exponent and whitespace-padded numerals, which are not modelled.
- JavaScript's ordering of integer-like object keys ahead of other keys is not modelled: keys keep insertion order.
- Message formatting in the controllers: the controllers import `formatMessage`, which utils/common.js does not export, so the modules would not link. The entries are modelled as quote removal only, and the formatter stands on its own in `Common`.
- The two reads of `listProduct` run concurrently in the source; they are modelled as two reads of the same table.
- Ties in the `createdAt` sort: the store's order among equal times is unspecified, and the model keeps the earlier-inserted product first.
- ProductController.ProductStore.ListProduct: `page` and `limit` are reported as the validated integers, while the source passes on the raw query strings.
- Mongoose's cast of a plain string into the nested `image` path is not modelled. The record stores the string, and `ImageConforms` records the mismatch. For `addProduct`, Mongoose's default strict mode likely drops a non-object value on that path, so the stored product would have no image at all (not executed); the model departs from that. For `editProduct`, `findByIdAndUpdate` likely passes `$set: {image: <string>}` through uncast, which is what the model does.
- Category description: `null` and an absent description are both stored as absent.
- CategoryController.CastStatus: a non-integral number is a cast error in the model, while Mongoose's Number cast keeps it and only the 0..255 bounds apply. No validated body has a `status` key (`ValidatedBodyHasNoStatus`), so no handler reaches this case.
- ProductModel.Create: both `createdAt` and `updatedAt` take the one insertion time. The schema gives each its own `Date.now` default, so the two may differ by a clock tick; nothing in the handlers reads `updatedAt`.
- AuthController.Users.Login / AuthController.Users.Register: the credentials are modelled as absent, `null` or a string. Any other JSON value the body parsers deliver is not modelled. A number or object password would make `bcrypt.compare` or `bcrypt.hash` reject, which answers 500. An object email such as `{"$gt": ""}` would act as a query operator in `findOne`. A falsy non-string such as `0` or `false` would get 400. So "a falsy email or password gives 400" is shown only for absent, `null` and `""`. The same holds for `LoginAttempts` and `CheckedLoginAttempts`.
- Ids are compared and stored as the request strings, not as cast ObjectIds. Mongoose casts a route id or a parent id before use, so an upper-case hex id, or a 12-character string that passes `isValid`, would be looked up or stored under a different key than the model uses.
- CategoryController.UncastableParentRejected: the store's ObjectId cast is the same `validId` predicate as the Joi rule, with no property assumed of it, so the model does not show that `""` in particular fails the cast.
- models/User.js is not part of this model; a user is `{id, name, email, password}`.
- The third write of a wrong-password login raises inside the catch block, outside the handler. The unhandled rejection that follows is not modelled beyond recording the attempt.
- Logging (`console.*`), media upload (controllers/MediaController.js, services/media.service.js), and process wiring (app.js, config/db.js, routes/api.js) are not part of this model.

## Findings

| source | as written | input that shows it | evidently intended | confidence | as-written member | corrected member |
|---|---|---|---|---|---|---|
| controllers/AuthController.js:19-22 | `existUser.password` is read before `existUser` is checked for null | a non-empty email not in the table with any non-empty password: the answer is 500 | 401 `INVALID_CREDENTIALS` for an unknown email | high (not executed) | AuthController.UnknownEmailCrashes | AuthController.CheckedLoginSingleResponse |
| controllers/AuthController.js:22-45 | the 401 write has no `return`, so a token is signed and two more writes are attempted | a known email with a wrong password: writes 401, then the session, then 500 | a single 401 response and no token signed | high (not executed) | AuthController.WrongPasswordFallsThrough | AuthController.Users.LoginChecked |
