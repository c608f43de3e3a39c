# SpaceKit storefront core, modelled in Dafny

SpaceKit is a small storefront: an Express/MongoDB backend with three
independent collections (products, contact messages, "buy now" staged
items) and a React frontend. This project models the parts of it that carry
logic of their own:

- the **buy-now staging handler** (`addBuyNowProduct`, `getBuyNowProducts`):
  a presence check, then an add-or-increment keyed by the item's name;
- the **cart page's line-item edits** (`updateQuantity`, `removeItem`): the
  `map`/`filter` transforms applied to the list the page holds;
- the **contact handlers** (`submitContact`, `getContacts`): a presence
  check and an append, and a listing newest first;
- the **product handlers** (`addProduct`, `getProduct`): an upload check,
  the `/uploads/` image path, an append, and a listing.

Each collection is a `seq` in insertion order, and each handler is a pure
function from the collection and the request to a `Handled` value: the
response (status and JSON body shape) and the collection afterwards. The
outside world enters as parameters:

- `fault: bool` says whether the handler's database call throws. A failed
  single-document write leaves the collection as it was.
- `now: int` is the creation timestamp the database stamps on a contact.
- `file: Option<UploadedFile>` is what the upload middleware attached.

Request-body fields are `Http.JsValue`. The handlers' `!field` tests are
JavaScript truthiness, modelled by `Http.Truthy`: `undefined`, `null`,
`false`, `0` and `""` are all falsy. Every array and object, even an
empty one, is truthy.

Files: `http.dfy` (shared values and responses), `buynow.dfy`, `cart.dfy`,
`contacts.dfy`, `products.dfy`.

Two details of the handlers' answers:

- `addProduct` reads only `productName`, `color` and `price`. It checks
  only that a file is present, and it answers with `res.json`'s default
  status 200.
- `submitContact` answers 201 with an acknowledgement only. It does not
  echo the stored message.

## Model

| member | source | states |
|---|---|---|
| BuyNow.FindByName | backend/controllers/ButNowController.js:11 | gives the position of the first record whose name equals the request's name; gives None exactly when no record has that name |
| BuyNow.Add | backend/controllers/ButNowController.js:3-31 | a falsy name, price or image gives 400 and leaves the collection unchanged; a database failure gives 500, unchanged; when the name exists, only the first such record's quantity goes up by 1 (price and image are kept, every other record is untouched) and the answer is 200 with that record; otherwise `{name, price, image, quantity: 1}` is appended and the answer is 201 with it; the collection grows by at most one record |
| BuyNow.List | backend/controllers/ButNowController.js:33-41 | answers 200 with every stored record, in the model's insertion order, or 500 on a database failure; the collection is never changed |
| BuyNow.AddKeepsNamesUnique | backend/controllers/ButNowController.js:11-26 | one call on a collection with at most one record per name keeps that true |
| BuyNow.ReplayKeepsNamesUnique | backend/controllers/ButNowController.js:11-26 | any sequence of non-overlapping calls keeps at most one record per name |
| BuyNow.AddTimesAccumulates | backend/controllers/ButNowController.js:11-26 | when no record has the name, n ≥ 1 successful adds append exactly one record for it, with quantity n, and change nothing else |
| BuyNow.SameNameAddsAccumulate | backend/controllers/ButNowController.js:11-26 | starting from an empty collection, n adds of one name leave a single record with quantity n |
| BuyNow.AddTwiceScenario | backend/controllers/ButNowController.js:13-26 | adding a new name twice answers 201 with quantity 1, then 200 with quantity 2, and leaves one record for it |
| BuyNow.AddedItemIsListed | backend/controllers/ButNowController.js:11-36 | after a successful add, the next listing holds a record of the request's name; it grew by one exactly when the name was new, and then its last record, in the model's insertion order, is `{name, price, image, quantity: 1}` |
| Cart.Filter | frontend/pages/CartPage.jsx:57 | the result holds exactly the accepted elements of the input and is never longer than it |
| Cart.FilterSelects | frontend/pages/CartPage.jsx:57 | the filter result is the subsequence at the strictly increasing positions of exactly the accepted elements |
| Cart.UpdateQuantity | frontend/pages/CartPage.jsx:49-60 | every remaining line has quantity > 0; a line of another id comes through unchanged in every field, and does so whenever its quantity is positive; a line of the id comes through with quantity max(0, old + delta), and does so whenever old + delta > 0; the list never grows |
| Cart.UpdateQuantityKeepsOrder | frontend/pages/CartPage.jsx:50-58 | the result is the adjusted lines at increasing positions, i.e. their order is kept; exactly the lines whose adjusted quantity is positive are kept |
| Cart.RemoveItem | frontend/pages/CartPage.jsx:62-65 | no line of the id remains; a line is in the result exactly when it was in the list with another id |
| Cart.RemoveItemKeepsOrder | frontend/pages/CartPage.jsx:63 | the result is exactly the lines of other ids, at increasing positions of the original list |
| Cart.RemoveItemIdempotent | frontend/pages/CartPage.jsx:63 | removing an id twice equals removing it once |
| Contacts.Submit | backend/controllers/contactController.js:4-18 | a falsy name, email or message gives 400 with an error and leaves the collection unchanged; a failed create gives 500 and no acknowledgement; otherwise exactly `{name, email, message, createdAt: now}` is appended and the answer is 201; it answers 201 exactly when the record was stored |
| Contacts.RejectionNeverReachesStore | backend/controllers/contactController.js:5-12 | a rejected request gets the same response whatever the collection, the clock or the database would do, and leaves the collection unchanged |
| Contacts.SortNewestFirst | backend/controllers/contactController.js:23 | the result is a permutation of the input ordered by createdAt, non-increasing |
| Contacts.List | backend/controllers/contactController.js:21-28 | answers 200 with every stored message exactly once, newest first, or 500 on a database failure; the collection is never changed |
| Contacts.SortKeepsOrderedInput | backend/controllers/contactController.js:23 | a collection already newest first is listed as it stands; records with equal createdAt keep their order, which is the model's stable tie-break and not a promise of the database |
| Contacts.SortIdempotent | backend/controllers/contactController.js:23 | sorting an already sorted listing changes nothing, ties included, under the model's stable tie-break |
| Contacts.NewestSubmissionListedFirst | backend/controllers/contactController.js:11-24 | a message submitted with a later timestamp than every stored one is listed first |
| Products.ImagePath | backend/controllers/productController.js:11 | the stored image path is `/uploads/` followed by the uploaded file's name |
| Products.ImagePathNamesFile | backend/controllers/productController.js:11 | two uploads get the same image path exactly when their file names are equal, and dropping the `/uploads/` prefix gives the file name back |
| Products.Add | backend/controllers/productController.js:3-26 | no file gives 400 and leaves the collection unchanged; a failed save gives 500, unchanged; otherwise exactly one record is appended, with image `/uploads/` + filename and the request's productName, color and price verbatim, and the answer is 200 echoing it |
| Products.AddIgnoresFieldPresence | backend/controllers/productController.js:5-20 | any two requests get the same status and the same growth, so one with every body field missing still adds a record when a file is present |
| Products.List | backend/controllers/productController.js:28-35 | answers 200 with every stored product, in the model's insertion order, or 500 on a database failure; the collection is never changed |
| Products.AddedProductIsListed | backend/controllers/productController.js:11-31 | a product created with a file is the last record of the next listing (in the model's insertion order), the earlier records are unchanged, and its image is `/uploads/` followed by the file name |

## Left out

- The MongoDB/Mongoose calls themselves are replaced by sequences. Not modelled: `_id`/`__v` assignment, schema casting (a price of `"abc"` fails the cast on save and gets 500), and schema-level validators.
- BuyNow.Add: the name used as the de-duplication key is compared as the body sent it, before Mongoose casts it to the schema's String type. So `5` and `"5"` are two keys here, but the database would treat them as one. The database would also read an object-valued name such as `{"$ne": ""}` as a query operator, matching the first record whatever its name, and an array-valued name as `$in`. The model compares both literally.
- BuyNow.FindByName: the lookup compares raw values, with the same gaps as the line above: no String cast, and no operator or `$in` reading of object and array names.
- The listings use `find()` with no sort. Their order is the database's natural order, which the database does not promise. "Stored order" and "last record" in the listing contracts are the model's insertion-order convention.
- Overlapping requests are not modelled. The buy-now lookup-then-save is not atomic, so two concurrent adds of a new name can insert two records. The uniqueness lemmas hold only for one call at a time.
- `backend/models/contact.js` is not part of this model. The model assumes its `createdAt` is stamped at creation, and that stamp is the `now` parameter.
- `Contacts.SortNewestFirst` breaks ties in createdAt stably. The database does not promise a tie order, so the contracts of `Contacts.List` state only the order and the permutation.
- Numbers are reals without NaN or negative zero. Cart quantities and deltas are integers, since the page only adds or subtracts 1 from integer quantities.
- A missing or non-object request body is not modelled: every field read is a value, possibly `Undefined`. In `addBuyNowProduct` the destructuring would throw inside `try` and answer 500. In `submitContact` it happens outside `try`.
- The cart subtotal, shipping, tax and total are left out (frontend/pages/CartPage.jsx:67-73). They are floating-point display arithmetic.
- The upload middleware's file-name scheme (`Date.now()` + original name) is left out because it depends on the clock and the filesystem. The file name is an input.
- `getProductById` is left out. It is imported by the product routes but not defined in the product controller.
- Express wiring, routers, CORS, the health route and the server's start-up are left out. So is static serving of the upload directory (backend/server.js:16-17). Its case-insensitive mount path and its percent-decoding of request paths mean a stored image path does not always lead back to its file. A file name such as `1-50%off.png` or `1-a?b.png` is one example. The model states only what the handler stores.
- All other React views and components are left out: home page, navigation bar, product forms and cards, contact form, login, footer. They are presentation and network calls.
- Logging through `console.error` is left out.
