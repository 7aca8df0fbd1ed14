# ProductManager catalogue core in Dafny

This project models the core of ProductManager, a small ASP.NET product-catalogue application. The model covers four parts:

- **The product table kept by `ProductService`.** It is a list of products plus an id counter. `GetAll`, `GetById`, `Add`, `Update` and `Delete` act on them.
- **The validation rules on `Product`.** These are its data annotations: what makes `ModelState.IsValid` hold.
- **The REST controller's decisions (`ProductsApiController`).** Each action runs its guards in order and ends in at most one mutating service call. The model returns the outcome the action picks.
- **The MVC controller's decisions (`ProductsController`).** Same shape; it returns the page or redirect the action picks.

Files and modules:

| file | module | what it holds |
|---|---|---|
| `product.dfy` | `Products` | the `Product` datatype, with price in integer cents; the per-field rules; `Violations` and `PassesValidation` |
| `catalog.dfy` | `Catalog` | the table as a value: `IndexOf` (what `FirstOrDefault` finds), `RemoveAll`, `CopyFields`/`UpdateFirst`, the seed rows, the table invariants and the lemmas that relate them |
| `product_service.dfy` | `Services` | `ProductService`, a class with the fields `products` and `nextId`, plus a ghost history `issued` of every id ever handed out; each method is proved against the `Catalog` functions |
| `api_controller.dfy` | `ApiControllers` | `ProductsApiController` over a `ProductService`, returning an `ApiResult` |
| `products_controller.dfy` | `MvcControllers` | `ProductsController` over a `ProductService`, returning a `PageResult` |
| `id_counter.dfy` | `IdCounter` | the id counter as written, as a 32-bit `int` that wraps around, and the id collision it eventually causes (see Findings) |

Modelling choices:

- **ModelState.** Every action that reads `ModelState.IsValid` takes it as a parameter, `modelValid`. The framework fills it in; the tests set it directly. No precondition ties it to the product. The controller contracts state what follows when `modelValid == PassesValidation(product)`: a table whose rows are all valid stays valid.
- **Price.** Price is an integer number of cents, so 0.01–999,999.99 becomes 1..99,999,999.
- **`[Required]` on strings.** It rejects a string made only of whitespace. `IsWhiteSpace` lists exactly the characters .NET's `char.IsWhiteSpace` accepts.
- **Invariant.** `ProductService.Valid()` is the table invariant:
  - stored ids are distinct and lie in 1..`nextId`-1;
  - every stored id is in `issued`;
  - every issued id is below `nextId`.

  Every method keeps it. `Add` proves that the id it hands out was never issued before. `Delete` leaves `issued` and `nextId` as they were. So an id that was stored once can never be handed out again.
- **Service calls in the controllers.** Each one is a call on the class. "Never calls Update" becomes `unchanged(service)`. "Calls Update once" becomes `service.products == UpdateFirst(old(service.products), product)`. Delete and Add are stated the same way.

Notes on the code:

- **Which service the API controller calls.** It calls `GetAllAsync`, `GetByIdAsync`, `AddAsync`, `UpdateAsync`, `DeleteAsync` and `ExistsAsync`. None of these is in `IProductService`, which has only the synchronous methods. The model calls the synchronous methods, and treats `ExistsAsync(id)` as `GetById(id)` returning something.
- **Existence checks in the MVC controller.** Only the REST controller checks existence before Update and Delete. The MVC `Edit` (POST) calls `Update` without an existence check, so an unknown id still redirects, after an update that changes nothing. The MVC `DeleteConfirmed` calls `Delete` unconditionally.
- **Id mismatch in the MVC controller.** A mismatched id on the MVC `Edit` (POST) gives NotFound, where the REST `PutProduct` gives BadRequest.

## Model

| member | source | states |
|---|---|---|
| `Products.ValidBounds` | ProductManager/ProductManager/Models/Product.cs:9-26 | a product is valid exactly when its name has 2–100 characters and is not all whitespace, its description has 10–500 characters and is not all whitespace, its price is 1..99,999,999 cents and its quantity is 0..int.MaxValue |
| `Products.ValidityIgnoresId` | ProductManager/ProductManager/Models/Product.cs:7-26 | the set of failing fields, and so validity, does not depend on `Id` |
| `Products.DefaultProductInvalid` | ProductManager/ProductManager/Models/Product.cs:9-26 | a default-constructed product fails on name, description and price, but not on quantity, so it is invalid |
| `Products.WhiteSpaceNameInvalid` | ProductManager/ProductManager/Models/Product.cs:9-12 | a name made only of whitespace fails `[Required]`, whatever its length |
| `Products.ValidNameHasVisibleChar` | ProductManager/ProductManager/Models/Product.cs:9-12 | a valid product's name contains a non-whitespace character |
| `Products.EmptyNameRejected` | ProductManager/ProductManager/Models/Product.cs:9-16 | name "" with description "x" is rejected, citing exactly the name and description fields |
| `Products.MonitorAccepted` | ProductManager/ProductManager/Models/Product.cs:9-26 | the "Monitor" submission (349.99, quantity 12) passes every rule |
| `Catalog.IndexOf` | ProductManager/ProductManager/Services/ProductService.cs:24 | the position that `FirstOrDefault` stops at: None exactly when no product has the id; otherwise a product with the id, and no earlier product has it |
| `Catalog.RemoveAll` | ProductManager/ProductManager/Services/ProductService.cs:47 | no product with the id is left; nothing changes when the id is absent; the list shrinks when the id is present |
| `Catalog.RemoveAllMembers` | ProductManager/ProductManager/Services/ProductService.cs:47 | the result keeps exactly the products whose id differs |
| `Catalog.RemoveAllAppend` | ProductManager/ProductManager/Services/ProductService.cs:47 | filtering a concatenation filters each part in place, so the kept products stay in their original order |
| `Catalog.RemoveAllSingle` | ProductManager/ProductManager/Services/ProductService.cs:47 | a single product is dropped exactly when its id matches |
| `Catalog.RemoveAllIdempotent` | ProductManager/ProductManager/Services/ProductService.cs:47 | deleting an id twice is the same as deleting it once |
| `Catalog.RemoveAllRemovesOne` | ProductManager/ProductManager/Services/ProductService.cs:47 | with distinct ids, deleting the id stored at position k removes exactly position k |
| `Catalog.DistinctCons` | ProductManager/ProductManager/Services/ProductService.cs:47 | putting a product whose id is new in front of a list with distinct ids keeps the ids distinct |
| `Catalog.RemoveAllKeepsDistinct` | ProductManager/ProductManager/Services/ProductService.cs:47 | deleting keeps the stored ids pairwise distinct |
| `Catalog.RemoveAllKeepsInvariant` | ProductManager/ProductManager/Services/ProductService.cs:47 | deleting keeps the ids positive, below the counter and distinct |
| `Catalog.RemoveAllKeepsValid` | ProductManager/ProductManager/Services/ProductService.cs:47 | deleting from a table of valid products leaves only valid products |
| `Catalog.CopyFields` | ProductManager/ProductManager/Services/ProductService.cs:38-41 | the updated product keeps its own id and takes every other field from the submitted product |
| `Catalog.UpdateFirstKeepsIds` | ProductManager/ProductManager/Services/ProductService.cs:33-43 | an update changes neither the length of the list nor any id |
| `Catalog.UpdateFirstPointwise` | ProductManager/ProductManager/Services/ProductService.cs:33-43 | with distinct ids, the one product with the submitted id becomes the submitted product and every other product is unchanged |
| `Catalog.UpdateFirstKeepsInvariant` | ProductManager/ProductManager/Services/ProductService.cs:33-43 | an update keeps the ids positive, below the counter and distinct |
| `Catalog.UpdateFirstKeepsValid` | ProductManager/ProductManager/Services/ProductService.cs:33-43 | updating with a valid product keeps every stored product valid |
| `Catalog.AppendFreshKeepsInvariant` | ProductManager/ProductManager/Services/ProductService.cs:29-30 | appending under the counter's id keeps the ids distinct, and all of them below the incremented counter |
| `Catalog.AddThenFind` | ProductManager/ProductManager/Services/ProductService.cs:22-31 | after an Add, looking up the new id finds the appended product, whose business fields are the submitted ones |
| `Catalog.NeverIssuedAbsent` | ProductManager/ProductManager/Services/ProductService.cs:15-25 | an id that is not positive, or not yet handed out, is never found |
| `Catalog.SeedInvariant` | ProductManager/ProductManager/Services/ProductService.cs:8-15 | the seed rows have distinct ids 1–3, all below the starting counter 4, and every seed row is valid |
| `Catalog.LaptopValid` | ProductManager/ProductManager/Services/ProductService.cs:10 | the seeded Laptop row is valid |
| `Catalog.MouseValid` | ProductManager/ProductManager/Services/ProductService.cs:11 | the seeded Mouse row is valid |
| `Catalog.KeyboardValid` | ProductManager/ProductManager/Services/ProductService.cs:12 | the seeded Keyboard row is valid |
| `Services.ProductService.constructor` | ProductManager/ProductManager/Services/ProductService.cs:8-15 | the table starts as the three seed rows, with the counter at 4 and ids 1–3 issued, and satisfies the invariant |
| `Services.ProductService.GetAll` | ProductManager/ProductManager/Services/ProductService.cs:17-20 | returns the whole current list |
| `Services.ProductService.GetById` | ProductManager/ProductManager/Services/ProductService.cs:22-25 | returns None exactly when no product has the id; otherwise returns the first product with that id |
| `Services.ProductService.Add` | ProductManager/ProductManager/Services/ProductService.cs:27-31 | the product gets the old counter as its id; the counter goes up by exactly 1; the list becomes the old list with the product appended; the id was never issued before; the invariant holds |
| `Services.ProductService.Update` | ProductManager/ProductManager/Services/ProductService.cs:33-43 | the first product with the submitted id takes its name, description, price and quantity; its id, every other product, the length, the counter and the issued ids are unchanged; with no match nothing changes |
| `Services.ProductService.Delete` | ProductManager/ProductManager/Services/ProductService.cs:45-48 | exactly the products with the id are removed; the counter and the issued ids are unchanged, so a deleted id is never handed out again; an absent id changes nothing |
| `ApiControllers.ProductsApiController.constructor` | ProductManager/ProductManager/Controllers/ProductsApiController.cs:13-16 | the controller works on the given service |
| `ApiControllers.ProductsApiController.GetProducts` | ProductManager/ProductManager/Controllers/ProductsApiController.cs:18-24 | always Ok with the service's current list, including an empty one; changes nothing |
| `ApiControllers.ProductsApiController.GetProduct` | ProductManager/ProductManager/Controllers/ProductsApiController.cs:26-38 | NotFound exactly when the lookup finds nothing; otherwise Ok with the first product that has the id |
| `ApiControllers.ProductsApiController.PostProduct` | ProductManager/ProductManager/Controllers/ProductsApiController.cs:40-51 | an invalid model gives BadRequest and leaves the store unchanged; a valid model appends exactly once, under a never-issued id, and gives Created with that id and the stored product |
| `ApiControllers.ProductsApiController.PutProduct` | ProductManager/ProductManager/Controllers/ProductsApiController.cs:53-74 | guards in the action body's order: an id mismatch gives BadRequest "ID mismatch", then an invalid model gives BadRequest, then a missing id gives NotFound, each leaving the store unchanged; otherwise exactly one Update, then NoContent |
| `ApiControllers.ProductsApiController.DeleteProduct` | ProductManager/ProductManager/Controllers/ProductsApiController.cs:76-87 | a missing id gives NotFound and the store is unchanged; otherwise exactly one Delete, then NoContent |
| `MvcControllers.ProductsController.constructor` | ProductManager/ProductManager/Controllers/ProductsController.cs:12-15 | the controller works on the given service |
| `MvcControllers.ProductsController.Index` | ProductManager/ProductManager/Controllers/ProductsController.cs:17-22 | shows the current list; changes nothing |
| `MvcControllers.ProductsController.Details` | ProductManager/ProductManager/Controllers/ProductsController.cs:24-33 | NotFound exactly when the lookup finds nothing; otherwise the page of the first product that has the id; changes nothing |
| `MvcControllers.ProductsController.CreateForm` | ProductManager/ProductManager/Controllers/ProductsController.cs:35-39 | always the blank form |
| `MvcControllers.ProductsController.Create` | ProductManager/ProductManager/Controllers/ProductsController.cs:41-52 | a valid model appends exactly once under the next id, which was never issued before, then redirects to Index; an invalid model shows the form again and leaves the store unchanged |
| `MvcControllers.ProductsController.EditForm` | ProductManager/ProductManager/Controllers/ProductsController.cs:54-63 | NotFound exactly when the lookup finds nothing; otherwise the edit page of that product; changes nothing |
| `MvcControllers.ProductsController.Edit` | ProductManager/ProductManager/Controllers/ProductsController.cs:65-81 | an id mismatch gives NotFound before validity is checked, and the store is unchanged; with matching ids, an invalid model shows the form again with the store unchanged; a valid model makes exactly one Update (a no-op for an absent id) and redirects |
| `MvcControllers.ProductsController.Delete` | ProductManager/ProductManager/Controllers/ProductsController.cs:83-92 | NotFound exactly when the lookup finds nothing; otherwise the confirmation page of that product; changes nothing |
| `MvcControllers.ProductsController.DeleteConfirmed` | ProductManager/ProductManager/Controllers/ProductsController.cs:94-101 | always exactly one Delete, with no existence check, then a redirect; an absent id leaves the store unchanged |
| `IdCounter.Increment32` | ProductManager/ProductManager/Services/ProductService.cs:15-29 | `_nextId++` on a 32-bit int stays in range and equals the old value plus one, modulo 2^32 |
| `IdCounter.Add32` | ProductManager/ProductManager/Services/ProductService.cs:27-31 | Add as written appends the product under the current 32-bit counter |
| `IdCounter.Churn` | ProductManager/ProductManager/Services/ProductService.cs:27-48 | repeated rounds of Add and then Delete keep the counter within 32 bits |
| `IdCounter.ChurnStep` | ProductManager/ProductManager/Services/ProductService.cs:27-48 | adding a product and deleting it again, under an id no other row holds, only moves the counter |
| `IdCounter.ChurnToWrap` | ProductManager/ProductManager/Services/ProductService.cs:29 | starting from 4..int.MaxValue, the counter reaches int.MinValue with the seed rows still in place |
| `IdCounter.ChurnToOne` | ProductManager/ProductManager/Services/ProductService.cs:29 | starting from int.MinValue..1, the counter reaches 1 with the seed rows still in place |
| `IdCounter.ChurnCompose` | ProductManager/ProductManager/Services/ProductService.cs:27-48 | churning a + b rounds is churning a rounds and then b rounds |
| `IdCounter.ChurnFullTurn` | ProductManager/ProductManager/Services/ProductService.cs:29 | one full turn of the 32-bit counter brings it from n back to 1 |
| `IdCounter.SeedIdsHold` | ProductManager/ProductManager/Services/ProductService.cs:10-12 | every seed id lies in 1..3 |
| `IdCounter.SeedCounterWraps` | ProductManager/ProductManager/Services/ProductService.cs:8-15 | from start-up, 4,294,967,293 rounds of adding and deleting a product bring the counter back to 1 with the seed rows untouched |
| `IdCounter.SeedIdReissued` | ProductManager/ProductManager/Services/ProductService.cs:29-30 | in that state, the next Add stores a second product with id 1, so the ids are no longer distinct |

## Left out

- **`Program.cs` and `DbInitializer.cs`.** They hold dependency injection, Swagger, the EF/SQL Server setup, the middleware pipeline, and persistence I/O that only repeats the in-memory seed. None of it decides an outcome.
- **The repository layer and the async service methods.** The tests use an `IProductRepository` and async service methods; neither is part of this model.
- **HTTP and page details.** Status codes, views, redirect targets, routing, anti-forgery checks and the `CreatedAtAction` location header are not modelled. Each becomes a constructor of `ApiResult` or `PageResult`; `Created` carries the new id in place of the location.
- **How ModelState is filled.** The framework fills it; the model takes it as the `modelValid` parameter.
- **The `[ApiController]` automatic 400.** `ProductsApiController` carries `[ApiController]`, and `Program.cs` does not turn off its automatic model-state check. Over HTTP an invalid model is therefore answered with a 400 before the action runs, so a PUT with both an id mismatch and an invalid model gets the validation 400, not "ID mismatch". The guard order that `PutProduct` states (id mismatch first) is that of the action body, as when the action is called directly. BadRequest and an unchanged store hold either way.
- **Null values.** A null product and null strings are not modelled: Dafny strings are never null. The API test with a null product relies only on ModelState being invalid, which the model covers.
- **String lengths.** `[StringLength]` counts UTF-16 code units; the model counts Dafny characters (Unicode scalar values). The two differ only for characters outside the Basic Multilingual Plane.
- **Price precision.** Prices with fractions of a cent, and `RangeAttribute`'s conversion to double, are outside the integer-cents model.
- **Sharing and aliasing.** `_products` and `_nextId` are static, so every `ProductService` instance shares one table. The model gives each controller a reference to one service object, and is single-threaded: concurrent requests are not modelled. `GetAll` returns the live list and `GetById` the live object; the model returns values. `Add` overwrites the `Id` of the caller's object; the model returns the stored product instead.
- **Services.ProductService.Add: does not model the 32-bit wrap-around of `_nextId`.** The counter is unbounded, so `Add` can promise a never-issued id. The as-written 32-bit counter is modelled separately in `IdCounter`; see Findings.

## Findings

| source | as written | input that shows it | evidently intended | confidence | as-written member | corrected member |
|---|---|---|---|---|---|---|
| ProductManager/ProductManager/Services/ProductService.cs:29 | `_nextId++` on a static `int`; C# arithmetic is unchecked by default, so after int.MaxValue the counter wraps to int.MinValue and counts up through 0 to 1 | from start-up, 4,294,967,293 rounds of adding a product and deleting it again, then one more Add: the new product receives id 1 while the seeded Laptop still has id 1, and `GetById(1)` can no longer reach the new product | ids are unique and never reused | low: needs about 2^33 requests (each round is an Add and a Delete), and assumes the build does not turn on overflow checking; not executed | `IdCounter.SeedIdReissued` (with `IdCounter.SeedCounterWraps`) | `Services.ProductService.Add` |
