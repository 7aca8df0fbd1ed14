/**
 * ProductsApiController: the REST endpoints over the product service. Each
 * endpoint is a guard chain that ends in at most one mutating service call;
 * its outcome is an ApiResult instead of an HTTP result object. `modelValid`
 * stands for `ModelState.IsValid`, which the framework fills in before the
 * action runs.
 */
module ApiControllers {
  import opened Products
  import opened Catalog
  import opened Services

  datatype BadRequestReason = IdMismatch | InvalidModel

  datatype ApiResult =
    | OkList(items: seq<Product>)                 // 200 with the list
    | OkProduct(product: Product)                 // 200 with one product
    | NotFound                                    // 404
    | BadRequest(reason: BadRequestReason)        // 400, "ID mismatch" or the ModelState errors
    | Created(location: int, product: Product)    // 201, pointing at GetProduct(location)
    | NoContent                                   // 204

  class ProductsApiController {
    const service: ProductService

    constructor (service: ProductService)
      ensures this.service == service
    {
      this.service := service;
    }

    /** GET api/ProductsApi: always Ok with the current list, even an empty one. */
    method GetProducts() returns (r: ApiResult)
      ensures r == OkList(service.products)
    {
      var all := service.GetAll();
      r := OkList(all);
    }

    /** GET api/ProductsApi/{id}: NotFound exactly when no product has `id`. */
    method GetProduct(id: int) returns (r: ApiResult)
      ensures r == NotFound <==> !HasId(service.products, id)
      ensures r != NotFound ==>
        && IndexOf(service.products, id).Some?
        && r == OkProduct(service.products[IndexOf(service.products, id).value])
        && r.product.id == id
    {
      var product := service.GetById(id);
      if product.None? {
        r := NotFound;
      } else {
        r := OkProduct(product.value);
      }
    }

    /**
     * POST api/ProductsApi: BadRequest without touching the store when the
     * model is invalid; otherwise exactly one Add, and Created with the new id.
     */
    method PostProduct(product: Product, modelValid: bool) returns (r: ApiResult)
      requires service.Valid()
      modifies service
      ensures service.Valid()
      ensures !modelValid ==> r == BadRequest(InvalidModel) && unchanged(service)
      ensures modelValid ==>
        var created := product.(id := old(service.nextId));
        && r == Created(created.id, created)
        && service.products == old(service.products) + [created]
        && service.nextId == old(service.nextId) + 1
        && created.id !in old(service.issued)
        && service.issued == old(service.issued) + {created.id}
      ensures modelValid == PassesValidation(product) && AllValid(old(service.products)) ==> AllValid(service.products)
    {
      if !modelValid {
        return BadRequest(InvalidModel);
      }
      var created := service.Add(product);
      r := Created(created.id, created);
      ValidityIgnoresId(product, created.id);
    }

    /**
     * PUT api/ProductsApi/{id}: the guards run in the order id mismatch, model
     * validity, existence; only when all pass is the product updated, once.
     */
    method PutProduct(id: int, product: Product, modelValid: bool) returns (r: ApiResult)
      requires service.Valid()
      modifies service
      ensures service.Valid()
      ensures id != product.id ==> r == BadRequest(IdMismatch) && unchanged(service)
      ensures id == product.id && !modelValid ==> r == BadRequest(InvalidModel) && unchanged(service)
      ensures id == product.id && modelValid && !HasId(old(service.products), id) ==>
        r == NotFound && unchanged(service)
      ensures id == product.id && modelValid && HasId(old(service.products), id) ==>
        && r == NoContent
        && service.products == UpdateFirst(old(service.products), product)
        && service.nextId == old(service.nextId)
        && service.issued == old(service.issued)
      ensures modelValid == PassesValidation(product) && AllValid(old(service.products)) ==> AllValid(service.products)
    {
      if id != product.id {
        return BadRequest(IdMismatch);
      }
      if !modelValid {
        return BadRequest(InvalidModel);
      }
      var existing := service.GetById(id);
      if existing.None? {
        return NotFound;
      }
      if PassesValidation(product) && AllValid(service.products) {
        UpdateFirstKeepsValid(service.products, product);
      }
      service.Update(product);
      r := NoContent;
    }

    /** DELETE api/ProductsApi/{id}: NotFound without deleting, or exactly one Delete. */
    method DeleteProduct(id: int) returns (r: ApiResult)
      requires service.Valid()
      modifies service
      ensures service.Valid()
      ensures !HasId(old(service.products), id) ==> r == NotFound && unchanged(service)
      ensures HasId(old(service.products), id) ==>
        && r == NoContent
        && service.products == RemoveAll(old(service.products), id)
        && service.nextId == old(service.nextId)
        && service.issued == old(service.issued)
      ensures AllValid(old(service.products)) ==> AllValid(service.products)
    {
      var existing := service.GetById(id);
      if existing.None? {
        return NotFound;
      }
      if AllValid(service.products) {
        RemoveAllKeepsValid(service.products, id);
      }
      service.Delete(id);
      r := NoContent;
    }
  }
}
