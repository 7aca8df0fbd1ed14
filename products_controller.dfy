/**
 * ProductsController: the server-rendered pages over the same service. The
 * outcome of each action is a PageResult instead of a view or redirect.
 * `modelValid` stands for `ModelState.IsValid`.
 */
module MvcControllers {
  import opened Products
  import opened Catalog
  import opened Services

  datatype PageResult =
    | ListPage(items: seq<Product>)   // View(products) of Index
    | ProductPage(model: Product)     // View(product): details, confirmation, or the form shown again
    | EmptyForm                       // View() of the blank create form
    | RedirectToIndex                 // RedirectToAction(Index)
    | NotFound                        // 404

  class ProductsController {
    const service: ProductService

    constructor (service: ProductService)
      ensures this.service == service
    {
      this.service := service;
    }

    /** GET Products: the whole list. */
    method Index() returns (r: PageResult)
      ensures r == ListPage(service.products)
    {
      var all := service.GetAll();
      r := ListPage(all);
    }

    /** GET Products/Details/{id}. */
    method Details(id: int) returns (r: PageResult)
      ensures r == NotFound <==> !HasId(service.products, id)
      ensures r != NotFound ==>
        && IndexOf(service.products, id).Some?
        && r == ProductPage(service.products[IndexOf(service.products, id).value])
        && r.model.id == id
    {
      var product := service.GetById(id);
      if product.None? {
        r := NotFound;
      } else {
        r := ProductPage(product.value);
      }
    }

    /** GET Products/Create: the blank form. */
    method CreateForm() returns (r: PageResult)
      ensures r == EmptyForm
    {
      r := EmptyForm;
    }

    /** POST Products/Create: Add and redirect when the model is valid, else show the form again. */
    method Create(product: Product, modelValid: bool) returns (r: PageResult)
      requires service.Valid()
      modifies service
      ensures service.Valid()
      ensures !modelValid ==> r == ProductPage(product) && unchanged(service)
      ensures modelValid ==>
        && r == RedirectToIndex
        && service.products == old(service.products) + [product.(id := old(service.nextId))]
        && service.nextId == old(service.nextId) + 1
        && old(service.nextId) !in old(service.issued)
        && service.issued == old(service.issued) + {old(service.nextId)}
      ensures modelValid == PassesValidation(product) && AllValid(old(service.products)) ==> AllValid(service.products)
    {
      if modelValid {
        var created := service.Add(product);
        ValidityIgnoresId(product, created.id);
        return RedirectToIndex;
      }
      r := ProductPage(product);
    }

    /** GET Products/Edit/{id}. */
    method EditForm(id: int) returns (r: PageResult)
      ensures r == NotFound <==> !HasId(service.products, id)
      ensures r != NotFound ==>
        && IndexOf(service.products, id).Some?
        && r == ProductPage(service.products[IndexOf(service.products, id).value])
        && r.model.id == id
    {
      var product := service.GetById(id);
      if product.None? {
        r := NotFound;
      } else {
        r := ProductPage(product.value);
      }
    }

    /**
     * POST Products/Edit/{id}: an id mismatch is NotFound (the REST endpoint
     * says BadRequest); otherwise Update when the model is valid, with no
     * existence check, so an absent id redirects after a no-op update.
     */
    method Edit(id: int, product: Product, modelValid: bool) returns (r: PageResult)
      requires service.Valid()
      modifies service
      ensures service.Valid()
      ensures id != product.id ==> r == NotFound && unchanged(service)
      ensures id == product.id && !modelValid ==> r == ProductPage(product) && unchanged(service)
      ensures id == product.id && modelValid ==>
        && r == RedirectToIndex
        && service.products == UpdateFirst(old(service.products), product)
        && service.nextId == old(service.nextId)
        && service.issued == old(service.issued)
      ensures id == product.id && modelValid && !HasId(old(service.products), id) ==>
        service.products == old(service.products)
      ensures modelValid == PassesValidation(product) && AllValid(old(service.products)) ==> AllValid(service.products)
    {
      if id != product.id {
        return NotFound;
      }
      if modelValid {
        if PassesValidation(product) && AllValid(service.products) {
          UpdateFirstKeepsValid(service.products, product);
        }
        service.Update(product);
        return RedirectToIndex;
      }
      r := ProductPage(product);
    }

    /** GET Products/Delete/{id}: the confirmation page. */
    method Delete(id: int) returns (r: PageResult)
      ensures r == NotFound <==> !HasId(service.products, id)
      ensures r != NotFound ==>
        && IndexOf(service.products, id).Some?
        && r == ProductPage(service.products[IndexOf(service.products, id).value])
        && r.model.id == id
    {
      var product := service.GetById(id);
      if product.None? {
        r := NotFound;
      } else {
        r := ProductPage(product.value);
      }
    }

    /** POST Products/Delete/{id}: always Delete and redirect; an absent id leaves the store as it was. */
    method DeleteConfirmed(id: int) returns (r: PageResult)
      requires service.Valid()
      modifies service
      ensures service.Valid()
      ensures r == RedirectToIndex
      ensures service.products == RemoveAll(old(service.products), id)
      ensures service.nextId == old(service.nextId) && service.issued == old(service.issued)
      ensures !HasId(old(service.products), id) ==> service.products == old(service.products)
      ensures AllValid(old(service.products)) ==> AllValid(service.products)
    {
      if AllValid(service.products) {
        RemoveAllKeepsValid(service.products, id);
      }
      service.Delete(id);
      r := RedirectToIndex;
    }
  }
}
