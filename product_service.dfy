/**
 * ProductService: the in-memory product table and its id counter. The list is
 * the field `products`, the counter `nextId`; `issued` is a ghost history of
 * every id the service has ever handed out (the seed's included), so that
 * "ids are never reused" can be stated on the state.
 */
module Services {
  import opened Products
  import opened Catalog

  class ProductService {
    var products: seq<Product>
    var nextId: int
    ghost var issued: set<int>

    /**
     * The table invariant: stored ids are distinct, positive and below the
     * counter; every stored id was issued; every issued id is below the counter.
     */
    ghost predicate Valid()
      reads this
    {
      && 1 <= nextId
      && IdsBelow(products, nextId)
      && DistinctIds(products)
      && (forall i | 0 <= i < |products| :: products[i].id in issued)
      && (forall k | k in issued :: 1 <= k < nextId)
    }

    /** The seeded catalogue: ids 1 to 3, the counter at 4. */
    constructor ()
      ensures Valid()
      ensures products == Seed && nextId == 4 && issued == {1, 2, 3}
    {
      products := Seed;
      nextId := 4;
      issued := {1, 2, 3};
      SeedInvariant();
    }

    /** The whole list, as a value. */
    method GetAll() returns (all: seq<Product>)
      ensures all == products
    {
      all := products;
    }

    /** The first product carrying `id`, or None. */
    method GetById(id: int) returns (found: Option<Product>)
      ensures found.None? <==> !HasId(products, id)
      ensures found.Some? ==> found.value.id == id
      ensures found.Some? ==> IndexOf(products, id).Some? && found.value == products[IndexOf(products, id).value]
    {
      match IndexOf(products, id)
      case None =>
        found := None;
      case Some(k) =>
        found := Some(products[k]);
    }

    /**
     * Gives `p` the next id and appends it. `Add` also writes the new id into
     * the caller's object; the model returns the stored value instead.
     */
    method Add(p: Product) returns (created: Product)
      requires Valid()
      modifies this
      ensures Valid()
      ensures created == p.(id := old(nextId))
      ensures nextId == old(nextId) + 1
      ensures products == old(products) + [created]
      ensures created.id !in old(issued) && issued == old(issued) + {created.id}
    {
      created := p.(id := nextId);
      AppendFreshKeepsInvariant(products, p, nextId);
      issued := issued + {nextId};
      nextId := nextId + 1;
      products := products + [created];
    }

    /**
     * Copies name, description, price and quantity of `p` onto the first
     * stored product with `p.id`; does nothing if there is none.
     */
    method Update(p: Product)
      requires Valid()
      modifies this
      ensures Valid()
      ensures nextId == old(nextId) && issued == old(issued)
      ensures products == UpdateFirst(old(products), p)
      ensures |products| == |old(products)|
      ensures forall i | 0 <= i < |products| ::
        products[i] == if old(products)[i].id == p.id then CopyFields(old(products)[i], p) else old(products)[i]
      ensures !HasId(old(products), p.id) ==> products == old(products)
    {
      UpdateFirstPointwise(products, p);
      UpdateFirstKeepsInvariant(products, p, nextId);
      UpdateFirstKeepsIds(products, p);
      match IndexOf(products, p.id)
      case None =>
      case Some(k) =>
        products := products[k := CopyFields(products[k], p)];
    }

    /** Removes every stored product with `id`; the counter is untouched. */
    method Delete(id: int)
      requires Valid()
      modifies this
      ensures Valid()
      ensures nextId == old(nextId) && issued == old(issued)
      ensures products == RemoveAll(old(products), id)
      ensures !HasId(products, id)
      ensures !HasId(old(products), id) ==> products == old(products)
    {
      RemoveAllKeepsInvariant(products, id, nextId);
      RemoveAllMembers(products, id);
      products := RemoveAll(products, id);
    }
  }
}
