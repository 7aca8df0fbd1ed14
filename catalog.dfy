/**
 * The product table as a value: the queries and edits that ProductService
 * performs on its list (FirstOrDefault, RemoveAll, the field copy of Update),
 * the invariants the service keeps, and the lemmas that connect them.
 */
module Catalog {
  import opened Products

  datatype Option<T> = None | Some(value: T)

  /** The three rows the catalogue starts with (prices in cents). */
  const Seed: seq<Product> := [
    Product(1, "Laptop", "High-performance laptop for professionals", 99_999, 10),
    Product(2, "Mouse", "Wireless ergonomic mouse with precision tracking", 2_999, 50),
    Product(3, "Keyboard", "Mechanical keyboard with RGB backlighting", 8_999, 25)
  ]

  predicate HasId(s: seq<Product>, id: int)
  {
    exists i | 0 <= i < |s| :: s[i].id == id
  }

  /** Every stored id is positive and below `next`. */
  predicate IdsBelow(s: seq<Product>, next: int)
  {
    forall i | 0 <= i < |s| :: 1 <= s[i].id < next
  }

  /** No two stored products share an id. */
  predicate DistinctIds(s: seq<Product>)
  {
    forall i, j | 0 <= i < j < |s| :: s[i].id != s[j].id
  }

  predicate AllValid(s: seq<Product>)
  {
    forall i | 0 <= i < |s| :: PassesValidation(s[i])
  }

  /** The position `FirstOrDefault(p => p.Id == id)` stops at, if any. */
  function IndexOf(s: seq<Product>, id: int): (r: Option<nat>)
    ensures r.None? <==> !HasId(s, id)
    ensures r.Some? ==> r.value < |s| && s[r.value].id == id
    ensures r.Some? ==> forall j | 0 <= j < r.value :: s[j].id != id
  {
    if |s| == 0 then None
    else if s[0].id == id then Some(0)
    else
      match IndexOf(s[1..], id)
      case None =>
        assert forall i | 1 <= i < |s| :: s[i] == s[1..][i - 1];
        None
      case Some(k) => Some(k + 1)
  }

  /** `List.RemoveAll(p => p.Id == id)`: drop every product with `id`, keep the rest in order. */
  function RemoveAll(s: seq<Product>, id: int): (r: seq<Product>)
    ensures |r| <= |s|
    ensures !HasId(r, id)
    ensures !HasId(s, id) ==> r == s
    ensures HasId(s, id) ==> |r| < |s|
  {
    if |s| == 0 then []
    else if s[0].id == id then RemoveAll(s[1..], id)
    else
      assert !HasId(s, id) ==> !HasId(s[1..], id) by {
        forall i | 0 <= i < |s| - 1 ensures s[1..][i] == s[i + 1] { }
      }
      [s[0]] + RemoveAll(s[1..], id)
  }

  /** The stored product after `Update(p)` assigned the four business fields onto it. */
  function CopyFields(existing: Product, p: Product): (r: Product)
    ensures r.id == existing.id
    ensures r.(id := p.id) == p
  {
    existing.(name := p.name, description := p.description, price := p.price, quantity := p.quantity)
  }

  /** `Update(p)`: the first product with `p.id` takes `p`'s business fields; with none, nothing changes. */
  function UpdateFirst(s: seq<Product>, p: Product): seq<Product>
  {
    match IndexOf(s, p.id)
    case None => s
    case Some(k) => s[k := CopyFields(s[k], p)]
  }

  // ---------------------------------------------------------------------------
  // RemoveAll: an order-preserving filter

  /** Removing from a concatenation removes from each part: together with RemoveAllSingle this pins RemoveAll down as the order-preserving filter. */
  lemma {:induction false} RemoveAllAppend(a: seq<Product>, b: seq<Product>, id: int)
    ensures RemoveAll(a + b, id) == RemoveAll(a, id) + RemoveAll(b, id)
  {
    if |a| == 0 {
      assert a + b == b;
    } else {
      assert (a + b)[1..] == a[1..] + b;
      RemoveAllAppend(a[1..], b, id);
    }
  }

  /** RemoveAll keeps exactly the products whose id differs. */
  lemma {:induction false} RemoveAllMembers(s: seq<Product>, id: int)
    ensures forall x | x in RemoveAll(s, id) :: x in s && x.id != id
    ensures forall x | x in s && x.id != id :: x in RemoveAll(s, id)
  {
    if |s| > 0 {
      RemoveAllMembers(s[1..], id);
      assert s == [s[0]] + s[1..];
    }
  }

  lemma RemoveAllSingle(x: Product, id: int)
    ensures RemoveAll([x], id) == if x.id == id then [] else [x]
  {
  }

  /** Deleting twice is deleting once. */
  lemma RemoveAllIdempotent(s: seq<Product>, id: int)
    ensures RemoveAll(RemoveAll(s, id), id) == RemoveAll(s, id)
  {
  }

  /** With distinct ids, deleting an id that is stored at `k` removes exactly position `k`. */
  lemma {:induction false} RemoveAllRemovesOne(s: seq<Product>, id: int, k: nat)
    requires DistinctIds(s)
    requires k < |s| && s[k].id == id
    ensures RemoveAll(s, id) == s[..k] + s[k + 1..]
  {
    if k == 0 {
      assert !HasId(s[1..], id) by {
        forall i | 0 <= i < |s| - 1 ensures s[1..][i].id != id {
          assert s[1..][i] == s[i + 1];
        }
      }
      assert s[k + 1..] == s[1..];
    } else {
      assert DistinctIds(s[1..]) by {
        forall i, j | 0 <= i < j < |s| - 1 ensures s[1..][i].id != s[1..][j].id {
          assert s[1..][i] == s[i + 1] && s[1..][j] == s[j + 1];
        }
      }
      assert s[0].id != id;
      RemoveAllRemovesOne(s[1..], id, k - 1);
      assert s[1..][..k - 1] == s[1..k];
      assert s[1..][k..] == s[k + 1..];
      assert [s[0]] + s[1..k] == s[..k];
    }
  }

  /** Prepending a product whose id no element carries keeps the ids distinct. */
  lemma DistinctCons(x: Product, t: seq<Product>)
    requires DistinctIds(t)
    requires forall j | 0 <= j < |t| :: t[j].id != x.id
    ensures DistinctIds([x] + t)
  {
  }

  /** Filtering keeps ids pairwise distinct. */
  lemma {:induction false} RemoveAllKeepsDistinct(s: seq<Product>, id: int)
    requires DistinctIds(s)
    ensures DistinctIds(RemoveAll(s, id))
  {
    if |s| > 0 {
      var t := s[1..];
      assert DistinctIds(t) by {
        forall i, j | 0 <= i < j < |t| ensures t[i].id != t[j].id {
          assert t[i] == s[i + 1] && t[j] == s[j + 1];
        }
      }
      RemoveAllKeepsDistinct(t, id);
      if s[0].id != id {
        var rt := RemoveAll(t, id);
        assert RemoveAll(s, id) == [s[0]] + rt;
        forall j | 0 <= j < |rt| ensures rt[j].id != s[0].id {
          RemoveAllMembers(t, id);
          assert rt[j] in t;
          var m :| 0 <= m < |t| && t[m] == rt[j];
          assert t[m] == s[m + 1];
        }
        DistinctCons(s[0], rt);
      }
    }
  }

  /** Filtering keeps ids positive, below the counter and pairwise distinct. */
  lemma RemoveAllKeepsInvariant(s: seq<Product>, id: int, next: int)
    requires IdsBelow(s, next) && DistinctIds(s)
    ensures IdsBelow(RemoveAll(s, id), next) && DistinctIds(RemoveAll(s, id))
  {
    RemoveAllMembers(s, id);
    RemoveAllKeepsDistinct(s, id);
  }

  lemma RemoveAllKeepsValid(s: seq<Product>, id: int)
    requires AllValid(s)
    ensures AllValid(RemoveAll(s, id))
  {
  }

  // ---------------------------------------------------------------------------
  // UpdateFirst: only the business fields of the match change

  /** Update never changes the length nor any id, so every id invariant survives it. */
  lemma UpdateFirstKeepsIds(s: seq<Product>, p: Product)
    ensures |UpdateFirst(s, p)| == |s|
    ensures forall i | 0 <= i < |s| :: UpdateFirst(s, p)[i].id == s[i].id
  {
  }

  /**
   * With distinct ids the first match is the only match: every product with
   * `p.id` takes `p`'s business fields, every other product is untouched; and
   * because the match already carries `p.id`, it becomes `p` itself.
   */
  lemma UpdateFirstPointwise(s: seq<Product>, p: Product)
    requires DistinctIds(s)
    ensures |UpdateFirst(s, p)| == |s|
    ensures forall i | 0 <= i < |s| ::
      UpdateFirst(s, p)[i] == if s[i].id == p.id then p else s[i]
  {
  }

  lemma UpdateFirstKeepsInvariant(s: seq<Product>, p: Product, next: int)
    requires IdsBelow(s, next) && DistinctIds(s)
    ensures IdsBelow(UpdateFirst(s, p), next) && DistinctIds(UpdateFirst(s, p))
  {
  }

  /** Storing a valid submission keeps the whole table valid. */
  lemma UpdateFirstKeepsValid(s: seq<Product>, p: Product)
    requires AllValid(s) && PassesValidation(p)
    ensures AllValid(UpdateFirst(s, p))
  {
  }

  // ---------------------------------------------------------------------------
  // Add: append under a fresh id

  /** Appending a product under the counter's id keeps the invariant with the counter bumped. */
  lemma AppendFreshKeepsInvariant(s: seq<Product>, p: Product, next: int)
    requires 1 <= next
    requires IdsBelow(s, next) && DistinctIds(s)
    ensures IdsBelow(s + [p.(id := next)], next + 1)
    ensures DistinctIds(s + [p.(id := next)])
  {
  }

  /** A freshly added product is found again by its new id, with every business field as submitted. */
  lemma {:induction false} AddThenFind(s: seq<Product>, p: Product, next: int)
    requires IdsBelow(s, next)
    ensures IndexOf(s + [p.(id := next)], next) == Some(|s|)
  {
    var t := s + [p.(id := next)];
    assert t[|s|].id == next;
    assert forall j | 0 <= j < |s| :: t[j] == s[j];
    match IndexOf(t, next)
    case None =>
      assert false;
    case Some(k) =>
      if k < |s| {
        assert false;
      }
  }

  /** An id the counter has not handed out yet (or a non-positive one) is never found. */
  lemma NeverIssuedAbsent(s: seq<Product>, next: int, id: int)
    requires IdsBelow(s, next)
    requires id < 1 || next <= id
    ensures IndexOf(s, id) == None
  {
  }

  /** The seed satisfies the table invariant with the counter at 4, and every seeded row is valid. */
  lemma SeedInvariant()
    ensures IdsBelow(Seed, 4) && DistinctIds(Seed)
    ensures AllValid(Seed)
  {
    LaptopValid();
    MouseValid();
    KeyboardValid();
  }

  // One lemma per seeded row: computing the length of a long literal is costly.
  // The last character of each literal is the cheapest one for the solver to name.

  lemma LaptopValid()
    ensures PassesValidation(Seed[0])
  {
    assert !IsWhiteSpace("Laptop"[5]) && !IsWhiteSpace("High-performance laptop for professionals"[40]);
  }

  lemma MouseValid()
    ensures PassesValidation(Seed[1])
  {
    assert !IsWhiteSpace("Mouse"[4]) && !IsWhiteSpace("Wireless ergonomic mouse with precision tracking"[47]);
  }

  lemma KeyboardValid()
    ensures PassesValidation(Seed[2])
  {
    assert !IsWhiteSpace("Keyboard"[7]) && !IsWhiteSpace("Mechanical keyboard with RGB backlighting"[40]);
  }
}
