/**
 * The id counter as written: `_nextId` is a C# `int`, and `_nextId++` runs in
 * C#'s default unchecked context, so after int.MaxValue it wraps to
 * int.MinValue and counts up again. This module models that counter and shows
 * the consequence: a long-running catalogue eventually hands out id 1 a second
 * time while the seeded Laptop still holds it. The rest of the model
 * (Services.ProductService) uses an unbounded counter, for which
 * ProductService.Add proves that an id is never handed out twice.
 */
module IdCounter {
  import opened Products
  import opened Catalog

  const MinInt32: int := -0x8000_0000

  predicate InInt32(n: int) { MinInt32 <= n <= MaxInt32 }

  /** `_nextId++` on a 32-bit int without overflow checking. */
  function Increment32(n: int): (r: int)
    requires InInt32(n)
    ensures InInt32(r)
    ensures (r - n - 1) % 0x1_0000_0000 == 0
  {
    if n == MaxInt32 then MinInt32 else n + 1
  }

  /** The service's state with a 32-bit counter. */
  datatype Table32 = Table32(products: seq<Product>, nextId: int)

  /** `Add` as written. */
  function Add32(t: Table32, p: Product): (r: Table32)
    requires InInt32(t.nextId)
    ensures InInt32(r.nextId)
    ensures r.products == t.products + [p.(id := t.nextId)]
  {
    Table32(t.products + [p.(id := t.nextId)], Increment32(t.nextId))
  }

  /** `Delete` as written: the counter is untouched. */
  function Delete32(t: Table32, id: int): Table32
  {
    Table32(RemoveAll(t.products, id), t.nextId)
  }

  /** `k` rounds of adding `p` and deleting it again under the id it received. */
  function Churn(t: Table32, p: Product, k: nat): (r: Table32)
    requires InInt32(t.nextId)
    ensures InInt32(r.nextId)
    decreases k
  {
    if k == 0 then t else Churn(Delete32(Add32(t, p), t.nextId), p, k - 1)
  }

  /** Every stored id lies in 1..3, as for the seed. */
  predicate SeedIds(s: seq<Product>)
  {
    forall i | 0 <= i < |s| :: 1 <= s[i].id <= 3
  }

  /** One round of adding and deleting under an id the table does not hold only moves the counter. */
  lemma ChurnStep(s: seq<Product>, p: Product, n: int)
    requires InInt32(n) && !HasId(s, n)
    ensures Delete32(Add32(Table32(s, n), p), n) == Table32(s, Increment32(n))
  {
    RemoveAllAppend(s, [p.(id := n)], n);
  }

  /** From a counter in 4..int.MaxValue, enough rounds bring it to int.MinValue with the rows unchanged. */
  lemma {:induction false} ChurnToWrap(s: seq<Product>, p: Product, n: int)
    requires SeedIds(s)
    requires 4 <= n <= MaxInt32
    ensures Churn(Table32(s, n), p, MaxInt32 - n + 1) == Table32(s, MinInt32)
    decreases MaxInt32 - n
  {
    ChurnStep(s, p, n);
    if n < MaxInt32 {
      ChurnToWrap(s, p, n + 1);
    }
  }

  /** From a negative or zero counter, enough rounds bring it to 1 with the rows unchanged. */
  lemma {:induction false} ChurnToOne(s: seq<Product>, p: Product, m: int)
    requires SeedIds(s)
    requires MinInt32 <= m <= 1
    ensures Churn(Table32(s, m), p, 1 - m) == Table32(s, 1)
    decreases 1 - m
  {
    if m < 1 {
      ChurnStep(s, p, m);
      ChurnToOne(s, p, m + 1);
    }
  }

  /** Churning `a + b` rounds is churning `a` rounds, then `b`. */
  lemma {:induction false} ChurnCompose(t: Table32, p: Product, a: nat, b: nat)
    requires InInt32(t.nextId)
    ensures Churn(t, p, a + b) == Churn(Churn(t, p, a), p, b)
    decreases a
  {
    if a > 0 {
      ChurnCompose(Delete32(Add32(t, p), t.nextId), p, a - 1, b);
    }
  }

  /** From any counter in 4..int.MaxValue, a full turn of the counter brings it to 1 with the rows unchanged. */
  lemma ChurnFullTurn(s: seq<Product>, p: Product, n: int)
    requires SeedIds(s)
    requires 4 <= n <= MaxInt32
    ensures Churn(Table32(s, n), p, (MaxInt32 - n + 1) + (1 - MinInt32)) == Table32(s, 1)
  {
    ChurnCompose(Table32(s, n), p, MaxInt32 - n + 1, 1 - MinInt32);
    ChurnToWrap(s, p, n);
    ChurnToOne(s, p, MinInt32);
  }

  lemma SeedIdsHold()
    ensures SeedIds(Seed)
  {
  }

  /**
   * Starting from the seed, 4_294_967_293 rounds of adding a product and
   * deleting it leave the three seeded rows in place with the counter back at 1.
   */
  lemma SeedCounterWraps(p: Product)
    ensures Churn(Table32(Seed, 4), p, 4_294_967_293) == Table32(Seed, 1)
  {
    SeedIdsHold();
    ChurnFullTurn(Seed, p, 4);
  }

  /** In that state the next Add stores a second product with id 1, next to the seeded Laptop. */
  lemma SeedIdReissued(p: Product)
    ensures var t := Add32(Table32(Seed, 1), p).products;
      |t| == 4 && t[0].id == 1 && t[3].id == 1 && !DistinctIds(t)
  {
  }
}
