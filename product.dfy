/**
 * The `Product` entity and the data-annotation rules that decide whether a
 * submitted product is valid (what the framework writes into ModelState).
 */
module Products {

  /** Largest value of a C# `int`. */
  const MaxInt32: int := 0x7FFF_FFFF

  /**
   * A catalogue entry. `price` counts cents: the decimal 999.99 is 99_999.
   * `quantity` is a C# `int`, so it never exceeds MaxInt32.
   */
  datatype Product = Product(id: int, name: string, description: string, price: int, quantity: int)

  /** A product whose properties all hold their C# defaults (`string.Empty`, 0). */
  const DefaultProduct: Product := Product(0, "", "", 0, 0)

  /** The properties that carry validation attributes. */
  datatype Field = NameField | DescriptionField | PriceField | QuantityField

  /** The characters for which .NET's `char.IsWhiteSpace` holds. */
  predicate IsWhiteSpace(c: char)
  {
    || ('\t' <= c <= '\r')
    || c == ' ' || c == '\U{85}' || c == '\U{A0}' || c == '\U{1680}'
    || ('\U{2000}' <= c <= '\U{200A}')
    || c == '\U{2028}' || c == '\U{2029}' || c == '\U{202F}' || c == '\U{205F}' || c == '\U{3000}'
  }

  /** `string.IsNullOrWhiteSpace` on a non-null string: what `[Required]` rejects. */
  predicate IsWhiteSpaceOnly(s: string)
  {
    forall i | 0 <= i < |s| :: IsWhiteSpace(s[i])
  }

  /** `[Required]` together with `[StringLength(max, MinimumLength = min)]`. */
  predicate RequiredWithLength(s: string, min: nat, max: nat)
  {
    !IsWhiteSpaceOnly(s) && min <= |s| <= max
  }

  predicate NameOk(name: string) { RequiredWithLength(name, 2, 100) }

  predicate DescriptionOk(description: string) { RequiredWithLength(description, 10, 500) }

  /** `[Range(0.01, 999999.99)]` in cents; `[Required]` always holds of a non-nullable decimal. */
  predicate PriceOk(cents: int) { 1 <= cents <= 99_999_999 }

  /** `[Range(0, int.MaxValue)]`. */
  predicate QuantityOk(quantity: int) { 0 <= quantity <= MaxInt32 }

  /** The properties that carry at least one validation error. */
  function Violations(p: Product): set<Field>
  {
    (if NameOk(p.name) then {} else {NameField})
    + (if DescriptionOk(p.description) then {} else {DescriptionField})
    + (if PriceOk(p.price) then {} else {PriceField})
    + (if QuantityOk(p.quantity) then {} else {QuantityField})
  }

  /** `ModelState.IsValid` for a submitted product whose fields were all bound. */
  predicate PassesValidation(p: Product)
  {
    Violations(p) == {}
  }

  /** Validity, in terms of the raw bounds of each field. */
  lemma ValidBounds(p: Product)
    ensures PassesValidation(p) <==>
      && 2 <= |p.name| <= 100 && !IsWhiteSpaceOnly(p.name)
      && 10 <= |p.description| <= 500 && !IsWhiteSpaceOnly(p.description)
      && 1 <= p.price <= 99_999_999
      && 0 <= p.quantity <= MaxInt32
  {
  }

  /** Validity never looks at the identifier. */
  lemma ValidityIgnoresId(p: Product, id: int)
    ensures Violations(p.(id := id)) == Violations(p)
    ensures PassesValidation(p.(id := id)) <==> PassesValidation(p)
  {
  }

  /** A default-constructed product fails on name, description and price (but not quantity). */
  lemma DefaultProductInvalid()
    ensures Violations(DefaultProduct) == {NameField, DescriptionField, PriceField}
    ensures !PassesValidation(DefaultProduct)
  {
  }

  /** A name of spaces only is rejected by `[Required]` even when its length is in range. */
  lemma WhiteSpaceNameInvalid(p: Product)
    requires IsWhiteSpaceOnly(p.name)
    ensures NameField in Violations(p) && !PassesValidation(p)
  {
  }

  /** A valid product's name holds at least one visible character. */
  lemma ValidNameHasVisibleChar(p: Product)
    requires PassesValidation(p)
    ensures exists i | 0 <= i < |p.name| :: !IsWhiteSpace(p.name[i])
  {
  }

  /** A submission with an empty name and a one-letter description is rejected citing both fields. */
  lemma EmptyNameRejected()
    ensures Violations(Product(0, "", "x", 1000, 1)) == {NameField, DescriptionField}
  {
  }

  /** A monitor priced 349.99 with 12 in stock passes every rule. */
  lemma MonitorAccepted()
    ensures PassesValidation(Product(0, "Monitor", "27-inch 4K display for creative work", 34_999, 12))
  {
    assert !IsWhiteSpace("Monitor"[6]);
    assert !IsWhiteSpace("27-inch 4K display for creative work"[35]);
  }
}
