/** The product value object. Its canonical constructor rejects a blank name,
    a missing or non-positive price and a blank category, and stores name and
    category trimmed; `create` and `withId` go through that constructor. The
    BigDecimal price is kept as an exact real number. */
module Products {
  import opened Wrappers
  import opened Text

  datatype Product = Product(
    id: Option<int>,
    name: string,
    description: JString,
    price: real,
    category: string,
    available: bool)

  /** What the constructor guarantees of every Product it lets through. */
  predicate Invariant(p: Product) {
    && |p.name| > 0 && IsTrimmed(p.name)
    && p.price > 0.0
    && |p.category| > 0 && IsTrimmed(p.category)
  }

  /** The only products a Java program can hold. */
  type ValidProduct = p: Product | Invariant(p)
    witness Product(None, "p", None, 1.0, "c", true)

  datatype ProductViolation = NameBlank | PriceNotPositive | CategoryBlank

  /** The trimmed form of a non-blank string is a non-empty trimmed string. */
  lemma TrimmedNonBlank(s: string)
    requires !IsBlank(s)
    ensures |Trim(s)| > 0 && IsTrimmed(Trim(s))
  {
    TrimOfNonBlankIsNonEmpty(s);
  }

  /** The canonical constructor `new Product(id, name, description, price,
      category, available)`. It fails on the first broken rule, in the order
      name, price, category; on success it keeps every field as given except
      name and category, which it trims. */
  function NewProduct(id: Option<int>, name: JString, description: JString, price: Option<real>,
                      category: JString, available: bool): (r: Result<ValidProduct, ProductViolation>)
    ensures r.Ok? <==> !IsNullOrBlank(name) && price.Some? && price.value > 0.0 && !IsNullOrBlank(category)
    ensures IsNullOrBlank(name) ==> r == Err(NameBlank)
    ensures !IsNullOrBlank(name) && (price.None? || price.value <= 0.0) ==> r == Err(PriceNotPositive)
    ensures !IsNullOrBlank(name) && price.Some? && price.value > 0.0 && IsNullOrBlank(category) ==>
              r == Err(CategoryBlank)
    ensures r.Ok? ==>
              && r.value.id == id && r.value.description == description
              && r.value.price == price.value && r.value.available == available
              && r.value.name == Trim(name.value) && r.value.category == Trim(category.value)
  {
    if IsNullOrBlank(name) then Err(NameBlank)
    else if price.None? || price.value <= 0.0 then Err(PriceNotPositive)
    else if IsNullOrBlank(category) then Err(CategoryBlank)
    else
      var n := Trim(name.value);
      var c := Trim(category.value);
      TrimmedNonBlank(name.value);
      TrimmedNonBlank(category.value);
      var p := Product(id, n, description, price.value, c, available);
      assert Invariant(p);
      Ok(p)
  }

  /** Constructing a product again from the fields of a product gives back that
      same product: the constructor's trimming is idempotent. */
  lemma ReconstructIsIdentity(p: ValidProduct)
    ensures NewProduct(p.id, Some(p.name), p.description, Some(p.price), Some(p.category), p.available) == Ok(p)
  {
    assert !IsBlank(p.name) by {
      assert !IsSpace(p.name[0]);
    }
    assert !IsBlank(p.category) by {
      assert !IsSpace(p.category[0]);
    }
    TrimmedIsFixedPoint(p.name);
    TrimmedIsFixedPoint(p.category);
    var r := NewProduct(p.id, Some(p.name), p.description, Some(p.price), Some(p.category), p.available);
    assert r.Ok?;
    assert r.value.name == p.name && r.value.category == p.category;
  }

  /** Trimming the name or category before constructing changes nothing. */
  lemma ConstructorAbsorbsTrim(id: Option<int>, name: string, description: JString, price: Option<real>,
                               category: string, available: bool)
    ensures NewProduct(id, Some(Trim(name)), description, price, Some(Trim(category)), available)
            == NewProduct(id, Some(name), description, price, Some(category), available)
  {
    TrimIdempotent(name);
    TrimIdempotent(category);
    BlankIffTrimsToEmpty(name);
    BlankIffTrimsToEmpty(Trim(name));
    BlankIffTrimsToEmpty(category);
    BlankIffTrimsToEmpty(Trim(category));
  }

  /** `Product.create`: a product without identity, available, with the
      other fields as the constructor leaves them. */
  function Create(name: JString, description: JString, price: Option<real>, category: JString)
    : (r: Result<ValidProduct, ProductViolation>)
    ensures r.Ok? <==> !IsNullOrBlank(name) && price.Some? && price.value > 0.0 && !IsNullOrBlank(category)
    ensures r.Ok? ==>
              && r.value.id == None && r.value.available
              && r.value.name == Trim(name.value) && r.value.category == Trim(category.value)
              && r.value.description == description && r.value.price == price.value
    ensures r.Err? ==> r == NewProduct(None, name, description, price, category, true)
  {
    NewProduct(None, name, description, price, category, true)
  }

  /** `withId`: a copy carrying identity `id`, rebuilt through the constructor,
      which cannot fail on the fields of a product. */
  function WithId(p: ValidProduct, id: Option<int>): (r: ValidProduct)
    ensures r.id == id
    ensures r.name == p.name && r.description == p.description && r.price == p.price
    ensures r.category == p.category && r.available == p.available
  {
    ReconstructIsIdentity(p);
    NewProduct(id, Some(p.name), p.description, Some(p.price), Some(p.category), p.available).value
  }

  /** Re-identifying twice keeps only the last identity, and re-identifying
      with the product's own identity is the identity. */
  lemma WithIdLastWins(p: ValidProduct, i: Option<int>, j: Option<int>)
    ensures WithId(WithId(p, i), j) == WithId(p, j)
    ensures WithId(p, p.id) == p
  {
  }
}
