/** The product repository port, as its JPA adapter behaves: rows keyed by
    identity, identities handed out by an IDENTITY column that only counts up,
    and a case-insensitive category lookup. */
module ProductRepository {
  import opened Wrappers
  import opened Text
  import opened Products

  /** The stored rows and the next identity the database will hand out. */
  datatype Store = Store(rows: map<int, ValidProduct>, nextId: int)

  /** Every row carries its own key as identity, and every key is below the
      next identity to be handed out. */
  predicate Consistent(st: Store) {
    forall k :: k in st.rows ==> st.rows[k].id == Some(k) && k < st.nextId
  }

  /** `findAll`: the stored products. */
  function FindAll(st: Store): set<ValidProduct> {
    set k | k in st.rows :: st.rows[k]
  }

  /** `findById`. */
  function FindById(st: Store, id: int): Option<ValidProduct> {
    if id in st.rows then Some(st.rows[id]) else None
  }

  /** `findByCategory`, backed by `findByCategoryIgnoreCase`: the stored
      products whose category equals the given one up to case; a null
      category matches none. */
  function FindByCategory(st: Store, category: JString): set<ValidProduct> {
    set k | k in st.rows && category.Some? && EqualsIgnoreCase(st.rows[k].category, category.value) :: st.rows[k]
  }

  /** In a consistent store every product that `findAll` returns is stored
      under its own identity. */
  lemma StoredUnderOwnId(st: Store)
    ensures Consistent(st) ==>
              forall p :: p in FindAll(st) ==> p.id.Some? && p.id.value in st.rows && st.rows[p.id.value] == p
  {
    if Consistent(st) {
      forall p | p in FindAll(st)
        ensures p.id.Some? && p.id.value in st.rows && st.rows[p.id.value] == p
      {
        var k :| k in st.rows && st.rows[k] == p;
      }
    }
  }

  /** `existsById`. */
  predicate ExistsById(st: Store, id: int) {
    id in st.rows
  }

  /** `save`, through JPA's persist-or-merge with an IDENTITY key: a product
      whose identity names a stored row replaces that row; any other product
      (no identity, or one the table does not hold) is inserted under the
      next identity the column hands out, so a caller never chooses a new
      row's key. The saved product is returned. */
  function Save(st: Store, p: ValidProduct): (r: (Store, ValidProduct))
    ensures r.1.id.Some?
    ensures r.0.rows == st.rows[r.1.id.value := r.1]
    ensures r.0.nextId >= st.nextId
    ensures Consistent(st) ==> Consistent(r.0)
    ensures p.id.Some? && p.id.value in st.rows ==> r.1 == p && r.0.nextId == st.nextId
    ensures p.id.None? || p.id.value !in st.rows ==>
              && r.1 == WithId(p, Some(st.nextId))
              && r.0.nextId == st.nextId + 1
              && (Consistent(st) ==> r.1.id.value !in st.rows)
  {
    if p.id.Some? && p.id.value in st.rows then
      (Store(st.rows[p.id.value := p], st.nextId), p)
    else
      var saved := WithId(p, Some(st.nextId));
      (Store(st.rows[st.nextId := saved], st.nextId + 1), saved)
  }

  /** `deleteById`: the row at `id`, if any, is gone; nothing else changes. */
  function DeleteById(st: Store, id: int): (r: Store)
    ensures r.rows.Keys == st.rows.Keys - {id}
    ensures forall k :: k in r.rows ==> r.rows[k] == st.rows[k]
    ensures r.nextId == st.nextId
    ensures Consistent(st) ==> Consistent(r)
  {
    Store(st.rows - {id}, st.nextId)
  }
}
