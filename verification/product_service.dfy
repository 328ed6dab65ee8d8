/** The product service: check-then-act CRUD over the product repository.
    Every operation returns the repository's new state, its answer, and the
    trace of repository calls it made. */
module ProductService {
  import opened Wrappers
  import opened Text
  import opened Products
  import Repo = ProductRepository

  /** One repository call as it appears in a trace. */
  datatype RepoCall =
    | FindAll
    | FindById(id: int)
    | FindByCategory(category: JString)
    | Save(product: ValidProduct)
    | DeleteById(id: int)
    | ExistsById(id: int)

  datatype Step<T> = Step(store: Repo.Store, value: T, calls: seq<RepoCall>)

  /** `getAllProducts`: every stored product, nothing else. */
  function GetAllProducts(st: Repo.Store): (r: Step<set<ValidProduct>>)
    ensures r.store == st && r.calls == [FindAll]
    ensures forall k :: k in st.rows ==> st.rows[k] in r.value
    ensures Repo.Consistent(st) ==>
              forall p :: p in r.value ==> p.id.Some? && p.id.value in st.rows && st.rows[p.id.value] == p
  {
    Repo.StoredUnderOwnId(st);
    Step(st, Repo.FindAll(st), [FindAll])
  }

  /** `getProductById`: the product stored under `id`, or nothing; a missing
      identity is not an error. */
  function GetProductById(st: Repo.Store, id: int): (r: Step<Option<ValidProduct>>)
    ensures r.store == st && r.calls == [FindById(id)]
    ensures r.value.Some? <==> id in st.rows
    ensures r.value.Some? ==> r.value.value == st.rows[id]
  {
    Step(st, Repo.FindById(st, id), [FindById(id)])
  }

  /** `getProductsByCategory`: exactly the stored products whose category
      equals `category` ignoring case. */
  function GetProductsByCategory(st: Repo.Store, category: JString): (r: Step<set<ValidProduct>>)
    ensures r.store == st && r.calls == [FindByCategory(category)]
    ensures forall k :: k in st.rows ==>
              (st.rows[k] in r.value <==> category.Some? && EqualsIgnoreCase(st.rows[k].category, category.value))
    ensures Repo.Consistent(st) ==>
              forall p :: p in r.value ==> p.id.Some? && p.id.value in st.rows && st.rows[p.id.value] == p
    ensures forall p :: p in r.value ==> category.Some? && EqualsIgnoreCase(p.category, category.value)
  {
    Repo.StoredUnderOwnId(st);
    Step(st, Repo.FindByCategory(st, category), [FindByCategory(category)])
  }

  /** `createProduct`: one save. A product without identity, or with one no
      row holds, lands under an identity no stored row had, and comes back
      carrying it; a product naming a stored row replaces it. Every other row
      is untouched. */
  function CreateProduct(st: Repo.Store, p: ValidProduct): (r: Step<ValidProduct>)
    ensures r.calls == [Save(p)]
    ensures r.value.id.Some?
    ensures r.store.rows == st.rows[r.value.id.value := r.value]
    ensures Repo.Consistent(st) ==> Repo.Consistent(r.store)
    ensures p.id.Some? && p.id.value in st.rows ==> r.value == p
    ensures (p.id.None? || p.id.value !in st.rows) && Repo.Consistent(st) ==>
              && r.value.id.value !in st.rows
              && r.value.name == p.name && r.value.description == p.description
              && r.value.price == p.price && r.value.category == p.category
              && r.value.available == p.available
  {
    var (st', saved) := Repo.Save(st, p);
    Step(st', saved, [Save(p)])
  }

  /** `updateProduct`: an unknown identity gives nothing, with no save and no
      change; a known one is fully replaced by `updated` carrying that
      identity, which is returned. The set of identities never changes and
      no other row is touched. */
  function UpdateProduct(st: Repo.Store, id: int, updated: ValidProduct): (r: Step<Option<ValidProduct>>)
    ensures id !in st.rows ==> r == Step(st, None, [ExistsById(id)])
    ensures id in st.rows ==>
              && r.value == Some(WithId(updated, Some(id)))
              && r.store.rows == st.rows[id := WithId(updated, Some(id))]
              && r.calls == [ExistsById(id), Save(WithId(updated, Some(id)))]
    ensures forall k :: k in r.store.rows <==> k in st.rows
    ensures forall k :: k in st.rows && k != id ==> r.store.rows[k] == st.rows[k]
    ensures Repo.Consistent(st) ==> Repo.Consistent(r.store)
  {
    if !Repo.ExistsById(st, id) then Step(st, None, [ExistsById(id)])
    else
      var toSave := WithId(updated, Some(id));
      var (st', saved) := Repo.Save(st, toSave);
      assert saved == toSave && st'.rows == st.rows[id := toSave];
      Step(st', Some(saved), [ExistsById(id), Save(toSave)])
  }

  /** `deleteProduct`: an unknown identity gives false, with no delete and no
      change; a known one is removed, alone, and gives true. */
  function DeleteProduct(st: Repo.Store, id: int): (r: Step<bool>)
    ensures r.value <==> id in st.rows
    ensures !r.value ==> r == Step(st, false, [ExistsById(id)])
    ensures r.value ==> r.calls == [ExistsById(id), DeleteById(id)]
    ensures r.store.rows.Keys == st.rows.Keys - {id}
    ensures forall k :: k in r.store.rows ==> r.store.rows[k] == st.rows[k]
    ensures Repo.Consistent(st) ==> Repo.Consistent(r.store)
  {
    if !Repo.ExistsById(st, id) then Step(st, false, [ExistsById(id)])
    else Step(Repo.DeleteById(st, id), true, [ExistsById(id), DeleteById(id)])
  }

  /** Creating a product without identity (or with one no row holds) and then
      looking up the identity it was given returns it: equal to the original in every field but the
      identity, which is now present. */
  lemma CreateThenGet(st: Repo.Store, p: ValidProduct)
    requires Repo.Consistent(st) && (p.id.None? || p.id.value !in st.rows)
    ensures var c := CreateProduct(st, p);
            var g := GetProductById(c.store, c.value.id.value);
            && g.value == Some(c.value)
            && c.value == WithId(p, c.value.id)
  {
  }

  /** After a successful delete the identity is gone; a second delete of the
      same identity reports false and changes nothing. */
  lemma DeleteThenGet(st: Repo.Store, id: int)
    requires id in st.rows
    ensures var d := DeleteProduct(st, id);
            && d.value
            && GetProductById(d.store, id).value == None
            && DeleteProduct(d.store, id) == Step(d.store, false, [ExistsById(id)])
  {
  }

  /** After updating a known identity, looking it up gives the replacement. */
  lemma UpdateThenGet(st: Repo.Store, id: int, updated: ValidProduct)
    requires id in st.rows
    ensures var u := UpdateProduct(st, id, updated);
            && GetProductById(u.store, id).value == Some(WithId(updated, Some(id)))
            && u.value == GetProductById(u.store, id).value
  {
  }

  /** Two category names that differ only in case select the same products. */
  lemma CategoryLookupIgnoresCase(st: Repo.Store, c1: string, c2: string)
    requires EqualsIgnoreCase(c1, c2)
    ensures GetProductsByCategory(st, Some(c1)).value == GetProductsByCategory(st, Some(c2)).value
  {
  }

  // ---------------------------------------------------------------------------
  // Sessions

  datatype ProductRequest =
    | GetAllRequest
    | GetByIdRequest(id: int)
    | GetByCategoryRequest(category: JString)
    | CreateRequest(product: ValidProduct)
    | UpdateRequest(id: int, updated: ValidProduct)
    | DeleteRequest(id: int)

  /** Serves one request; returns the new store and the repository calls. */
  function Serve(st: Repo.Store, req: ProductRequest): (r: (Repo.Store, seq<RepoCall>))
    ensures Repo.Consistent(st) ==> Repo.Consistent(r.0)
    ensures r.0.nextId >= st.nextId
    ensures !req.CreateRequest? ==> r.0.rows.Keys <= st.rows.Keys
  {
    match req
    case GetAllRequest => var x := GetAllProducts(st); (x.store, x.calls)
    case GetByIdRequest(id) => var x := GetProductById(st, id); (x.store, x.calls)
    case GetByCategoryRequest(c) => var x := GetProductsByCategory(st, c); (x.store, x.calls)
    case CreateRequest(p) => var x := CreateProduct(st, p); (x.store, x.calls)
    case UpdateRequest(id, u) => var x := UpdateProduct(st, id, u); (x.store, x.calls)
    case DeleteRequest(id) => var x := DeleteProduct(st, id); (x.store, x.calls)
  }

  /** Serves the requests one after another against the same store. */
  function RunSession(st: Repo.Store, reqs: seq<ProductRequest>): (Repo.Store, seq<RepoCall>)
    decreases |reqs|
  {
    if |reqs| == 0 then (st, [])
    else
      var (st1, t1) := Serve(st, reqs[0]);
      var (st2, t2) := RunSession(st1, reqs[1..]);
      (st2, t1 + t2)
  }

  /** Over any session the store stays consistent, the identity counter never
      goes back, and without creations no new identity appears. */
  lemma {:induction false} SessionKeepsStoreConsistent(st: Repo.Store, reqs: seq<ProductRequest>)
    requires Repo.Consistent(st)
    decreases |reqs|
    ensures Repo.Consistent(RunSession(st, reqs).0)
    ensures RunSession(st, reqs).0.nextId >= st.nextId
    ensures (forall i :: 0 <= i < |reqs| ==> !reqs[i].CreateRequest?) ==>
              RunSession(st, reqs).0.rows.Keys <= st.rows.Keys
  {
    if |reqs| > 0 {
      var (st1, _) := Serve(st, reqs[0]);
      SessionKeepsStoreConsistent(st1, reqs[1..]);
    }
  }
}
