/**
 The data-access layer: reading and writing the user list, the product
 list and one user's cart or purchase history. Each operation reads a
 whole document, changes it and writes it back, so each is a function
 from the store before to the store after, and leaves every other
 document as it was.
 */
module Repository {
  import opened ArrayOps
  import opened Domain

  /** `saveUser`: replace the user with the same id in place, or append. */
  function SaveUser(s: Store, u: User): (r: Store)
    ensures r.products == s.products && r.carts == s.carts
    ensures r.purchases == s.purchases && r.currentUserId == s.currentUserId
    ensures HasKey(s.users, UserId, u.id) ==>
      exists i :: 0 <= i < |s.users| && s.users[i].id == u.id && r.users == s.users[i := u]
    ensures !HasKey(s.users, UserId, u.id) ==> r.users == s.users + [u]
    ensures FindByKey(r.users, UserId, u.id) == Some(u)
    ensures UniqueBy(s.users, UserId) ==> UniqueBy(r.users, UserId)
  {
    s.(users := Upsert(s.users, u, UserId))
  }

  /** `productById`: the first product with the given id, if any. */
  function ProductById(s: Store, id: Id): (r: Option<Product>)
    ensures r.Some? ==> r.value in s.products && r.value.id == id
    ensures r.None? <==> forall i :: 0 <= i < |s.products| ==> s.products[i].id != id
  {
    FindByKey(s.products, ProductId, id)
  }

  /** `saveProduct`: replace the product with the same id in place, or append. */
  function SaveProduct(s: Store, p: Product): (r: Store)
    ensures r.users == s.users && r.carts == s.carts
    ensures r.purchases == s.purchases && r.currentUserId == s.currentUserId
    ensures HasKey(s.products, ProductId, p.id) ==>
      exists i :: 0 <= i < |s.products| && s.products[i].id == p.id && r.products == s.products[i := p]
    ensures !HasKey(s.products, ProductId, p.id) ==> r.products == s.products + [p]
    ensures ProductById(r, p.id) == Some(p)
    ensures UniqueBy(s.products, ProductId) ==> UniqueBy(r.products, ProductId)
  {
    s.(products := Upsert(s.products, p, ProductId))
  }

  /** `deleteProduct`: drop every product with the given id. */
  function DeleteProduct(s: Store, id: Id): (r: Store)
    ensures r.users == s.users && r.carts == s.carts
    ensures r.purchases == s.purchases && r.currentUserId == s.currentUserId
    ensures ProductById(r, id) == None
    ensures forall p :: p in r.products <==> p in s.products && p.id != id
    ensures ProductById(s, id) == None ==> r == s
  {
    s.(products := RemoveKey(s.products, ProductId, id))
  }

  /** Deleting keeps the other products in their order: deleting from a
      concatenation deletes from each part. */
  lemma DeleteProductKeepsOrder(s: Store, id: Id, k: nat)
    requires k <= |s.products|
    ensures DeleteProduct(s, id).products
         == DeleteProduct(s.(products := s.products[..k]), id).products
          + DeleteProduct(s.(products := s.products[k..]), id).products
  {
    assert s.products == s.products[..k] + s.products[k..];
    RemoveKeyConcat(s.products[..k], s.products[k..], ProductId, id);
  }

  /** Saving a product and then deleting its id leaves no product with that id. */
  lemma SaveThenDelete(s: Store, p: Product)
    ensures ProductById(SaveProduct(s, p), p.id) == Some(p)
    ensures ProductById(DeleteProduct(SaveProduct(s, p), p.id), p.id) == None
    ensures p !in DeleteProduct(SaveProduct(s, p), p.id).products
  {
  }

  /** `userCart`: the user's cart, or the empty cart when there is none. */
  function UserCart(s: Store, u: Id): (r: seq<CartLine>)
    ensures u !in s.carts ==> r == []
    ensures u in s.carts ==> r == s.carts[u]
  {
    if u in s.carts then s.carts[u] else []
  }

  /** The user's purchase history, or the empty history when there is none. */
  function UserPurchases(s: Store, u: Id): (r: seq<Purchase>)
    ensures u !in s.purchases ==> r == []
    ensures u in s.purchases ==> r == s.purchases[u]
  {
    if u in s.purchases then s.purchases[u] else []
  }

  /** `setUserCart`: overwrite the user's cart and no other. */
  function SetUserCart(s: Store, u: Id, items: seq<CartLine>): (r: Store)
    ensures UserCart(r, u) == items
    ensures u in r.carts
    ensures forall v :: v != u ==> (v in r.carts <==> v in s.carts)
    ensures forall v :: v != u && v in s.carts ==> r.carts[v] == s.carts[v]
    ensures r.users == s.users && r.products == s.products
    ensures r.purchases == s.purchases && r.currentUserId == s.currentUserId
  {
    s.(carts := s.carts[u := items])
  }

  /** Reading a cart back after writing one: the written user's cart is the
      lines written, and every other user's cart reads as before. */
  lemma UserCartAfterSet(s: Store, u: Id, v: Id, items: seq<CartLine>)
    ensures UserCart(SetUserCart(s, u, items), v) == if v == u then items else UserCart(s, v)
  {
  }

  /** `purchases[uid_] = ...` then `set(...)`: overwrite the user's history
      and no other. */
  function SetUserPurchases(s: Store, u: Id, history: seq<Purchase>): (r: Store)
    ensures UserPurchases(r, u) == history
    ensures forall v :: v != u ==> UserPurchases(r, v) == UserPurchases(s, v)
    ensures r.users == s.users && r.products == s.products
    ensures r.carts == s.carts && r.currentUserId == s.currentUserId
  {
    s.(purchases := s.purchases[u := history])
  }

  /** Reading a history back after writing one: the written user's history
      is the one written, and every other user's history reads as before. */
  lemma UserPurchasesAfterSet(s: Store, u: Id, v: Id, history: seq<Purchase>)
    ensures UserPurchases(SetUserPurchases(s, u, history), v) == if v == u then history else UserPurchases(s, v)
  {
  }
}
