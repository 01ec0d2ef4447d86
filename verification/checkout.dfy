/**
 Checkout: the session user's cart lines, each stamped with one checkout
 time, are appended to that user's purchase history, and then the cart is
 emptied. Purchase histories only ever grow.
 */
module Checkout {
  import opened ArrayOps
  import opened Domain
  import opened Repository
  import opened Auth

  /** The purchase records for a list of cart lines, all with one time. */
  function Stamp(items: seq<CartLine>, at: Timestamp): (r: seq<Purchase>)
    ensures |r| == |items|
    ensures forall k :: 0 <= k < |items| ==> r[k].productId == items[k].productId && r[k].qty == items[k].qty
    ensures forall k :: 0 <= k < |r| ==> r[k].purchasedAt == at
  {
    seq(|items|, k requires 0 <= k < |items| => Purchase(items[k].productId, items[k].qty, at))
  }

  /** h' is h with the cart lines appended, in order, stamped with one time. */
  ghost predicate AppendsStamped(h: seq<Purchase>, h': seq<Purchase>, items: seq<CartLine>, at: Timestamp)
  {
    && |h'| == |h| + |items|
    && h'[..|h|] == h
    && forall k :: 0 <= k < |items| ==> h'[|h| + k] == Purchase(items[k].productId, items[k].qty, at)
  }

  /** `checkout()`: refused without a session, reported as an empty cart
      when the user's cart has no lines, and otherwise the user's history
      grows by the stamped lines and the user's cart becomes empty, while
      every other user's cart and history, the users, the products and the
      session stay as they were. */
  function Checkout(s: Store, now: Timestamp): (r: Result<Store>)
    ensures RequireAuth(s).Err? ==> r == Err(Unauthenticated)
    ensures RequireAuth(s).Ok? && |UserCart(s, RequireAuth(s).value)| == 0 ==> r == Err(EmptyCart)
    ensures RequireAuth(s).Ok? && |UserCart(s, RequireAuth(s).value)| > 0 ==> r.Ok?
    ensures r.Ok? ==> var u := RequireAuth(s).value;
      && AppendsStamped(UserPurchases(s, u), UserPurchases(r.value, u), UserCart(s, u), now)
      && UserCart(r.value, u) == []
      && (forall v :: v != u ==> UserCart(r.value, v) == UserCart(s, v))
      && (forall v :: v != u ==> UserPurchases(r.value, v) == UserPurchases(s, v))
      && r.value.users == s.users && r.value.products == s.products
      && r.value.currentUserId == s.currentUserId
  {
    match RequireAuth(s)
    case Err(e) => Err(e)
    case Ok(u) =>
      var items := UserCart(s, u);
      if |items| == 0 then
        Err(EmptyCart)
      else
        var history := UserPurchases(s, u) + Stamp(items, now);
        Ok(SetUserCart(SetUserPurchases(s, u, history), u, []))
  }

  /** A second checkout straight after a successful one finds the cart
      empty, so nothing is recorded twice. */
  lemma CheckoutTwice(s: Store, now: Timestamp, later: Timestamp)
    requires Checkout(s, now).Ok?
    ensures Checkout(Checkout(s, now).value, later) == Err(EmptyCart)
  {
  }

  /** Checkout never shortens or rewrites any user's history: every
      history before is a prefix of the same user's history after. */
  lemma CheckoutAppendOnly(s: Store, now: Timestamp, v: Id)
    requires Checkout(s, now).Ok?
    ensures var h := UserPurchases(s, v);
      UserPurchases(Checkout(s, now).value, v)[..|h|] == h
  {
    var u := RequireAuth(s).value;
    if v != u {
      assert UserPurchases(Checkout(s, now).value, v) == UserPurchases(s, v);
    }
  }
}
