/**
 The shopping cart: a user's ordered list of `{productId, qty}` lines.
 The line edits are stated on one cart, and then lifted to the store,
 where they rewrite the acting user's cart and nothing else.
 */
module Cart {
  import opened ArrayOps
  import opened Domain
  import opened Repository
  import opened Auth

  /** How many of a product the cart holds: the quantity on its first line,
      0 when it has none. */
  function QtyOf(items: seq<CartLine>, pid: Id): int
  {
    match FindByKey(items, LineProduct, pid)
    case None => 0
    case Some(l) => l.qty
  }

  /** At most one line per product. */
  ghost predicate OneLinePerProduct(items: seq<CartLine>)
  {
    UniqueBy(items, LineProduct)
  }

  /** `addToCart` on one cart: the first line for the product grows by qty
      in place, or, when there is none, a new line is appended at the end. */
  function AddLine(items: seq<CartLine>, pid: Id, qty: int): (r: seq<CartLine>)
    ensures HasKey(items, LineProduct, pid) ==> exists i :: (
      && 0 <= i < |items| && items[i].productId == pid
      && !HasKey(items[..i], LineProduct, pid)
      && r == items[i := CartLine(pid, items[i].qty + qty)])
    ensures !HasKey(items, LineProduct, pid) ==> r == items + [CartLine(pid, qty)]
  {
    match IndexOfKey(items, LineProduct, pid)
    case Some(i) =>
      assert !HasKey(items[..i], LineProduct, pid);
      items[i := CartLine(pid, items[i].qty + qty)]
    case None =>
      items + [CartLine(pid, qty)]
  }

  /** Adding to the cart raises the product's quantity by qty, keeps every
      other line in its place and order, and keeps one line per product. */
  lemma AddLineSpec(items: seq<CartLine>, pid: Id, qty: int)
    ensures |AddLine(items, pid, qty)| == if HasKey(items, LineProduct, pid) then |items| else |items| + 1
    ensures QtyOf(AddLine(items, pid, qty), pid) == QtyOf(items, pid) + qty
    ensures RemoveKey(AddLine(items, pid, qty), LineProduct, pid) == RemoveKey(items, LineProduct, pid)
    ensures OneLinePerProduct(items) ==> OneLinePerProduct(AddLine(items, pid, qty))
  {
    var r := AddLine(items, pid, qty);
    match IndexOfKey(items, LineProduct, pid)
    case Some(i) =>
      assert r == items[i := CartLine(pid, items[i].qty + qty)];
      assert HasKey(items, LineProduct, pid);
      AddLineHit(items, pid, qty, i);
    case None =>
      assert r == items + [CartLine(pid, qty)];
      AddLineMiss(items, pid, qty);
  }

  /** The line edit of `AddLine` when the product's first line is at index i. */
  lemma AddLineHit(items: seq<CartLine>, pid: Id, qty: int, i: nat)
    requires i < |items| && items[i].productId == pid
    requires forall j :: 0 <= j < i ==> items[j].productId != pid
    ensures var r := items[i := CartLine(pid, items[i].qty + qty)];
      && QtyOf(r, pid) == QtyOf(items, pid) + qty
      && RemoveKey(r, LineProduct, pid) == RemoveKey(items, LineProduct, pid)
      && (OneLinePerProduct(items) ==> OneLinePerProduct(r))
  {
    var line := CartLine(pid, items[i].qty + qty);
    IndexOfKeyAt(items, LineProduct, pid, i);
    IndexOfKeyAt(items[i := line], LineProduct, pid, i);
    RemoveKeyReplace(items, i, line, LineProduct);
  }

  /** The line append of `AddLine` when the cart has no line for the product. */
  lemma AddLineMiss(items: seq<CartLine>, pid: Id, qty: int)
    requires !HasKey(items, LineProduct, pid)
    ensures var r := items + [CartLine(pid, qty)];
      && QtyOf(r, pid) == QtyOf(items, pid) + qty
      && RemoveKey(r, LineProduct, pid) == RemoveKey(items, LineProduct, pid)
      && (OneLinePerProduct(items) ==> OneLinePerProduct(r))
  {
    var line := CartLine(pid, qty);
    var r := items + [line];
    assert QtyOf(r, pid) == qty by {
      IndexOfKeyAt(r, LineProduct, pid, |items|);
    }
    assert RemoveKey(r, LineProduct, pid) == RemoveKey(items, LineProduct, pid) by {
      RemoveKeyConcat(items, [line], LineProduct, pid);
      RemoveKeyDrop(line, [], LineProduct, pid);
      assert [line] + [] == [line];
    }
  }

  /** Adding a product leaves the quantity of every other product alone. */
  lemma AddLineOthers(items: seq<CartLine>, pid: Id, qty: int, q: Id)
    requires q != pid
    ensures QtyOf(AddLine(items, pid, qty), q) == QtyOf(items, q)
  {
    var r := AddLine(items, pid, qty);
    AddLineSpec(items, pid, qty);
    FindByKeyRemoveOther(r, LineProduct, pid, q);
    FindByKeyRemoveOther(items, LineProduct, pid, q);
  }

  /** Adding one unit of a product that is not in the cart twice gives one
      line with quantity 2 at the end of the cart. */
  lemma AddTwice(items: seq<CartLine>, pid: Id)
    requires !HasKey(items, LineProduct, pid)
    ensures AddLine(AddLine(items, pid, 1), pid, 1) == items + [CartLine(pid, 2)]
  {
    assert AddLine(items, pid, 1) == items + [CartLine(pid, 1)];
    AddLineAtEnd(items, pid, 1, 1);
  }

  /** Adding one unit twice to a product already in the cart raises its
      quantity by 2 without adding a line. */
  lemma AddTwiceGrows(items: seq<CartLine>, pid: Id)
    requires HasKey(items, LineProduct, pid)
    ensures |AddLine(AddLine(items, pid, 1), pid, 1)| == |items|
    ensures QtyOf(AddLine(AddLine(items, pid, 1), pid, 1), pid) == QtyOf(items, pid) + 2
  {
    var once := AddLine(items, pid, 1);
    AddLineSpec(items, pid, 1);
    var i :| 0 <= i < |items| && items[i].productId == pid;
    assert once[i].productId == pid;
    AddLineSpec(once, pid, 1);
  }

  /** Adding to a product whose only line is the last one grows that line. */
  lemma AddLineAtEnd(items: seq<CartLine>, pid: Id, q1: int, q2: int)
    requires !HasKey(items, LineProduct, pid)
    ensures AddLine(items + [CartLine(pid, q1)], pid, q2) == items + [CartLine(pid, q1 + q2)]
  {
    IndexOfKeyAppend(items, CartLine(pid, q1), LineProduct);
    AddLineFound(items + [CartLine(pid, q1)], pid, q2, |items|);
    UpdateLast(items, CartLine(pid, q1), CartLine(pid, q1 + q2));
  }

  /** `AddLine` once the first line for the product is known. */
  lemma AddLineFound(items: seq<CartLine>, pid: Id, qty: int, i: nat)
    requires IndexOfKey(items, LineProduct, pid) == Some(i)
    ensures i < |items|
    ensures AddLine(items, pid, qty) == items[i := CartLine(pid, items[i].qty + qty)]
  {
  }

  /** The cart page's `changeQty` on one cart: None when no line is for pid
      (the cart is then not written); otherwise the first line for pid has
      its quantity moved by delta, and is spliced out when that leaves it at
      0 or below. */
  function ChangeLine(items: seq<CartLine>, pid: Id, delta: int): (r: Option<seq<CartLine>>)
    ensures r.None? <==> !HasKey(items, LineProduct, pid)
    ensures r.Some? ==> exists i :: (
      && 0 <= i < |items| && items[i].productId == pid
      && !HasKey(items[..i], LineProduct, pid)
      && (items[i].qty + delta <= 0 ==> r.value == items[..i] + items[i + 1..])
      && (items[i].qty + delta > 0 ==> r.value == items[i := CartLine(pid, items[i].qty + delta)]))
  {
    match IndexOfKey(items, LineProduct, pid)
    case None => None
    case Some(i) =>
      assert !HasKey(items[..i], LineProduct, pid);
      if items[i].qty + delta <= 0 then
        Some(items[..i] + items[i + 1..])
      else
        Some(items[i := CartLine(pid, items[i].qty + delta)])
  }

  /** Changing the quantity moves the product's quantity by delta while it
      stays positive and otherwise (one line per product) removes it, keeps
      every other line in its place and order, and keeps one line per
      product. */
  lemma ChangeLineSpec(items: seq<CartLine>, pid: Id, delta: int)
    requires ChangeLine(items, pid, delta).Some?
    ensures var r := ChangeLine(items, pid, delta).value;
      && (QtyOf(items, pid) + delta > 0 ==> QtyOf(r, pid) == QtyOf(items, pid) + delta && |r| == |items|)
      && (QtyOf(items, pid) + delta <= 0 ==> |r| == |items| - 1)
      && (QtyOf(items, pid) + delta <= 0 && OneLinePerProduct(items) ==> !HasKey(r, LineProduct, pid))
      && RemoveKey(r, LineProduct, pid) == RemoveKey(items, LineProduct, pid)
      && (OneLinePerProduct(items) ==> OneLinePerProduct(r))
  {
    var r := ChangeLine(items, pid, delta).value;
    var i := IndexOfKey(items, LineProduct, pid).value;
    if items[i].qty + delta <= 0 {
      assert r == items[..i] + items[i + 1..];
      ChangeLineDrop(items, pid, delta, i);
    } else {
      assert r == items[i := CartLine(pid, items[i].qty + delta)];
      ChangeLineKeep(items, pid, delta, i);
    }
  }

  /** The line edit of `ChangeLine` when the new quantity stays positive. */
  lemma ChangeLineKeep(items: seq<CartLine>, pid: Id, delta: int, i: nat)
    requires i < |items| && items[i].productId == pid
    requires forall j :: 0 <= j < i ==> items[j].productId != pid
    requires items[i].qty + delta > 0
    ensures var r := items[i := CartLine(pid, items[i].qty + delta)];
      && QtyOf(items, pid) == items[i].qty
      && QtyOf(r, pid) == QtyOf(items, pid) + delta
      && RemoveKey(r, LineProduct, pid) == RemoveKey(items, LineProduct, pid)
      && (OneLinePerProduct(items) ==> OneLinePerProduct(r))
  {
    var line := CartLine(pid, items[i].qty + delta);
    IndexOfKeyAt(items, LineProduct, pid, i);
    IndexOfKeyAt(items[i := line], LineProduct, pid, i);
    RemoveKeyReplace(items, i, line, LineProduct);
  }

  /** The splice of `ChangeLine` when the new quantity is 0 or below. */
  lemma ChangeLineDrop(items: seq<CartLine>, pid: Id, delta: int, i: nat)
    requires i < |items| && items[i].productId == pid
    requires forall j :: 0 <= j < i ==> items[j].productId != pid
    requires items[i].qty + delta <= 0
    ensures var r := items[..i] + items[i + 1..];
      && QtyOf(items, pid) == items[i].qty
      && RemoveKey(r, LineProduct, pid) == RemoveKey(items, LineProduct, pid)
      && (OneLinePerProduct(items) ==> OneLinePerProduct(r) && !HasKey(r, LineProduct, pid))
  {
    IndexOfKeyAt(items, LineProduct, pid, i);
    RemoveKeyDelete(items, i, LineProduct);
    ChangeLineSplice(items, i);
  }

  /** Splicing out the only line for a product leaves none, and keeps the
      other lines one per product. */
  lemma ChangeLineSplice(items: seq<CartLine>, i: nat)
    requires i < |items|
    ensures OneLinePerProduct(items) ==> OneLinePerProduct(items[..i] + items[i + 1..])
    ensures OneLinePerProduct(items) ==> !HasKey(items[..i] + items[i + 1..], LineProduct, items[i].productId)
  {
    var r := items[..i] + items[i + 1..];
    assert forall j :: 0 <= j < |r| ==> r[j] == items[if j < i then j else j + 1];
  }

  /** Changing a product's quantity leaves the quantity of every other
      product alone. */
  lemma ChangeLineOthers(items: seq<CartLine>, pid: Id, delta: int, q: Id)
    requires q != pid
    requires ChangeLine(items, pid, delta).Some?
    ensures QtyOf(ChangeLine(items, pid, delta).value, q) == QtyOf(items, q)
  {
    var r := ChangeLine(items, pid, delta).value;
    ChangeLineSpec(items, pid, delta);
    FindByKeyRemoveOther(r, LineProduct, pid, q);
    FindByKeyRemoveOther(items, LineProduct, pid, q);
  }

  /** Taking away as many as the cart holds removes the product's line. */
  lemma ChangeToZeroRemoves(items: seq<CartLine>, pid: Id)
    requires OneLinePerProduct(items) && HasKey(items, LineProduct, pid)
    ensures ChangeLine(items, pid, -QtyOf(items, pid)).Some?
    ensures !HasKey(ChangeLine(items, pid, -QtyOf(items, pid)).value, LineProduct, pid)
  {
    ChangeLineSpec(items, pid, -QtyOf(items, pid));
  }

  /** The cart page's `removeItem` on one cart: every line for pid dropped. */
  function RemoveLine(items: seq<CartLine>, pid: Id): (r: seq<CartLine>)
    ensures !HasKey(r, LineProduct, pid)
    ensures QtyOf(r, pid) == 0
    ensures forall l :: l in r <==> l in items && l.productId != pid
    ensures !HasKey(items, LineProduct, pid) ==> r == items
    ensures RemoveKey(r, LineProduct, pid) == RemoveKey(items, LineProduct, pid)
    ensures OneLinePerProduct(items) ==> OneLinePerProduct(r)
  {
    var r := RemoveKey(items, LineProduct, pid);
    RemoveKeyIdempotent(items, LineProduct, pid);
    RemoveKeyUnique(items, LineProduct, pid);
    r
  }

  /** Removing a product leaves the quantity of every other product alone. */
  lemma RemoveLineOthers(items: seq<CartLine>, pid: Id, q: Id)
    requires q != pid
    ensures QtyOf(RemoveLine(items, pid), q) == QtyOf(items, q)
  {
    FindByKeyRemoveOther(items, LineProduct, pid, q);
  }

  /** What one line adds to the total: price times quantity, or 0 when the
      product no longer resolves. */
  function LineAmount(products: seq<Product>, l: CartLine): int
  {
    match FindByKey(products, ProductId, l.productId)
    case None => 0
    case Some(p) => p.price * l.qty
  }

  /** The cart total, summed line by line from the front. */
  function CartTotal(items: seq<CartLine>, products: seq<Product>): int
  {
    if |items| == 0 then 0
    else CartTotal(items[..|items| - 1], products) + LineAmount(products, items[|items| - 1])
  }

  /** The cart page's running total. */
  method ComputeTotal(items: seq<CartLine>, products: seq<Product>) returns (total: int)
    ensures total == CartTotal(items, products)
  {
    total := 0;
    var i := 0;
    while i < |items|
      invariant 0 <= i <= |items|
      invariant total == CartTotal(items[..i], products)
    {
      assert items[..i + 1][..i] == items[..i];
      total := total + LineAmount(products, items[i]);
      i := i + 1;
    }
    assert items[..i] == items;
  }

  /** The total of two carts laid end to end is the sum of their totals. */
  lemma {:induction false} CartTotalConcat(a: seq<CartLine>, b: seq<CartLine>, products: seq<Product>)
    ensures CartTotal(a + b, products) == CartTotal(a, products) + CartTotal(b, products)
    decreases |b|
  {
    if |b| > 0 {
      var b' := b[..|b| - 1];
      assert (a + b)[..|a + b| - 1] == a + b';
      CartTotalConcat(a, b', products);
    } else {
      assert a + b == a;
    }
  }

  /** Lines for a product that does not resolve contribute nothing: the
      total is that of the cart without them. */
  lemma {:induction false} CartTotalUnresolved(items: seq<CartLine>, products: seq<Product>, pid: Id)
    requires !HasKey(products, ProductId, pid)
    ensures CartTotal(RemoveLine(items, pid), products) == CartTotal(items, products)
    decreases |items|
  {
    if |items| > 0 {
      var init := items[..|items| - 1];
      var last := items[|items| - 1];
      calc {
        CartTotal(RemoveLine(items, pid), products);
        { assert items == init + [last]; RemoveKeyConcat(init, [last], LineProduct, pid); }
        CartTotal(RemoveLine(init, pid) + RemoveLine([last], pid), products);
        { CartTotalConcat(RemoveLine(init, pid), RemoveLine([last], pid), products); }
        CartTotal(RemoveLine(init, pid), products) + CartTotal(RemoveLine([last], pid), products);
        { CartTotalUnresolved(init, products, pid); CartTotalLast(last, products, pid); }
        CartTotal(init, products) + LineAmount(products, last);
      }
    }
  }

  /** One line adds its amount, and a line for an unresolved product adds
      nothing, whether or not it is removed first. */
  lemma CartTotalLast(last: CartLine, products: seq<Product>, pid: Id)
    requires !HasKey(products, ProductId, pid)
    ensures CartTotal(RemoveLine([last], pid), products) == LineAmount(products, last)
  {
    assert CartTotal([last], products) == LineAmount(products, last) by {
      assert [last][..0] == [];
    }
    if last.productId == pid {
      assert RemoveLine([last], pid) == [] by {
        RemoveKeyDrop(last, [], LineProduct, pid);
        assert [last] + [] == [last];
      }
    } else {
      assert RemoveLine([last], pid) == [last];
    }
  }

  /** With non-negative prices and quantities the total is non-negative. */
  lemma {:induction false} CartTotalNonNegative(items: seq<CartLine>, products: seq<Product>)
    requires forall p :: p in products ==> p.price >= 0
    requires forall i :: 0 <= i < |items| ==> items[i].qty >= 0
    ensures CartTotal(items, products) >= 0
    decreases |items|
  {
    if |items| > 0 {
      var init := items[..|items| - 1];
      var last := items[|items| - 1];
      CartTotalNonNegative(init, products);
      assert LineAmount(products, last) >= 0 by {
        match FindByKey(products, ProductId, last.productId)
        case None =>
        case Some(p) =>
          assert p in products;
      }
    }
  }

  /** Only the acting user's cart may differ between s and r. */
  ghost predicate OnlyCartOf(s: Store, r: Store, u: Id)
  {
    && r.users == s.users && r.products == s.products
    && r.purchases == s.purchases && r.currentUserId == s.currentUserId
    && forall v :: v != u ==> UserCart(r, v) == UserCart(s, v)
  }

  /** `addToCart(productId, qty)`: refused without a session; otherwise the
      session user's cart gets the line edit and no other cart changes. */
  function AddToCart(s: Store, pid: Id, qty: int): (r: Result<Store>)
    ensures RequireAuth(s).Err? ==> r == Err(Unauthenticated)
    ensures RequireAuth(s).Ok? ==> r.Ok?
    ensures r.Ok? ==> var u := RequireAuth(s).value;
      && UserCart(r.value, u) == AddLine(UserCart(s, u), pid, qty)
      && QtyOf(UserCart(r.value, u), pid) == QtyOf(UserCart(s, u), pid) + qty
      && OnlyCartOf(s, r.value, u)
  {
    match RequireAuth(s)
    case Err(e) => Err(e)
    case Ok(u) =>
      AddLineSpec(UserCart(s, u), pid, qty);
      Ok(SetUserCart(s, u, AddLine(UserCart(s, u), pid, qty)))
  }

  /** The cart page's `changeQty`: when the user's cart has no line for pid
      nothing is written; otherwise the line edit is written to that cart
      only. */
  function ChangeQty(s: Store, u: Id, pid: Id, delta: int): (r: Store)
    ensures !HasKey(UserCart(s, u), LineProduct, pid) ==> r == s
    ensures HasKey(UserCart(s, u), LineProduct, pid) ==>
      UserCart(r, u) == ChangeLine(UserCart(s, u), pid, delta).value
    ensures OnlyCartOf(s, r, u)
  {
    match ChangeLine(UserCart(s, u), pid, delta)
    case None => s
    case Some(items) => SetUserCart(s, u, items)
  }

  /** The cart page's `removeItem`: the user's cart loses every line for
      pid and no other cart changes. */
  function RemoveItem(s: Store, u: Id, pid: Id): (r: Store)
    ensures !HasKey(UserCart(r, u), LineProduct, pid)
    ensures forall l :: l in UserCart(r, u) <==> l in UserCart(s, u) && l.productId != pid
    ensures !HasKey(UserCart(s, u), LineProduct, pid) ==> UserCart(r, u) == UserCart(s, u)
    ensures OnlyCartOf(s, r, u)
  {
    SetUserCart(s, u, RemoveLine(UserCart(s, u), pid))
  }
}
