/**
 The catalog: seeding the demo data on first use, and the feed page's
 search, which filters products by category and title and lists the
 newest first.
 */
module Catalog {
  import opened ArrayOps
  import opened Text
  import opened Domain

  /** The fields of one demo listing, before it is given an id, an owner and
      a creation time. */
  datatype SeedItem = SeedItem(title: string, price: int, category: string, image: string, description: string)

  const SeedItems: seq<SeedItem> := [
    SeedItem("Vintage Denim Jacket", 25, "Clothing",
             "https://via.placeholder.com/600x450?text=EcoFinds+Jacket", "Well-loved denim jacket, size M."),
    SeedItem("Used Laptop 8GB/256GB", 220, "Electronics",
             "https://via.placeholder.com/600x450?text=EcoFinds+Laptop", "Works great, minor scratches."),
    SeedItem("Wooden Coffee Table", 60, "Furniture",
             "https://via.placeholder.com/600x450?text=EcoFinds+Table", "Solid wood, 90x45 cm.")
  ]

  const DemoEmail: string := "demo@ecofinds.app"

  function DemoUser(id: Id): User
  {
    User(id, DemoEmail, "demo123", "DemoUser")
  }

  function SeedProduct(item: SeedItem, id: Id, ownerId: Id, createdAt: Timestamp): Product
  {
    Product(id, ownerId, item.title, item.description, item.category, item.price, item.image, createdAt)
  }

  /** `db()`: when there are no products, append a demo user and replace the
      product list by the demo listings, owned by that user, with the given
      fresh ids and creation times; otherwise change nothing. */
  function Seed(s: Store, demoId: Id, productIds: seq<Id>, stamps: seq<Timestamp>): (r: Store)
    requires |productIds| == |SeedItems| && |stamps| == |SeedItems|
    ensures |s.products| > 0 ==> r == s
    ensures |s.products| == 0 ==> r.users == s.users + [DemoUser(demoId)]
    ensures |s.products| == 0 ==> |r.products| == |SeedItems|
    ensures |s.products| == 0 ==>
      forall i :: 0 <= i < |SeedItems| ==> r.products[i] == SeedProduct(SeedItems[i], productIds[i], demoId, stamps[i])
    ensures |s.products| == 0 ==> forall p :: p in r.products ==> p.ownerId == demoId && p.category in Categories
    ensures |r.products| > 0
    ensures r.carts == s.carts && r.purchases == s.purchases && r.currentUserId == s.currentUserId
  {
    if |s.products| == 0 then
      var products := seq(|SeedItems|, i requires 0 <= i < |SeedItems| =>
        SeedProduct(SeedItems[i], productIds[i], demoId, stamps[i]));
      s.(users := s.users + [DemoUser(demoId)], products := products)
    else
      s
  }

  /** Seeding a second time adds nothing, whatever ids and times it is given. */
  lemma SeedIdempotent(s: Store, demoId: Id, productIds: seq<Id>, stamps: seq<Timestamp>,
                       demoId2: Id, productIds2: seq<Id>, stamps2: seq<Timestamp>)
    requires |productIds| == |SeedItems| && |stamps| == |SeedItems|
    requires |productIds2| == |SeedItems| && |stamps2| == |SeedItems|
    ensures Seed(Seed(s, demoId, productIds, stamps), demoId2, productIds2, stamps2)
         == Seed(s, demoId, productIds, stamps)
  {
  }

  /** Seeding looks only at the product list: once every product has been
      deleted, a second demo user with the same e-mail is appended, so
      e-mails stop being unique. */
  lemma SeedRepeatsDemoEmail(s: Store, demoId: Id, productIds: seq<Id>, stamps: seq<Timestamp>)
    requires |productIds| == |SeedItems| && |stamps| == |SeedItems|
    requires |s.products| == 0 && HasKey(s.users, UserEmail, DemoEmail)
    ensures !UniqueBy(Seed(s, demoId, productIds, stamps).users, UserEmail)
  {
    var users := Seed(s, demoId, productIds, stamps).users;
    var i :| 0 <= i < |s.users| && UserEmail(s.users[i]) == DemoEmail;
    assert UserEmail(users[i]) == UserEmail(users[|s.users|]);
  }

  /** The feed's filter: the category is empty or equal, and the query (already
      lower-cased) is empty or occurs in the lower-cased title. */
  predicate Matches(p: Product, category: string, query: string)
  {
    (category == "" || p.category == category) && (query == "" || Includes(Lower(p.title), query))
  }

  function MatchesFilter(category: string, query: string): Product -> bool
  {
    (p: Product) => Matches(p, category, query)
  }

  /** Newest first: no product is listed before one created later. */
  ghost predicate NewestFirst(xs: seq<Product>)
  {
    forall i, j :: 0 <= i < j < |xs| ==> StrLe(xs[j].createdAt, xs[i].createdAt)
  }

  function CreatedAt(t: Timestamp): Product -> bool
  {
    (p: Product) => p.createdAt == t
  }

  /** Place p into a newest-first list, behind every product strictly newer
      than it and ahead of the rest. */
  function InsertByDate(p: Product, xs: seq<Product>): (r: seq<Product>)
    requires NewestFirst(xs)
    ensures NewestFirst(r)
    ensures multiset(r) == multiset(xs) + multiset{p}
    decreases |xs|
  {
    if |xs| == 0 then [p]
    else if !StrLe(xs[0].createdAt, p.createdAt) then
      var rest := InsertByDate(p, xs[1..]);
      StrLeTotal(xs[0].createdAt, p.createdAt);
      assert xs == [xs[0]] + xs[1..];
      NewerThanAll(xs[0], xs[1..], p, rest);
      NewestFirstCons(xs[0], rest);
      [xs[0]] + rest
    else
      forall j | 0 < j < |xs| ensures StrLe(xs[j].createdAt, p.createdAt) {
        StrLeTransitive(xs[j].createdAt, xs[0].createdAt, p.createdAt);
      }
      NewestFirstCons(p, xs);
      [p] + xs
  }

  /** A product no older than p and than every product of xs is no older
      than anything in a rearrangement of xs with p added. */
  lemma NewerThanAll(x: Product, xs: seq<Product>, p: Product, rest: seq<Product>)
    requires NewestFirst([x] + xs)
    requires StrLe(p.createdAt, x.createdAt)
    requires multiset(rest) == multiset(xs) + multiset{p}
    ensures forall y :: y in rest ==> StrLe(y.createdAt, x.createdAt)
  {
    forall y | y in rest ensures StrLe(y.createdAt, x.createdAt) {
      assert y in multiset(rest);
      if y != p {
        assert y in multiset(xs);
        var j :| 0 <= j < |xs| && xs[j] == y;
        var all := [x] + xs;
        assert all[0] == x && all[j + 1] == y;
        assert StrLe(all[j + 1].createdAt, all[0].createdAt);
      }
    }
  }

  /** A product goes in front of a newest-first list when it is no older
      than any product in it. */
  lemma NewestFirstCons(x: Product, xs: seq<Product>)
    requires NewestFirst(xs)
    requires forall y :: y in xs ==> StrLe(y.createdAt, x.createdAt)
    ensures NewestFirst([x] + xs)
  {
    var r := [x] + xs;
    assert forall j :: 0 < j < |r| ==> r[j] == xs[j - 1];
  }

  /** The feed's sort by `createdAt`, newest first; products with equal
      creation times keep their relative order (the sort is stable). */
  function SortByDate(xs: seq<Product>): (r: seq<Product>)
    ensures NewestFirst(r)
    ensures multiset(r) == multiset(xs)
    decreases |xs|
  {
    if |xs| == 0 then []
    else
      assert xs == [xs[0]] + xs[1..];
      InsertByDate(xs[0], SortByDate(xs[1..]))
  }

  /** The products with one creation time come out of the insertion in the
      order they went in, p first. */
  lemma {:induction false} InsertByDateStable(p: Product, xs: seq<Product>, t: Timestamp)
    requires NewestFirst(xs)
    ensures FilterWhere(InsertByDate(p, xs), CreatedAt(t))
         == (if p.createdAt == t then [p] else []) + FilterWhere(xs, CreatedAt(t))
    decreases |xs|
  {
    if |xs| == 0 {
      ByDateCons(p, [], t);
    } else if !StrLe(xs[0].createdAt, p.createdAt) {
      assert NewestFirst(xs[1..]);
      InsertByDateStable(p, xs[1..], t);
      InsertBehindStable(p, xs, t);
    } else {
      assert InsertByDate(p, xs) == [p] + xs;
      ByDateCons(p, xs, t);
    }
  }

  /** The step of `InsertByDateStable` where p goes behind the first product:
      given the order of the insertion into the rest, the order of the whole. */
  lemma InsertBehindStable(p: Product, xs: seq<Product>, t: Timestamp)
    requires NewestFirst(xs) && |xs| > 0 && !StrLe(xs[0].createdAt, p.createdAt)
    requires FilterWhere(InsertByDate(p, xs[1..]), CreatedAt(t))
          == (if p.createdAt == t then [p] else []) + FilterWhere(xs[1..], CreatedAt(t))
    ensures FilterWhere(InsertByDate(p, xs), CreatedAt(t))
         == (if p.createdAt == t then [p] else []) + FilterWhere(xs, CreatedAt(t))
  {
    var f := CreatedAt(t);
    var rest := InsertByDate(p, xs[1..]);
    var front := if xs[0].createdAt == t then [xs[0]] else [];
    var mine := if p.createdAt == t then [p] else [];
    assert xs[0].createdAt != p.createdAt by {
      StrLeReflexive(p.createdAt);
    }
    calc {
      FilterWhere(InsertByDate(p, xs), f);
      { assert InsertByDate(p, xs) == [xs[0]] + rest; }
      FilterWhere([xs[0]] + rest, f);
      { ByDateCons(xs[0], rest, t); }
      front + FilterWhere(rest, f);
      front + (mine + FilterWhere(xs[1..], f));
      { SwapEmpty(front, mine, FilterWhere(xs[1..], f)); }
      mine + (front + FilterWhere(xs[1..], f));
      { assert front + FilterWhere(xs[1..], f) == FilterWhere(xs, f); }
      mine + FilterWhere(xs, f);
    }
  }

  /** Filtering by creation time past a first product. */
  lemma ByDateCons(x: Product, xs: seq<Product>, t: Timestamp)
    ensures FilterWhere([x] + xs, CreatedAt(t)) == (if x.createdAt == t then [x] else []) + FilterWhere(xs, CreatedAt(t))
  {
    assert ([x] + xs)[1..] == xs;
  }

  /** The sort is stable: the products with any one creation time appear in
      the order they had in the input. */
  lemma {:induction false} SortByDateStable(xs: seq<Product>, t: Timestamp)
    ensures FilterWhere(SortByDate(xs), CreatedAt(t)) == FilterWhere(xs, CreatedAt(t))
    decreases |xs|
  {
    if |xs| > 0 {
      var f := CreatedAt(t);
      var sorted := SortByDate(xs[1..]);
      var head := if xs[0].createdAt == t then [xs[0]] else [];
      calc {
        FilterWhere(SortByDate(xs), f);
        FilterWhere(InsertByDate(xs[0], sorted), f);
        { InsertByDateStable(xs[0], sorted, t); }
        head + FilterWhere(sorted, f);
        { SortByDateStable(xs[1..], t); }
        head + FilterWhere(xs[1..], f);
        { ByDateCons(xs[0], xs[1..], t); assert [xs[0]] + xs[1..] == xs; }
        FilterWhere(xs, f);
      }
    }
  }

  /** The feed page's listing: the products that match the category and the
      lower-cased search text, each as often as it is stored, newest first. */
  function Feed(products: seq<Product>, category: string, search: string): (r: seq<Product>)
    ensures forall p :: p in r <==> p in products && Matches(p, category, Lower(search))
    ensures forall p :: multiset(r)[p] == if Matches(p, category, Lower(search)) then multiset(products)[p] else 0
    ensures NewestFirst(r)
  {
    var matching := FilterWhere(products, MatchesFilter(category, Lower(search)));
    FeedCount(products, category, Lower(search));
    SortByDate(matching)
  }

  lemma FeedCount(products: seq<Product>, category: string, query: string)
    ensures forall p :: (multiset(FilterWhere(products, MatchesFilter(category, query)))[p]
      == if Matches(p, category, query) then multiset(products)[p] else 0)
  {
    forall p {
      FilterWhereCount(products, MatchesFilter(category, query), p);
    }
  }

  /** With no category and no search text the feed lists every product, newest first. */
  lemma FeedUnfiltered(products: seq<Product>)
    ensures multiset(Feed(products, "", "")) == multiset(products)
    ensures NewestFirst(Feed(products, "", ""))
  {
    var r := Feed(products, "", "");
    assert Lower("") == "";
    assert forall p :: multiset(r)[p] == multiset(products)[p];
  }

  /** Products with equal creation times appear in the feed in the order
      they are stored. */
  lemma FeedStable(products: seq<Product>, category: string, search: string, t: Timestamp)
    ensures FilterWhere(Feed(products, category, search), CreatedAt(t))
         == FilterWhere(FilterWhere(products, MatchesFilter(category, Lower(search))), CreatedAt(t))
  {
    SortByDateStable(FilterWhere(products, MatchesFilter(category, Lower(search))), t);
  }
}
