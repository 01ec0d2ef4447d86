/**
 The records the marketplace keeps and the store that holds them. The
 browser's key-value storage is replaced by one immutable `Store` value
 with the five documents the application persists: the user list, the
 product list, the carts and purchase histories keyed by user id, and the
 id of the user who is logged in.
 */
module Domain {
  import opened ArrayOps

  /** Opaque identifiers, as produced by the application's `uid()`. */
  type Id = string

  /** ISO-8601 timestamps, as produced by `new Date().toISOString()`. */
  type Timestamp = string

  datatype User = User(id: Id, email: string, password: string, username: string)

  /** A listing. `price` is a whole amount; a missing `createdAt` is "". */
  datatype Product = Product(
    id: Id,
    ownerId: Id,
    title: string,
    description: string,
    category: string,
    price: int,
    image: string,
    createdAt: Timestamp)

  datatype CartLine = CartLine(productId: Id, qty: int)

  datatype Purchase = Purchase(productId: Id, qty: int, purchasedAt: Timestamp)

  datatype Store = Store(
    users: seq<User>,
    products: seq<Product>,
    carts: map<Id, seq<CartLine>>,
    purchases: map<Id, seq<Purchase>>,
    currentUserId: Option<Id>)

  /** The conditions an operation reports to the user instead of changing the store. */
  datatype Error =
    | Unauthenticated
    | MissingFields
    | EmailExists
    | InvalidCredentials
    | EmptyCart

  /** An operation either yields the store to write back, or an error and writes nothing. */
  datatype Result<+T> = Ok(value: T) | Err(error: Error)

  /** The categories offered by the listing form and the feed filter. */
  const Categories: seq<string> :=
    ["Clothing", "Electronics", "Furniture", "Books", "Home", "Toys", "Other"]

  // Key functions for the keyed array operations.
  function UserId(u: User): Id { u.id }
  function UserEmail(u: User): string { u.email }
  function Credentials(u: User): (string, string) { (u.email, u.password) }
  function ProductId(p: Product): Id { p.id }
  function LineProduct(l: CartLine): Id { l.productId }
}
