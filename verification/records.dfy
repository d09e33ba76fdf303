/** The records the route handlers keep in the key-value store, the key
    layout that stands in for foreign keys and secondary indexes, and the
    HTTP replies (src/supabase/functions/server/index.tsx). */
module Records {
  import opened Wrappers
  import opened Json
  import opened Catalog
  import Kv

  /** The identity provider's user: its stable id, its email and the display
      name given at signup (`user_metadata.name`). */
  datatype AuthUser = AuthUser(id: string, email: string, name: string)

  /** A product review; `userName` is copied from the author's profile when written. */
  datatype Review = Review(
    id: string,
    productId: string,
    userId: string,
    userName: Json,
    rating: int,
    comment: string,
    createdAt: int,
    verified: bool)

  datatype OrderStatus = Pending | Processing | Shipped | Delivered | Cancelled

  /** An order; items, address, payment method and total are the request's JSON, kept as sent. */
  datatype Order = Order(
    id: string,
    userId: string,
    items: Json,
    shippingAddress: Json,
    paymentMethod: Json,
    total: Option<Json>,
    status: OrderStatus,
    createdAt: int,
    updatedAt: int)

  /** What a key can hold. A profile is a JSON object, merged field by field
      on update; a link is the string an index record points at. */
  datatype Value =
    | ProductVal(product: Product)
    | ProfileVal(fields: map<string, Json>)
    | OrderVal(order: Order)
    | ReviewVal(review: Review)
    | LinkVal(target: string)

  type Store = Kv.Store<Value>

  // ------------------------------------------------------------ key layout

  function ProductKey(id: string): string { "product:" + id }
  function ProfileKey(uid: string): string { "user:" + uid }
  function ReviewPrefix(pid: string): string { "review:product:" + pid + ":" }
  function ReviewKey(pid: string, rid: string): string { ReviewPrefix(pid) + rid }
  function OrderKey(oid: string): string { "order:" + oid }
  function OrderIndexPrefix(uid: string): string { "user:" + uid + ":order:" }
  function OrderIndexKey(uid: string, oid: string): string { OrderIndexPrefix(uid) + oid }
  function WishlistPrefix(uid: string): string { "wishlist:" + uid + ":" }
  function WishlistKey(uid: string, pid: string): string { WishlistPrefix(uid) + pid }

  // ------------------------------------------------------------ decoding
  // A record of another kind where one kind is expected reads as absent.

  function AsProduct(v: Option<Value>): Option<Product> {
    if v.Some? && v.value.ProductVal? then Some(v.value.product) else None
  }

  function AsProfile(v: Option<Value>): Option<map<string, Json>> {
    if v.Some? && v.value.ProfileVal? then Some(v.value.fields) else None
  }

  function AsOrder(v: Option<Value>): Option<Order> {
    if v.Some? && v.value.OrderVal? then Some(v.value.order) else None
  }

  function AsReview(v: Value): Option<Review> {
    if v.ReviewVal? then Some(v.review) else None
  }

  // ------------------------------------------------------------ replies

  const OK := 200
  const BAD_REQUEST := 400
  const UNAUTHORIZED := 401
  const FORBIDDEN := 403
  const NOT_FOUND := 404

  datatype Body =
    | Error(message: string)
    | SignedUp(id: string, email: string, name: string)
    | Profile(fields: map<string, Json>)
    | Products(products: seq<Product>)
    | ProductDetail(product: Product, reviews: seq<Review>)
    | ReviewCreated(review: Review)
    | OrderCreated(order: Order)
    | Orders(orders: seq<Order>)
    | OrderFound(order: Order)
    | Wishlist(items: seq<Product>)
    | Done

  datatype Response = Response(status: int, body: Body)

  /** A handler's reply and the store after its writes. */
  datatype Reply = Reply(response: Response, store: Store)

  function Fail(store: Store, status: int, message: string): (r: Reply)
    ensures r.store == store && r.response.status == status
  {
    Reply(Response(status, Error(message)), store)
  }

  function Unauthorized(store: Store): (r: Reply)
    ensures r.store == store && r.response.status == UNAUTHORIZED
  {
    Fail(store, UNAUTHORIZED, "Unauthorized")
  }
}
