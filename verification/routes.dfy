/** The route table of the server (src/supabase/functions/server/index.tsx:58-440):
    which handler answers which request, and which routes pass through the
    identity gate first. The identity provider, the clock and the store's
    enumeration order are the environment of a request. */
module Routes {
  import opened Wrappers
  import opened Seqs
  import opened Json
  import opened Catalog
  import opened Records
  import Gate
  import Profiles
  import Products
  import Orders
  import Wishlist

  datatype Route =
    | SignUp(signup: Profiles.SignupRequest)
    | ReadProfile
    | WriteProfile(updates: map<string, Json>)
    | ListProducts(query: Query)
    | ShowProduct(productId: string)
    | PostReview(reviewFor: string, rating: Option<int>, comment: Option<string>)
    | PlaceOrder(order: Orders.OrderRequest)
    | ListOrders
    | ShowOrder(orderId: string)
    | ListWishlist
    | SaveToWishlist(saved: string)
    | RemoveFromWishlist(removed: string)

  /** A request: its route with parameters and its Authorization header. */
  datatype Request = Request(route: Route, authorization: Option<string>)

  /** What a request sees besides the store. */
  datatype Env = Env(
    verify: string -> Option<AuthUser>,
    createUser: Profiles.CreateUser,
    now: nat,
    order: seq<string>)

  /** The routes that resolve the caller before doing anything else. */
  predicate Protected(route: Route) {
    !(route.SignUp? || route.ListProducts? || route.ShowProduct?)
  }

  /** The routes that only read. */
  predicate ReadOnly(route: Route) {
    route.ReadProfile? || route.ListProducts? || route.ShowProduct? || route.ListOrders?
    || route.ShowOrder? || route.ListWishlist?
  }

  /** The handler of `route`; the product page is the corrected one, which
      lists only the product's own reviews (see `ProductPageIsCorrected`). */
  function Dispatch(store: Store, route: Route, caller: Option<AuthUser>, env: Env): (r: Reply)
    // every protected handler refuses an unknown caller before reading anything
    ensures Protected(route) && caller.None? ==> r == Unauthorized(store)
  {
    match route
    case SignUp(req) => Profiles.Signup(store, req, env.createUser, env.now)
    case ReadProfile => Profiles.GetProfile(store, caller)
    case WriteProfile(updates) => Profiles.UpdateProfile(store, caller, updates)
    case ListProducts(q) => Products.ListProducts(store, env.order, q)
    case ShowProduct(id) => Products.GetProduct(store, env.order, id)
    case PostReview(id, rating, comment) => Products.AddReview(store, caller, id, rating, comment, env.now)
    case PlaceOrder(req) => Orders.CreateOrder(store, caller, req, env.now)
    case ListOrders => Orders.ListOrders(store, caller, env.order)
    case ShowOrder(id) => Orders.GetOrder(store, caller, id)
    case ListWishlist => Wishlist.ListWishlist(store, caller, env.order)
    case SaveToWishlist(id) => Wishlist.AddToWishlist(store, caller, id)
    case RemoveFromWishlist(id) => Wishlist.RemoveFromWishlist(store, caller, id)
  }

  /** Every catalog record of `before` is still in `after`, with the same value. */
  ghost predicate CatalogKept(before: Store, after: Store) {
    forall k :: k in before && "product:" <= k ==> k in after && after[k] == before[k]
  }

  /** A catalog key starts with the `p` of `product:`. */
  lemma CatalogKeyInitial(k: string)
    requires "product:" <= k
    ensures |k| > 0 && k[0] == 'p'
  {
    assert k[0] == "product:"[0];
  }

  /** A write confined to keys that do not start with `p` keeps the catalog. */
  lemma ChangedOutside(before: Store, after: Store, changed: set<string>)
    requires forall k :: k in changed ==> |k| > 0 && k[0] != 'p'
    requires forall k :: k in before && k !in changed ==> k in after && after[k] == before[k]
    ensures CatalogKept(before, after)
  {
    forall k | k in before && "product:" <= k
      ensures k in after && after[k] == before[k]
    {
      CatalogKeyInitial(k);
    }
  }

  lemma SignupKeepsCatalog(store: Store, req: Profiles.SignupRequest, createUser: Profiles.CreateUser, now: nat)
    ensures CatalogKept(store, Profiles.Signup(store, req, createUser, now).store)
  {
    var r := Profiles.Signup(store, req, createUser, now);
    if r.response.status == OK {
      var u := createUser(req.email.value, req.password.value, req.name.value).value;
      assert ProfileKey(u.id)[0] == 'u';
      ChangedOutside(store, r.store, {ProfileKey(u.id)});
    }
  }

  lemma UpdateKeepsCatalog(store: Store, caller: Option<AuthUser>, updates: map<string, Json>)
    ensures CatalogKept(store, Profiles.UpdateProfile(store, caller, updates).store)
  {
    var r := Profiles.UpdateProfile(store, caller, updates);
    if r.response.status == OK {
      assert ProfileKey(caller.value.id)[0] == 'u';
      ChangedOutside(store, r.store, {ProfileKey(caller.value.id)});
    }
  }

  lemma ReviewKeepsCatalog(store: Store, caller: Option<AuthUser>, id: string, rating: Option<int>,
                           comment: Option<string>, now: nat)
    ensures CatalogKept(store, Products.AddReview(store, caller, id, rating, comment, now).store)
  {
    var r := Products.AddReview(store, caller, id, rating, comment, now);
    if r.response.status == OK {
      var key := ReviewKey(id, r.response.body.review.id);
      assert key[0] == 'r';
      ChangedOutside(store, r.store, {key});
    }
  }

  lemma OrderKeepsCatalog(store: Store, caller: Option<AuthUser>, req: Orders.OrderRequest, now: nat)
    ensures CatalogKept(store, Orders.CreateOrder(store, caller, req, now).store)
  {
    var r := Orders.CreateOrder(store, caller, req, now);
    if r.response.status == OK {
      var o := r.response.body.order;
      assert OrderKey(o.id)[0] == 'o' && OrderIndexKey(o.userId, o.id)[0] == 'u';
      ChangedOutside(store, r.store, {OrderKey(o.id), OrderIndexKey(o.userId, o.id)});
    }
  }

  lemma SaveKeepsCatalog(store: Store, caller: Option<AuthUser>, id: string)
    ensures CatalogKept(store, Wishlist.AddToWishlist(store, caller, id).store)
  {
    var r := Wishlist.AddToWishlist(store, caller, id);
    if r.response.status == OK {
      assert WishlistKey(caller.value.id, id)[0] == 'w';
      ChangedOutside(store, r.store, {WishlistKey(caller.value.id, id)});
    }
  }

  lemma RemoveKeepsCatalog(store: Store, caller: Option<AuthUser>, id: string)
    ensures CatalogKept(store, Wishlist.RemoveFromWishlist(store, caller, id).store)
  {
    if caller.Some? {
      var r := Wishlist.RemoveFromWishlist(store, caller, id);
      assert WishlistKey(caller.value.id, id)[0] == 'w';
      ChangedOutside(store, r.store, {WishlistKey(caller.value.id, id)});
    }
  }

  /** No handler writes or deletes a key under `product:`. */
  lemma CatalogUntouched(store: Store, route: Route, caller: Option<AuthUser>, env: Env)
    ensures CatalogKept(store, Dispatch(store, route, caller, env).store)
  {
    match route
    case SignUp(req) => SignupKeepsCatalog(store, req, env.createUser, env.now);
    case WriteProfile(updates) => UpdateKeepsCatalog(store, caller, updates);
    case PostReview(id, rating, comment) => ReviewKeepsCatalog(store, caller, id, rating, comment, env.now);
    case PlaceOrder(req) => OrderKeepsCatalog(store, caller, req, env.now);
    case SaveToWishlist(id) => SaveKeepsCatalog(store, caller, id);
    case RemoveFromWishlist(id) => RemoveKeepsCatalog(store, caller, id);
    case _ =>
  }

  /** Answers one request. */
  function Serve(store: Store, req: Request, env: Env): (r: Reply)
    // a protected route without a valid token answers 401 and writes nothing
    ensures Protected(req.route) && Gate.Authenticate(req.authorization, env.verify).None? ==>
              r == Unauthorized(store)
    // only a successful request writes
    ensures r.response.status != OK ==> r.store == store
    ensures ReadOnly(req.route) ==> r.store == store
    // no route changes or removes a catalog record
    ensures CatalogKept(store, r.store)
  {
    var caller := if Protected(req.route) then Gate.Authenticate(req.authorization, env.verify) else None;
    var r := Dispatch(store, req.route, caller, env);
    CatalogUntouched(store, req.route, caller, env);
    r
  }

  /** The catalog listing and the product page answer with or without a token. */
  lemma PublicRoutesIgnoreToken(store: Store, route: Route, h1: Option<string>, h2: Option<string>, env: Env)
    requires !Protected(route)
    ensures Serve(store, Request(route, h1), env) == Serve(store, Request(route, h2), env)
  {
  }

  /** A bearer token the provider accepts is the caller of a protected route:
      the profile route answers with that user's own record. */
  lemma TokenSelectsProfile(store: Store, scheme: string, token: string, env: Env, u: AuthUser)
    requires ' ' !in scheme && ' ' !in token && |token| > 0
    requires env.verify(token) == Some(u)
    requires ProfileKey(u.id) in store && store[ProfileKey(u.id)].ProfileVal?
    ensures Serve(store, Request(ReadProfile, Some(scheme + " " + token)), env).response
              == Response(OK, Profile(store[ProfileKey(u.id)].fields))
  {
    Gate.WellFormedHeader(scheme, token);
  }

  /** The product page differs from the handler as written only in its
      reviews: the same status and product, and of the reviews the prefix scan
      finds, exactly those whose own product id is the requested one, in scan order. */
  lemma ProductPageIsCorrected(store: Store, id: string, header: Option<string>, env: Env)
    ensures var r := Serve(store, Request(ShowProduct(id), header), env);
      var w := Products.GetProductAsWritten(store, env.order, id);
      && r.store == w.store
      && r.response.status == w.response.status
      && (w.response.status == OK ==>
            && r.response.body.product == w.response.body.product
            && r.response.body.reviews == Filter(Products.ForProduct(id), w.response.body.reviews))
  {
  }
}
