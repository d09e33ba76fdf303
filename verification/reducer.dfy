/** The client's application state and its reducer
    (src/contexts/AppContext.tsx:29-190): theme, language, currency, cart,
    wishlist, signed-in user, search text and view mode, changed only by
    dispatched actions. The clock reading used for new cart line ids is a
    parameter of the reducer. */
module Reducer {
  import opened Wrappers
  import opened Text
  import opened Seqs
  import opened Catalog

  datatype Theme = Light | Dark
  datatype Language = En | Bn
  datatype Currency = BDT | USD | INR
  datatype ViewMode = Grid | List

  /** A cart line: one product in one size and colour. */
  datatype CartItem = CartItem(id: string, product: Product, quantity: int, size: string, color: string)

  datatype Address = Address(
    id: string, name: string, phone: string, address: string,
    city: string, district: string, postalCode: string, isDefault: bool)

  datatype User = User(id: string, name: string, email: string, avatar: Option<string>, addresses: seq<Address>)

  datatype AppState = AppState(
    theme: Theme,
    language: Language,
    currency: Currency,
    cart: seq<CartItem>,
    wishlist: seq<Product>,
    user: Option<User>,
    isAuthenticated: bool,
    searchQuery: string,
    viewMode: ViewMode)

  const Initial := AppState(Light, En, BDT, [], [], None, false, "", Grid)

  datatype Action =
    | ToggleTheme
    | SetLanguage(language: Language)
    | SetCurrency(currency: Currency)
    | AddToCart(product: Product, quantity: int, size: string, color: string)
    | RemoveFromCart(lineId: string)
    | UpdateCartQuantity(targetId: string, newQuantity: int)
    | ClearCart
    | AddToWishlist(wanted: Product)
    | RemoveFromWishlist(productId: string)
    | SetUser(signedIn: Option<User>)
    | SetSearchQuery(query: string)
    | SetViewMode(mode: ViewMode)

  // ------------------------------------------------------------ invariants

  /** What identifies a cart line for merging: product id, size and colour. */
  function LineKey(item: CartItem): (string, string, string) {
    (item.product.id, item.size, item.color)
  }

  predicate UniqueLines(cart: seq<CartItem>) {
    forall i, j :: 0 <= i < j < |cart| ==> LineKey(cart[i]) != LineKey(cart[j])
  }

  predicate UniqueProducts(ws: seq<Product>) {
    forall i, j :: 0 <= i < j < |ws| ==> ws[i].id != ws[j].id
  }

  /** The invariants every reachable state keeps. */
  predicate Valid(s: AppState) {
    UniqueLines(s.cart) && UniqueProducts(s.wishlist) && s.isAuthenticated == s.user.Some?
  }

  // ------------------------------------------------------------ preferences

  function Toggle(t: Theme): (r: Theme)
    ensures r != t
  {
    if t == Light then Dark else Light
  }

  // ------------------------------------------------------------ cart

  /** `cart.find(...)`: the first line with the given key. */
  function FirstWithKey(cart: seq<CartItem>, key: (string, string, string)): (r: Option<nat>)
    ensures r.None? ==> forall j :: 0 <= j < |cart| ==> LineKey(cart[j]) != key
    ensures r.Some? ==> r.value < |cart| && LineKey(cart[r.value]) == key
    ensures r.Some? ==> forall j :: 0 <= j < r.value ==> LineKey(cart[j]) != key
    decreases |cart|
  {
    if |cart| == 0 then None
    else if LineKey(cart[0]) == key then Some(0)
    else
      match FirstWithKey(cart[1..], key)
      case None => None
      case Some(i) => Some(i + 1)
  }

  /** `${product.id}-${size}-${color}-${now}`. */
  function NewLineId(product: Product, size: string, color: string, now: nat): string {
    product.id + "-" + size + "-" + color + "-" + NatToString(now)
  }

  /** Adds `quantity` to every line whose id is `target`. */
  function AddQuantity(cart: seq<CartItem>, target: string, quantity: int): (r: seq<CartItem>)
    ensures |r| == |cart|
    ensures forall j :: 0 <= j < |cart| ==>
              if cart[j].id == target then r[j] == cart[j].(quantity := cart[j].quantity + quantity)
              else r[j] == cart[j]
  {
    seq(|cart|, j requires 0 <= j < |cart| =>
      if cart[j].id == target then cart[j].(quantity := cart[j].quantity + quantity) else cart[j])
  }

  /** `ADD_TO_CART`: merge into the line of the same product, size and colour,
      or append a new line. */
  function AddLine(cart: seq<CartItem>, product: Product, quantity: int, size: string, color: string,
                   now: nat): (r: seq<CartItem>)
    // an existing line absorbs the quantity; the cart does not grow and no key changes
    ensures FirstWithKey(cart, (product.id, size, color)).Some? ==>
              && |r| == |cart|
              && var i := FirstWithKey(cart, (product.id, size, color)).value;
              && r[i].quantity == cart[i].quantity + quantity
              && forall j :: 0 <= j < |cart| ==> LineKey(r[j]) == LineKey(cart[j]) && r[j].id == cart[j].id
    // otherwise exactly one line is appended and every earlier line is kept
    ensures FirstWithKey(cart, (product.id, size, color)).None? ==>
              && |r| == |cart| + 1
              && r[..|cart|] == cart
              && r[|cart|] == CartItem(NewLineId(product, size, color, now), product, quantity, size, color)
  {
    match FirstWithKey(cart, (product.id, size, color))
    case Some(i) => AddQuantity(cart, cart[i].id, quantity)
    case None => cart + [CartItem(NewLineId(product, size, color, now), product, quantity, size, color)]
  }

  /** With distinct line ids only the matching line's quantity changes. */
  lemma MergeTouchesOneLine(cart: seq<CartItem>, product: Product, quantity: int, size: string, color: string,
                            now: nat, j: int)
    requires forall a, b :: 0 <= a < b < |cart| ==> cart[a].id != cart[b].id
    requires FirstWithKey(cart, (product.id, size, color)).Some?
    requires 0 <= j < |cart| && j != FirstWithKey(cart, (product.id, size, color)).value
    ensures AddLine(cart, product, quantity, size, color, now)[j] == cart[j]
  {
  }

  /** Adding to the cart never creates a second line for the same key. */
  lemma AddLineKeepsLinesUnique(cart: seq<CartItem>, product: Product, quantity: int, size: string,
                                color: string, now: nat)
    requires UniqueLines(cart)
    ensures UniqueLines(AddLine(cart, product, quantity, size, color, now))
  {
    var r := AddLine(cart, product, quantity, size, color, now);
    if FirstWithKey(cart, (product.id, size, color)).None? {
      forall i, j | 0 <= i < j < |r|
        ensures LineKey(r[i]) != LineKey(r[j])
      {
        if j < |cart| {
          assert r[i] == cart[i] && r[j] == cart[j];
        } else {
          assert r[i] == cart[i];
        }
      }
    }
  }

  /** The line with id `lineId` is not kept. */
  function NotLine(lineId: string): CartItem -> bool {
    (item: CartItem) => item.id != lineId
  }

  /** `REMOVE_FROM_CART`: drops exactly the lines with that id, keeping the order. */
  function RemoveLine(cart: seq<CartItem>, lineId: string): (r: seq<CartItem>)
    ensures SubsequenceOf(r, cart)
    ensures forall j :: 0 <= j < |r| ==> r[j].id != lineId
    ensures forall j :: 0 <= j < |cart| && cart[j].id != lineId ==> cart[j] in r
  {
    FilterIsSubsequence(NotLine(lineId), cart);
    Filter(NotLine(lineId), cart)
  }

  /** Sets the quantity of every line whose id is `target`. */
  function SetQuantity(cart: seq<CartItem>, target: string, quantity: int): (r: seq<CartItem>)
    ensures |r| == |cart|
    ensures forall j :: 0 <= j < |cart| ==>
              && r[j].id == cart[j].id && LineKey(r[j]) == LineKey(cart[j])
              && r[j].quantity == (if cart[j].id == target then quantity else cart[j].quantity)
              && r[j] == cart[j].(quantity := r[j].quantity)
  {
    seq(|cart|, j requires 0 <= j < |cart| =>
      if cart[j].id == target then cart[j].(quantity := quantity) else cart[j])
  }

  // ------------------------------------------------------------ wishlist

  predicate Listed(ws: seq<Product>, id: string) {
    exists j :: 0 <= j < |ws| && ws[j].id == id
  }

  /** `ADD_TO_WISHLIST`: no change when a product with that id is already listed. */
  function Wish(ws: seq<Product>, p: Product): (r: seq<Product>)
    ensures Listed(ws, p.id) ==> r == ws
    ensures !Listed(ws, p.id) ==> r == ws + [p]
    ensures Listed(r, p.id)
  {
    if Listed(ws, p.id) then ws else
      assert (ws + [p])[|ws|] == p;
      ws + [p]
  }

  function NotProduct(id: string): Product -> bool {
    (p: Product) => p.id != id
  }

  /** `REMOVE_FROM_WISHLIST`: drops exactly the products with that id, keeping the order. */
  function Unwish(ws: seq<Product>, id: string): (r: seq<Product>)
    ensures SubsequenceOf(r, ws)
    ensures !Listed(r, id)
    ensures forall j :: 0 <= j < |ws| && ws[j].id != id ==> ws[j] in r
  {
    FilterIsSubsequence(NotProduct(id), ws);
    Filter(NotProduct(id), ws)
  }

  /** Saving a product that is not listed and then removing it restores the wishlist. */
  lemma WishThenUnwish(ws: seq<Product>, p: Product)
    requires !Listed(ws, p.id)
    ensures Unwish(Wish(ws, p), p.id) == ws
  {
    FilterAppend(NotProduct(p.id), ws, [p]);
    AllKept(NotProduct(p.id), ws);
    assert Filter(NotProduct(p.id), [p]) == [];
  }

  lemma WishKeepsIdsUnique(ws: seq<Product>, p: Product)
    requires UniqueProducts(ws)
    ensures UniqueProducts(Wish(ws, p))
  {
    if !Listed(ws, p.id) {
      var r := ws + [p];
      forall i, j | 0 <= i < j < |r|
        ensures r[i].id != r[j].id
      {
        if j == |ws| {
          assert r[i] == ws[i];
        } else {
          assert r[i] == ws[i] && r[j] == ws[j];
        }
      }
    }
  }

  /** Re-adding a product is a no-op. */
  lemma WishIsIdempotent(ws: seq<Product>, p: Product)
    ensures Wish(Wish(ws, p), p) == Wish(ws, p)
  {
  }

  // ------------------------------------------------------------ the reducer

  /** `appReducer`. */
  function Reduce(s: AppState, a: Action, now: nat): (r: AppState)
    ensures a.ToggleTheme? ==> r == s.(theme := Toggle(s.theme))
    // each setter replaces exactly its own field with the payload
    ensures a.SetLanguage? ==> r == s.(language := a.language)
    ensures a.SetCurrency? ==> r == s.(currency := a.currency)
    ensures a.SetSearchQuery? ==> r == s.(searchQuery := a.query)
    ensures a.SetViewMode? ==> r == s.(viewMode := a.mode)
    // the cart and wishlist additions are the merges defined above
    ensures a.AddToCart? ==> r.cart == AddLine(s.cart, a.product, a.quantity, a.size, a.color, now)
    ensures a.UpdateCartQuantity? ==> r.cart == SetQuantity(s.cart, a.targetId, a.newQuantity)
    ensures a.AddToWishlist? ==> r.wishlist == Wish(s.wishlist, a.wanted)
    ensures a.ClearCart? ==> r.cart == [] && r.(cart := s.cart) == s
    ensures a.SetUser? ==> r.user == a.signedIn && (r.isAuthenticated <==> a.signedIn.Some?)
                           && r.(user := s.user, isAuthenticated := s.isAuthenticated) == s
    // every cart action changes only the cart, every wishlist action only the wishlist
    ensures a.AddToCart? || a.RemoveFromCart? || a.UpdateCartQuantity? ==> r.(cart := s.cart) == s
    ensures a.AddToWishlist? || a.RemoveFromWishlist? ==> r.(wishlist := s.wishlist) == s
    ensures a.AddToWishlist? && Listed(s.wishlist, a.wanted.id) ==> r == s
    // removals drop exactly the named entries and keep the order of the rest
    ensures a.RemoveFromCart? ==> r.cart == RemoveLine(s.cart, a.lineId)
    ensures a.RemoveFromWishlist? ==> r.wishlist == Unwish(s.wishlist, a.productId)
  {
    match a
    case ToggleTheme => s.(theme := Toggle(s.theme))
    case SetLanguage(l) => s.(language := l)
    case SetCurrency(c) => s.(currency := c)
    case AddToCart(p, q, size, color) => s.(cart := AddLine(s.cart, p, q, size, color, now))
    case RemoveFromCart(id) => s.(cart := RemoveLine(s.cart, id))
    case UpdateCartQuantity(id, q) => s.(cart := SetQuantity(s.cart, id, q))
    case ClearCart => s.(cart := [])
    case AddToWishlist(p) => s.(wishlist := Wish(s.wishlist, p))
    case RemoveFromWishlist(id) => s.(wishlist := Unwish(s.wishlist, id))
    case SetUser(u) => s.(user := u, isAuthenticated := u.Some?)
    case SetSearchQuery(q) => s.(searchQuery := q)
    case SetViewMode(m) => s.(viewMode := m)
  }

  /** Toggling the theme twice restores the state. */
  lemma ToggleTwiceIsIdentity(s: AppState, now: nat, later: nat)
    ensures Reduce(Reduce(s, ToggleTheme, now), ToggleTheme, later) == s
  {
  }

  /** Every action keeps the invariants. */
  lemma ReducePreservesValid(s: AppState, a: Action, now: nat)
    requires Valid(s)
    ensures Valid(Reduce(s, a, now))
  {
    match a
    case AddToCart(p, q, size, color) => AddLineKeepsLinesUnique(s.cart, p, q, size, color, now);
    case RemoveFromCart(id) =>
      FilterKeepsPairwise((x: CartItem, y: CartItem) => LineKey(x) != LineKey(y), NotLine(id), s.cart);
    case UpdateCartQuantity(id, q) =>
      var c := SetQuantity(s.cart, id, q);
      assert forall i, j :: 0 <= i < j < |c| ==> LineKey(c[i]) == LineKey(s.cart[i]) && LineKey(c[j]) == LineKey(s.cart[j]);
    case AddToWishlist(p) => WishKeepsIdsUnique(s.wishlist, p);
    case RemoveFromWishlist(id) =>
      FilterKeepsPairwise((x: Product, y: Product) => x.id != y.id, NotProduct(id), s.wishlist);
    case _ =>
  }

  /** Every state the reducer can reach from the initial state is valid. */
  lemma {:induction false} ReachableIsValid(actions: seq<Action>, clock: seq<nat>)
    requires |clock| == |actions|
    ensures Valid(Run(Initial, actions, clock))
    decreases |actions|
  {
    if |actions| > 0 {
      var k := |actions| - 1;
      ReachableIsValid(actions[..k], clock[..k]);
      ReducePreservesValid(Run(Initial, actions[..k], clock[..k]), actions[k], clock[k]);
    }
  }

  /** Dispatching `actions` in turn, the i-th at clock reading `clock[i]`. */
  function Run(s: AppState, actions: seq<Action>, clock: seq<nat>): AppState
    requires |clock| == |actions|
    decreases |actions|
  {
    if |actions| == 0 then s
    else
      var k := |actions| - 1;
      Reduce(Run(s, actions[..k], clock[..k]), actions[k], clock[k])
  }
}
