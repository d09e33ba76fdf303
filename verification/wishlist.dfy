/** The server-side wishlist (src/supabase/functions/server/index.tsx:377-440):
    one record `wishlist:<uid>:<productId>` per saved product, whose value is
    the product id. */
module Wishlist {
  import opened Wrappers
  import opened Seqs
  import opened Catalog
  import opened Records
  import Kv

  /** A scanned wishlist record whose id names a stored product. */
  predicate Saved(store: Store, e: (string, Value)) {
    e.1.LinkVal? && ProductKey(e.1.target) in store && store[ProductKey(e.1.target)].ProductVal?
  }

  function SavedIn(store: Store): ((string, Value)) -> bool {
    (e: (string, Value)) => Saved(store, e)
  }

  /** The products the wishlist records name, in scan order; ids of products
      no longer stored are skipped. */
  function ResolveProducts(store: Store, entries: seq<(string, Value)>): (ps: seq<Product>)
    ensures forall j :: 0 <= j < |entries| && Saved(store, entries[j]) ==>
              store[ProductKey(entries[j].1.target)].product in ps
  {
    var f := Filter(SavedIn(store), entries);
    var ps := seq(|f|, i requires 0 <= i < |f| => store[ProductKey(f[i].1.target)].product);
    assert forall j :: 0 <= j < |entries| && Saved(store, entries[j]) ==>
             store[ProductKey(entries[j].1.target)].product in ps by {
      forall j | 0 <= j < |entries| && Saved(store, entries[j])
        ensures store[ProductKey(entries[j].1.target)].product in ps
      {
        assert SavedIn(store)(entries[j]);
        var k :| 0 <= k < |f| && f[k] == entries[j];
        assert ps[k] == store[ProductKey(entries[j].1.target)].product;
      }
    }
    ps
  }

  /** Every resolved product is the stored product some wishlist record names. */
  lemma ResolvedFromEntry(store: Store, entries: seq<(string, Value)>, i: int)
    requires 0 <= i < |ResolveProducts(store, entries)|
    ensures exists j :: 0 <= j < |entries| && entries[j].1.LinkVal?
              && Kv.Get(store, ProductKey(entries[j].1.target)) == Some(ProductVal(ResolveProducts(store, entries)[i]))
  {
    var f := Filter(SavedIn(store), entries);
    var e := f[i];
    assert SavedIn(store)(e) && e in entries;
    var j :| 0 <= j < |entries| && entries[j] == e;
    assert Kv.Get(store, ProductKey(e.1.target)) == Some(ProductVal(ResolveProducts(store, entries)[i]));
  }

  /** Some record under `prefix` names `p`, and `p` is the stored product of that name. */
  ghost predicate SavedUnder(store: Store, prefix: string, p: Product) {
    exists k :: k in store && prefix <= k && store[k].LinkVal?
      && Kv.Get(store, ProductKey(store[k].target)) == Some(ProductVal(p))
  }

  /** `GET /user/wishlist`. */
  function ListWishlist(store: Store, caller: Option<AuthUser>, order: seq<string>): (r: Reply)
    ensures r.store == store
    ensures caller.None? <==> r.response.status == UNAUTHORIZED
    ensures caller.Some? ==> r.response.status == OK
    ensures r.response.status == OK ==>
              && r.response.body.Wishlist?
              && forall i :: 0 <= i < |r.response.body.items| ==>
                   SavedUnder(store, WishlistPrefix(caller.value.id), r.response.body.items[i])
  {
    if caller.None? then Unauthorized(store)
    else
      var uid := caller.value.id;
      var entries := Kv.Scan(store, WishlistPrefix(uid), order);
      var items := ResolveProducts(store, entries);
      forall i | 0 <= i < |items|
        ensures SavedUnder(store, WishlistPrefix(uid), items[i])
      {
        ResolvedProductSaved(store, order, WishlistPrefix(uid), i);
      }
      Reply(Response(OK, Wishlist(items)), store)
  }

  lemma ResolvedProductSaved(store: Store, order: seq<string>, prefix: string, i: int)
    requires 0 <= i < |ResolveProducts(store, Kv.Scan(store, prefix, order))|
    ensures SavedUnder(store, prefix, ResolveProducts(store, Kv.Scan(store, prefix, order))[i])
  {
    var entries := Kv.Scan(store, prefix, order);
    var p := ResolveProducts(store, entries)[i];
    ResolvedFromEntry(store, entries, i);
    var j :| 0 <= j < |entries| && entries[j].1.LinkVal?
             && Kv.Get(store, ProductKey(entries[j].1.target)) == Some(ProductVal(p));
    var k := entries[j].0;
    assert k in store && prefix <= k && store[k] == entries[j].1;
  }

  /** With the store's own enumeration, every saved link whose product is
      still stored shows that product in the owner's wishlist. */
  lemma SavedProductsListed(store: Store, u: AuthUser, order: seq<string>, k: string)
    requires Kv.Enumerates(store, order)
    requires k in store && WishlistPrefix(u.id) <= k && store[k].LinkVal?
    requires AsProduct(Kv.Get(store, ProductKey(store[k].target))).Some?
    ensures store[ProductKey(store[k].target)].product in ListWishlist(store, Some(u), order).response.body.items
  {
    var entries := Kv.Scan(store, WishlistPrefix(u.id), order);
    Kv.ScanComplete(store, WishlistPrefix(u.id), order, k);
    var j :| 0 <= j < |entries| && entries[j].0 == k;
    assert Saved(store, entries[j]);
  }

  /** `POST /user/wishlist/:productId`: only stored products can be saved. */
  function AddToWishlist(store: Store, caller: Option<AuthUser>, productId: string): (r: Reply)
    ensures caller.None? ==> r.response.status == UNAUTHORIZED && r.store == store
    ensures caller.Some? ==>
              (r.response.status == NOT_FOUND <==> AsProduct(Kv.Get(store, ProductKey(productId))).None?)
    ensures r.response.status == NOT_FOUND ==> r.store == store
    ensures caller.Some? && AsProduct(Kv.Get(store, ProductKey(productId))).Some? ==> r.response.status == OK
    ensures r.response.status == OK ==>
              && caller.Some?
              && r.response.body == Done
              && r.store.Keys == store.Keys + {WishlistKey(caller.value.id, productId)}
              && r.store[WishlistKey(caller.value.id, productId)] == LinkVal(productId)
              && forall k :: k in store && k != WishlistKey(caller.value.id, productId) ==> r.store[k] == store[k]
  {
    if caller.None? then Unauthorized(store)
    else if AsProduct(Kv.Get(store, ProductKey(productId))).None? then Fail(store, NOT_FOUND, "Product not found")
    else Reply(Response(OK, Done), Kv.Set(store, WishlistKey(caller.value.id, productId), LinkVal(productId)))
  }

  /** `DELETE /user/wishlist/:productId`: succeeds whether or not the product was saved. */
  function RemoveFromWishlist(store: Store, caller: Option<AuthUser>, productId: string): (r: Reply)
    ensures caller.None? ==> r.response.status == UNAUTHORIZED && r.store == store
    ensures caller.Some? ==>
              && r.response == Response(OK, Done)
              && r.store.Keys == store.Keys - {WishlistKey(caller.value.id, productId)}
              && forall k :: k in r.store ==> r.store[k] == store[k]
    ensures caller.Some? && WishlistKey(caller.value.id, productId) !in store ==> r.store == store
  {
    if caller.None? then Unauthorized(store)
    else Reply(Response(OK, Done), Kv.Del(store, WishlistKey(caller.value.id, productId)))
  }

  /** Saving a product twice leaves the same store as saving it once. */
  lemma AddIsIdempotent(store: Store, u: AuthUser, pid: string)
    ensures var once := AddToWishlist(store, Some(u), pid);
      AddToWishlist(once.store, Some(u), pid) == once
  {
  }

  /** Saving and then removing a product not saved before restores the store. */
  lemma AddThenRemove(store: Store, u: AuthUser, pid: string)
    requires WishlistKey(u.id, pid) !in store
    ensures RemoveFromWishlist(AddToWishlist(store, Some(u), pid).store, Some(u), pid).store == store
  {
  }

  /** A saved product shows up in the owner's wishlist when the store is
      scanned in its own enumeration order. */
  lemma AddThenList(store: Store, u: AuthUser, pid: string, order: seq<string>)
    requires AsProduct(Kv.Get(store, ProductKey(pid))).Some?
    requires Kv.Enumerates(AddToWishlist(store, Some(u), pid).store, order)
    ensures var after := AddToWishlist(store, Some(u), pid).store;
      store[ProductKey(pid)].product in ListWishlist(after, Some(u), order).response.body.items
  {
    var after := AddToWishlist(store, Some(u), pid).store;
    var key := WishlistKey(u.id, pid);
    assert ProductKey(pid) != key by {
      assert ProductKey(pid)[0] == 'p' && key[0] == 'w';
    }
    var entries := Kv.Scan(after, WishlistPrefix(u.id), order);
    Kv.ScanComplete(after, WishlistPrefix(u.id), order, key);
    var j :| 0 <= j < |entries| && entries[j].0 == key;
    assert Saved(after, entries[j]);
  }

  /** A product id that is not stored is refused and nothing is written. */
  lemma UnknownProductRefused(store: Store, u: AuthUser, pid: string)
    requires ProductKey(pid) !in store
    ensures AddToWishlist(store, Some(u), pid) == Fail(store, NOT_FOUND, "Product not found")
  {
  }
}
