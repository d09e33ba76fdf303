/** The product routes: the filtered listing, the single product with its
    reviews, and review submission
    (src/supabase/functions/server/index.tsx:170-281). */
module Products {
  import opened Wrappers
  import opened Json
  import opened Text
  import opened Seqs
  import opened Catalog
  import opened Records
  import Kv

  // ------------------------------------------------------------ scanned records

  predicate IsProductEntry(e: (string, Value)) { e.1.ProductVal? }
  predicate IsReviewEntry(e: (string, Value)) { e.1.ReviewVal? }

  /** The products among scanned records, in scan order. */
  function ProductsIn(entries: seq<(string, Value)>): (ps: seq<Product>)
    ensures forall i :: 0 <= i < |ps| ==> exists j :: 0 <= j < |entries| && entries[j].1 == ProductVal(ps[i])
    ensures forall j :: 0 <= j < |entries| && entries[j].1.ProductVal? ==> entries[j].1.product in ps
  {
    var f := Filter(IsProductEntry, entries);
    var ps := seq(|f|, i requires 0 <= i < |f| => f[i].1.product);
    assert forall j :: 0 <= j < |entries| && entries[j].1.ProductVal? ==> entries[j].1.product in ps by {
      forall j | 0 <= j < |entries| && entries[j].1.ProductVal?
        ensures entries[j].1.product in ps
      {
        assert IsProductEntry(entries[j]);
        var k :| 0 <= k < |f| && f[k] == entries[j];
        assert ps[k] == entries[j].1.product;
      }
    }
    ps
  }

  /** The reviews among scanned records, in scan order. */
  function ReviewsIn(entries: seq<(string, Value)>): (rs: seq<Review>)
    ensures forall i :: 0 <= i < |rs| ==> exists j :: 0 <= j < |entries| && entries[j].1 == ReviewVal(rs[i])
    ensures forall j :: 0 <= j < |entries| && entries[j].1.ReviewVal? ==> entries[j].1.review in rs
  {
    var f := Filter(IsReviewEntry, entries);
    var rs := seq(|f|, i requires 0 <= i < |f| => f[i].1.review);
    assert forall j :: 0 <= j < |entries| && entries[j].1.ReviewVal? ==> entries[j].1.review in rs by {
      forall j | 0 <= j < |entries| && entries[j].1.ReviewVal?
        ensures entries[j].1.review in rs
      {
        assert IsReviewEntry(entries[j]);
        var k :| 0 <= k < |f| && f[k] == entries[j];
        assert rs[k] == entries[j].1.review;
      }
    }
    rs
  }

  /** Every product record, in the store's enumeration order. */
  function AllProducts(store: Store, order: seq<string>): seq<Product> {
    ProductsIn(Kv.Scan(store, "product:", order))
  }

  // ------------------------------------------------------------ GET /products

  /** `GET /products`: the catalog, narrowed by the supplied filters. */
  function ListProducts(store: Store, order: seq<string>, q: Query): (r: Reply)
    ensures r.store == store && r.response.status == OK && r.response.body.Products?
    ensures SubsequenceOf(r.response.body.products, AllProducts(store, order))
    ensures forall i :: 0 <= i < |r.response.body.products| ==> Admits(q, r.response.body.products[i])
  {
    ListingIsConjunction(q, AllProducts(store, order));
    Reply(Response(OK, Products(ApplyFilters(q, AllProducts(store, order)))), store)
  }

  /** Every listed product is a stored product record. */
  lemma ListedProductsAreStored(store: Store, order: seq<string>, q: Query, i: int)
    requires 0 <= i < |ListProducts(store, order, q).response.body.products|
    ensures var p := ListProducts(store, order, q).response.body.products[i];
      exists k :: k in store && "product:" <= k && store[k] == ProductVal(p)
  {
    var all := AllProducts(store, order);
    var entries := Kv.Scan(store, "product:", order);
    ListingIsConjunction(q, all);
    var p := ListProducts(store, order, q).response.body.products[i];
    assert p in all;
    var m :| 0 <= m < |all| && all[m] == p;
    var j :| 0 <= j < |entries| && entries[j].1 == ProductVal(all[m]);
    assert store[entries[j].0] == ProductVal(p);
  }

  /** With the store's own enumeration, every stored product the query admits is listed. */
  lemma AdmittedProductsAreListed(store: Store, order: seq<string>, q: Query, k: string, p: Product)
    requires Kv.Enumerates(store, order)
    requires k in store && "product:" <= k && store[k] == ProductVal(p)
    requires Admits(q, p)
    ensures p in ListProducts(store, order, q).response.body.products
  {
    var entries := Kv.Scan(store, "product:", order);
    Kv.ScanComplete(store, "product:", order, k);
    var j :| 0 <= j < |entries| && entries[j].0 == k;
    var all := AllProducts(store, order);
    assert p in all;
    var m :| 0 <= m < |all| && all[m] == p;
    ListingIsConjunction(q, all);
  }

  function Priced(id: string, price: int): Product {
    Product(id, "", price, None, "", "", "", [], [], true, false, false, false, None)
  }

  const PriceWindow := NoFilters.(minPrice := Some(Num(2000)), maxPrice := Some(Num(3000)))

  /** `minPrice=2000&maxPrice=3000` over prices 1299, 2499, 3499 and 4999 keeps only 2499. */
  lemma PriceWindowExample()
    ensures ApplyFilters(PriceWindow, [Priced("a", 1299), Priced("b", 2499), Priced("c", 3499), Priced("d", 4999)])
            == [Priced("b", 2499)]
  {
    var ps := [Priced("a", 1299), Priced("b", 2499), Priced("c", 3499), Priced("d", 4999)];
    ListingIsConjunction(PriceWindow, ps);
    WindowSelection(ps);
  }

  lemma WindowSelection(ps: seq<Product>)
    requires ps == [Priced("a", 1299), Priced("b", 2499), Priced("c", 3499), Priced("d", 4999)]
    ensures Filter(AdmittedBy(PriceWindow), ps) == [ps[1]]
  {
    var keep := AdmittedBy(PriceWindow);
    PriceBoundsInclusive(PriceWindow, ps[0], 2000, 3000);
    PriceBoundsInclusive(PriceWindow, ps[1], 2000, 3000);
    PriceBoundsInclusive(PriceWindow, ps[2], 2000, 3000);
    PriceBoundsInclusive(PriceWindow, ps[3], 2000, 3000);
    assert !keep(ps[0]) && keep(ps[1]) && !keep(ps[2]) && !keep(ps[3]);
    OneKept(keep, ps, 1);
  }

  // ------------------------------------------------------------ GET /products/:id

  /** The records under the product's review prefix, as the handler lists them. */
  function ReviewsUnderPrefix(store: Store, order: seq<string>, id: string): (rs: seq<Review>)
    ensures forall i :: 0 <= i < |rs| ==>
              exists k :: k in store && ReviewPrefix(id) <= k && store[k] == ReviewVal(rs[i])
  {
    var rs := ReviewsIn(Kv.Scan(store, ReviewPrefix(id), order));
    forall i | 0 <= i < |rs|
      ensures exists k :: k in store && ReviewPrefix(id) <= k && store[k] == ReviewVal(rs[i])
    {
      ScannedReviewStored(store, order, ReviewPrefix(id), i);
    }
    rs
  }

  lemma ScannedReviewStored(store: Store, order: seq<string>, prefix: string, i: int)
    requires 0 <= i < |ReviewsIn(Kv.Scan(store, prefix, order))|
    ensures var rev := ReviewsIn(Kv.Scan(store, prefix, order))[i];
      exists k :: k in store && prefix <= k && store[k] == ReviewVal(rev)
  {
    var entries := Kv.Scan(store, prefix, order);
    var rev := ReviewsIn(entries)[i];
    var j :| 0 <= j < |entries| && entries[j].1 == ReviewVal(rev);
    var k := entries[j].0;
    assert k in store && prefix <= k && store[k] == ReviewVal(rev);
  }

  /** `GET /products/:id` as written: the reviews are whatever the prefix scan
      `review:product:<id>:` finds. */
  function GetProductAsWritten(store: Store, order: seq<string>, id: string): (r: Reply)
    ensures r.store == store
    ensures r.response.status == NOT_FOUND <==> AsProduct(Kv.Get(store, ProductKey(id))).None?
    ensures AsProduct(Kv.Get(store, ProductKey(id))).Some? ==> r.response.status == OK
    ensures r.response.status == OK ==>
              r.response.body == ProductDetail(store[ProductKey(id)].product, ReviewsUnderPrefix(store, order, id))
  {
    match AsProduct(Kv.Get(store, ProductKey(id)))
    case None => Fail(store, NOT_FOUND, "Product not found")
    case Some(product) => Reply(Response(OK, ProductDetail(product, ReviewsUnderPrefix(store, order, id))), store)
  }

  /** Product ids are free text and may contain ':', so the prefix of product
      "1" also covers the reviews of product "1:x". A review posted to
      `/products/1:x/reviews` shows up on product "1". */
  lemma PrefixScanLeaksReviews(store: Store, u: AuthUser, now: nat, p: Product)
    requires store == map[ProductKey("1") := ProductVal(p)]
    ensures var after := AddReview(store, Some(u), "1:x", Some(5), None, now);
      var rev := after.response.body.review;
      && after.response.status == OK
      && rev.productId == "1:x"
      && var detail := GetProductAsWritten(after.store, [ProductKey("1"), ReviewKey("1:x", rev.id)], "1");
      && detail.response.status == OK
      && detail.response.body.reviews == [rev]
  {
    var after := AddReview(store, Some(u), "1:x", Some(5), None, now);
    var rev := after.response.body.review;
    var key := ReviewKey("1:x", rev.id);
    assert key == ReviewPrefix("1") + "x:" + rev.id;
    assert !(ReviewPrefix("1") <= ProductKey("1")) by {
      assert ProductKey("1")[0] == 'p' && ReviewPrefix("1")[0] == 'r';
    }
    Kv.ScanSkipThenTake(after.store, ReviewPrefix("1"), ProductKey("1"), key);
    var entries := [(key, ReviewVal(rev))];
    assert Filter(IsReviewEntry, entries) == entries by {
      assert IsReviewEntry(entries[0]);
    }
  }

  /** With the store's own enumeration, every stored review under the
      product's prefix is listed. */
  lemma PrefixReviewsListed(store: Store, order: seq<string>, id: string, k: string)
    requires Kv.Enumerates(store, order)
    requires k in store && ReviewPrefix(id) <= k && store[k].ReviewVal?
    ensures store[k].review in ReviewsUnderPrefix(store, order, id)
  {
    var entries := Kv.Scan(store, ReviewPrefix(id), order);
    Kv.ScanComplete(store, ReviewPrefix(id), order, k);
    var j :| 0 <= j < |entries| && entries[j].0 == k;
    assert entries[j].1.ReviewVal?;
  }

  /** The review of product `id`: its own record carries that product id. */
  function ForProduct(id: string): Review -> bool {
    (rev: Review) => rev.productId == id
  }

  /** `GET /products/:id` as evidently intended: the prefix scan, narrowed to
      the reviews whose own product id is `id`. */
  function GetProduct(store: Store, order: seq<string>, id: string): (r: Reply)
    ensures r.store == store
    ensures r.response.status == NOT_FOUND <==> AsProduct(Kv.Get(store, ProductKey(id))).None?
    ensures AsProduct(Kv.Get(store, ProductKey(id))).Some? ==> r.response.status == OK
    ensures r.response.status == OK ==>
              && r.response.body.ProductDetail?
              && r.response.body.product == store[ProductKey(id)].product
              && SubsequenceOf(r.response.body.reviews, ReviewsUnderPrefix(store, order, id))
              && forall i :: 0 <= i < |r.response.body.reviews| ==> r.response.body.reviews[i].productId == id
  {
    match AsProduct(Kv.Get(store, ProductKey(id)))
    case None => Fail(store, NOT_FOUND, "Product not found")
    case Some(product) =>
      var reviews := Filter(ForProduct(id), ReviewsUnderPrefix(store, order, id));
      FilterIsSubsequence(ForProduct(id), ReviewsUnderPrefix(store, order, id));
      Reply(Response(OK, ProductDetail(product, reviews)), store)
  }

  /** With the store's own enumeration, the corrected page of a stored product
      lists every stored review of that product under its prefix. */
  lemma OwnReviewsListed(store: Store, order: seq<string>, id: string, k: string)
    requires Kv.Enumerates(store, order)
    requires AsProduct(Kv.Get(store, ProductKey(id))).Some?
    requires k in store && ReviewPrefix(id) <= k && store[k].ReviewVal? && store[k].review.productId == id
    ensures store[k].review in GetProduct(store, order, id).response.body.reviews
  {
    PrefixReviewsListed(store, order, id, k);
    assert ForProduct(id)(store[k].review);
  }

  /** The corrected handler never shows a review of another product: with the
      store of the counterexample above, product "1" lists no reviews. */
  lemma NoLeakAfterCorrection(store: Store, u: AuthUser, now: nat, p: Product)
    requires store == map[ProductKey("1") := ProductVal(p)]
    ensures var after := AddReview(store, Some(u), "1:x", Some(5), None, now);
      var rev := after.response.body.review;
      GetProduct(after.store, [ProductKey("1"), ReviewKey("1:x", rev.id)], "1").response.body.reviews == []
  {
    PrefixScanLeaksReviews(store, u, now, p);
    var after := AddReview(store, Some(u), "1:x", Some(5), None, now);
    var rev := after.response.body.review;
    assert |rev.productId| != |"1"|;
    assert Filter(ForProduct("1"), [rev]) == [] by {
      assert !ForProduct("1")(rev);
    }
  }

  // ------------------------------------------------------------ POST /products/:id/reviews

  /** `!rating || rating < 1 || rating > 5` rejects the rating. */
  predicate ValidRating(rating: Option<int>) {
    rating.Some? && rating.value != 0 && !(rating.value < 1) && !(rating.value > 5)
  }

  /** The author's display name: the profile's name when truthy, else "Anonymous". */
  function AuthorName(profile: Option<map<string, Json>>): (n: Json)
    ensures Truthy(n)
    ensures profile.Some? && "name" in profile.value && Truthy(profile.value["name"]) ==> n == profile.value["name"]
    ensures !(profile.Some? && "name" in profile.value && Truthy(profile.value["name"])) ==> n == JStr("Anonymous")
  {
    if profile.Some? && "name" in profile.value && Truthy(profile.value["name"]) then profile.value["name"]
    else JStr("Anonymous")
  }

  /** The review id: the submission time in milliseconds, a dash, the author's id. */
  function ReviewId(now: nat, uid: string): string {
    NatToString(now) + "-" + uid
  }

  /** A review id determines both its time and its author: the digits end at the first dash. */
  lemma ReviewIdInjective(t1: nat, u1: string, t2: nat, u2: string)
    ensures ReviewId(t1, u1) == ReviewId(t2, u2) <==> t1 == t2 && u1 == u2
  {
    var s1, s2 := NatToString(t1), NatToString(t2);
    if |s1| < |s2| {
      ShorterTimeDiffers(t1, u1, t2, u2);
    } else if |s2| < |s1| {
      ShorterTimeDiffers(t2, u2, t1, u1);
    } else if ReviewId(t1, u1) == ReviewId(t2, u2) {
      var a := ReviewId(t1, u1);
      assert s1 == a[..|s1|] == s2;
      assert u1 == a[|s1| + 1..] == u2;
      NatToStringRoundTrip(t1);
      NatToStringRoundTrip(t2);
    }
  }

  /** Where the shorter time's digits end in a dash, the longer one still has a digit. */
  lemma ShorterTimeDiffers(t1: nat, u1: string, t2: nat, u2: string)
    requires |NatToString(t1)| < |NatToString(t2)|
    ensures ReviewId(t1, u1) != ReviewId(t2, u2)
  {
    var n := |NatToString(t1)|;
    assert ReviewId(t1, u1)[n] == '-';
    assert ReviewId(t2, u2)[n] == NatToString(t2)[n];
  }

  /** `POST /products/:id/reviews`. The product's existence is not checked. */
  function AddReview(store: Store, caller: Option<AuthUser>, productId: string,
                     rating: Option<int>, comment: Option<string>, now: nat): (r: Reply)
    ensures caller.None? ==> r.response.status == UNAUTHORIZED && r.store == store
    ensures caller.Some? && !(rating.Some? && 1 <= rating.value <= 5) ==>
              r.response.status == BAD_REQUEST && r.store == store
    ensures caller.Some? && rating.Some? && 1 <= rating.value <= 5 ==> r.response.status == OK
    ensures r.response.status == OK ==>
              && r.response.body.ReviewCreated?
              && var rev := r.response.body.review;
              && rev.productId == productId && rev.userId == caller.value.id
              && rev.rating == rating.value && 1 <= rev.rating <= 5
              && rev.verified && rev.createdAt == now
              && rev.comment == (if comment.Some? then comment.value else "")
              && rev.userName == AuthorName(AsProfile(Kv.Get(store, ProfileKey(caller.value.id))))
              && r.store.Keys == store.Keys + {ReviewKey(productId, rev.id)}
              && r.store[ReviewKey(productId, rev.id)] == ReviewVal(rev)
              && forall k :: k in store && k != ReviewKey(productId, rev.id) ==> r.store[k] == store[k]
  {
    if caller.None? then Unauthorized(store)
    else if !ValidRating(rating) then Fail(store, BAD_REQUEST, "Invalid rating")
    else
      var uid := caller.value.id;
      var rid := ReviewId(now, uid);
      var review := Review(rid, productId, uid, AuthorName(AsProfile(Kv.Get(store, ProfileKey(uid)))),
                           rating.value, comment.GetOr(""), now, true);
      Reply(Response(OK, ReviewCreated(review)), Kv.Set(store, ReviewKey(productId, rid), ReviewVal(review)))
  }

  /** The rating bounds are inclusive: 0 and 6 are refused, 1 and 5 accepted. */
  lemma RatingBounds(store: Store, u: AuthUser, pid: string, now: nat)
    ensures AddReview(store, Some(u), pid, Some(0), None, now).response == Response(BAD_REQUEST, Error("Invalid rating"))
    ensures AddReview(store, Some(u), pid, Some(6), None, now).response == Response(BAD_REQUEST, Error("Invalid rating"))
    ensures AddReview(store, Some(u), pid, None, Some("nice"), now).response.status == BAD_REQUEST
    ensures AddReview(store, Some(u), pid, Some(1), None, now).response.status == OK
    ensures AddReview(store, Some(u), pid, Some(5), None, now).response.status == OK
  {
  }

  /** A review written for an existing product appears on that product's page
      when the store is scanned in its own enumeration order. */
  lemma ReviewAppearsOnItsProduct(store: Store, u: AuthUser, pid: string, rating: int,
                                  comment: Option<string>, now: nat, order: seq<string>)
    requires 1 <= rating <= 5
    requires AsProduct(Kv.Get(store, ProductKey(pid))).Some?
    requires Kv.Enumerates(AddReview(store, Some(u), pid, Some(rating), comment, now).store, order)
    ensures var after := AddReview(store, Some(u), pid, Some(rating), comment, now);
      var detail := GetProduct(after.store, order, pid);
      && detail.response.status == OK
      && after.response.body.review in detail.response.body.reviews
  {
    var after := AddReview(store, Some(u), pid, Some(rating), comment, now);
    var rev := after.response.body.review;
    var key := ReviewKey(pid, rev.id);
    assert ProductKey(pid) != key by {
      assert ProductKey(pid)[0] == 'p' && key[0] == 'r';
    }
    var entries := Kv.Scan(after.store, ReviewPrefix(pid), order);
    Kv.ScanComplete(after.store, ReviewPrefix(pid), order, key);
    var j :| 0 <= j < |entries| && entries[j].0 == key;
    assert rev in ReviewsUnderPrefix(after.store, order, pid);
    assert ForProduct(pid)(rev);
  }
}
