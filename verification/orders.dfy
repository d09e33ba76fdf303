/** Order placement, the caller's order history and the single-order lookup
    (src/supabase/functions/server/index.tsx:284-374). An order is written
    under `order:<id>` and indexed under `user:<uid>:order:<id>`, whose value
    is the order id. */
module Orders {
  import opened Wrappers
  import opened Json
  import opened Text
  import opened Seqs
  import opened Records
  import Kv

  /** The JSON body of `POST /orders`; a field is None when it is missing. */
  datatype OrderRequest = OrderRequest(
    items: Option<Json>,
    shippingAddress: Option<Json>,
    paymentMethod: Option<Json>,
    total: Option<Json>)

  /** `items` is truthy with a truthy length, and address and payment method are truthy. */
  predicate Complete(req: OrderRequest) {
    && req.items.Some? && HasLength(req.items.value)
    && Present(req.shippingAddress)
    && Present(req.paymentMethod)
  }

  /** The first `n` characters of `s`, or all of it when shorter (`slice(0, n)`). */
  function Take(s: string, n: nat): (r: string)
    ensures |r| == if |s| < n then |s| else n
    ensures r <= s
  {
    if |s| < n then s else s[..n]
  }

  /** `ORDER-<millis>-<first 8 characters of the user id>`. */
  function OrderId(now: nat, uid: string): (id: string)
    ensures "ORDER-" <= id
  {
    "ORDER-" + NatToString(now) + "-" + Take(uid, 8)
  }

  /** An order id reads back as its parts: the tag, the placement time in
      decimal, a dash, and the user id cut to at most 8 characters. */
  lemma OrderIdParts(now: nat, uid: string)
    ensures var id := OrderId(now, uid);
      var n := |NatToString(now)|;
      && 6 + n < |id|
      && id[..6] == "ORDER-"
      && (forall i :: 6 <= i < 6 + n ==> IsDigit(id[i]))
      && DigitsValue(id[6..6 + n]) == now
      && id[6 + n] == '-'
      && id[7 + n..] <= uid
      && |id[7 + n..]| == (if |uid| < 8 then |uid| else 8)
  {
    var id := OrderId(now, uid);
    var digits := NatToString(now);
    var n := |digits|;
    assert id[6..6 + n] == digits;
    assert id[7 + n..] == Take(uid, 8);
    NatToStringRoundTrip(now);
  }

  /** The same user placing orders at different times gets different ids. */
  lemma DistinctTimesDistinctIds(t1: nat, t2: nat, uid: string)
    requires t1 != t2
    ensures OrderId(t1, uid) != OrderId(t2, uid)
  {
    OrderIdParts(t1, uid);
    OrderIdParts(t2, uid);
    var a, b := OrderId(t1, uid), OrderId(t2, uid);
    var n1, n2 := |NatToString(t1)|, |NatToString(t2)|;
    if |a| == |b| {
      assert n1 == n2;
      assert DigitsValue(a[6..6 + n1]) != DigitsValue(b[6..6 + n1]);
    }
  }

  /** `POST /orders`. */
  function CreateOrder(store: Store, caller: Option<AuthUser>, req: OrderRequest, now: nat): (r: Reply)
    ensures caller.None? ==> r.response.status == UNAUTHORIZED && r.store == store
    ensures caller.Some? && !Complete(req) ==> r.response.status == BAD_REQUEST && r.store == store
    ensures caller.Some? && Complete(req) ==> r.response.status == OK
    ensures r.response.status == OK ==>
              && r.response.body.OrderCreated?
              && var o := r.response.body.order;
              && o.userId == caller.value.id && o.status == Pending
              && o.items == req.items.value && o.shippingAddress == req.shippingAddress.value
              && o.paymentMethod == req.paymentMethod.value && o.total == req.total
              && o.createdAt == now && o.updatedAt == now
              && o.id == OrderId(now, caller.value.id) && "ORDER-" <= o.id
              && r.store.Keys == store.Keys + {OrderKey(o.id), OrderIndexKey(o.userId, o.id)}
              && r.store[OrderKey(o.id)] == OrderVal(o)
              && r.store[OrderIndexKey(o.userId, o.id)] == LinkVal(o.id)
              && forall k :: k in store && k != OrderKey(o.id) && k != OrderIndexKey(o.userId, o.id) ==>
                   r.store[k] == store[k]
  {
    if caller.None? then Unauthorized(store)
    else if !Complete(req) then Fail(store, BAD_REQUEST, "Missing required order information")
    else
      var uid := caller.value.id;
      var id := OrderId(now, uid);
      var o := Order(id, uid, req.items.value, req.shippingAddress.value, req.paymentMethod.value,
                     req.total, Pending, now, now);
      assert OrderKey(id) != OrderIndexKey(uid, id) by {
        assert OrderKey(id)[0] == 'o' && OrderIndexKey(uid, id)[0] == 'u';
      }
      var s1 := Kv.Set(store, OrderKey(id), OrderVal(o));
      var s2 := Kv.Set(s1, OrderIndexKey(uid, id), LinkVal(id));
      Reply(Response(OK, OrderCreated(o)), s2)
  }

  /** An array of items is accepted only when non-empty; a number never is. */
  lemma ItemsNeedLength(store: Store, u: AuthUser, addr: Json, pay: Json, now: nat)
    requires Truthy(addr) && Truthy(pay)
    ensures CreateOrder(store, Some(u), OrderRequest(Some(JArr([])), Some(addr), Some(pay), None), now).response
              == Response(BAD_REQUEST, Error("Missing required order information"))
    ensures CreateOrder(store, Some(u), OrderRequest(Some(JNum(3)), Some(addr), Some(pay), None), now).response.status
              == BAD_REQUEST
    ensures CreateOrder(store, Some(u), OrderRequest(Some(JArr([JNull])), Some(addr), Some(pay), None), now).response.status
              == OK
  {
  }

  // ------------------------------------------------------------ GET /user/orders

  /** A scanned index record whose id names a stored order. */
  predicate Linked(store: Store, e: (string, Value)) {
    e.1.LinkVal? && OrderKey(e.1.target) in store && store[OrderKey(e.1.target)].OrderVal?
  }

  function Resolves(store: Store): ((string, Value)) -> bool {
    (e: (string, Value)) => Linked(store, e)
  }

  /** The orders the index records name, in scan order; dangling ids are skipped. */
  function ResolveOrders(store: Store, entries: seq<(string, Value)>): (os: seq<Order>)
    ensures forall j :: 0 <= j < |entries| && Linked(store, entries[j]) ==>
              store[OrderKey(entries[j].1.target)].order in os
  {
    var f := Filter(Resolves(store), entries);
    var os := seq(|f|, i requires 0 <= i < |f| => store[OrderKey(f[i].1.target)].order);
    assert forall j :: 0 <= j < |entries| && Linked(store, entries[j]) ==>
             store[OrderKey(entries[j].1.target)].order in os by {
      forall j | 0 <= j < |entries| && Linked(store, entries[j])
        ensures store[OrderKey(entries[j].1.target)].order in os
      {
        assert Resolves(store)(entries[j]);
        var k :| 0 <= k < |f| && f[k] == entries[j];
        assert os[k] == store[OrderKey(entries[j].1.target)].order;
      }
    }
    os
  }

  /** Every resolved order is the stored order some index record names. */
  lemma ResolvedFromEntry(store: Store, entries: seq<(string, Value)>, i: int)
    requires 0 <= i < |ResolveOrders(store, entries)|
    ensures exists j :: 0 <= j < |entries| && entries[j].1.LinkVal?
              && Kv.Get(store, OrderKey(entries[j].1.target)) == Some(OrderVal(ResolveOrders(store, entries)[i]))
  {
    var f := Filter(Resolves(store), entries);
    var e := f[i];
    assert Resolves(store)(e) && e in entries;
    var j :| 0 <= j < |entries| && entries[j] == e;
    assert Kv.Get(store, OrderKey(e.1.target)) == Some(OrderVal(ResolveOrders(store, entries)[i]));
  }

  /** Newest first: no order precedes a strictly newer one. */
  predicate NewestFirst(os: seq<Order>) {
    forall i, j :: 0 <= i < j < |os| ==> os[i].createdAt >= os[j].createdAt
  }

  /** Places `o` after every order at least as new, keeping the rest in place. */
  function Insert(o: Order, sorted: seq<Order>): (r: seq<Order>)
    requires NewestFirst(sorted)
    ensures NewestFirst(r)
    ensures multiset(r) == multiset(sorted) + multiset{o}
    ensures |r| == |sorted| + 1
    ensures r[0] == if |sorted| == 0 || sorted[0].createdAt < o.createdAt then o else sorted[0]
    decreases |sorted|
  {
    if |sorted| == 0 then [o]
    else if sorted[0].createdAt < o.createdAt then [o] + sorted
    else
      var rest := Insert(o, sorted[1..]);
      assert sorted == [sorted[0]] + sorted[1..];
      assert rest[0].createdAt <= sorted[0].createdAt;
      [sorted[0]] + rest
  }

  /** `orders.sort((a, b) => b.createdAt - a.createdAt)`: a stable sort, newest first. */
  function SortNewestFirst(os: seq<Order>): (r: seq<Order>)
    ensures NewestFirst(r)
    ensures multiset(r) == multiset(os)
    ensures |r| == |os|
    decreases |os|
  {
    if |os| == 0 then []
    else
      assert os == os[..|os| - 1] + [os[|os| - 1]];
      Insert(os[|os| - 1], SortNewestFirst(os[..|os| - 1]))
  }

  /** The orders placed at millisecond `t`. */
  function PlacedAt(t: int): Order -> bool {
    (o: Order) => o.createdAt == t
  }

  /** Inserting `o` adds it after the orders of its own millisecond already in place. */
  lemma {:induction false} InsertKeepsTies(o: Order, sorted: seq<Order>, t: int)
    requires NewestFirst(sorted)
    ensures Filter(PlacedAt(t), Insert(o, sorted))
            == Filter(PlacedAt(t), sorted) + Filter(PlacedAt(t), [o])
    decreases |sorted|
  {
    if |sorted| == 0 {
      assert Insert(o, sorted) == [o];
    } else if sorted[0].createdAt < o.createdAt {
      assert Insert(o, sorted) == [o] + sorted;
      NewerGoesFirst(o, sorted, t);
    } else {
      var rest := Insert(o, sorted[1..]);
      assert Insert(o, sorted) == [sorted[0]] + rest;
      InsertKeepsTies(o, sorted[1..], t);
      OlderGoesLater(o, sorted, rest, t);
    }
  }

  lemma {:induction false} NewerGoesFirst(o: Order, sorted: seq<Order>, t: int)
    requires NewestFirst(sorted) && |sorted| > 0 && sorted[0].createdAt < o.createdAt
    ensures Filter(PlacedAt(t), [o] + sorted) == Filter(PlacedAt(t), sorted) + Filter(PlacedAt(t), [o])
  {
    var p := PlacedAt(t);
    FilterAppend(p, [o], sorted);
    if o.createdAt == t {
      assert forall i :: 0 <= i < |sorted| ==> sorted[i].createdAt <= sorted[0].createdAt;
      NoneKept(p, sorted);
    } else {
      NoneKept(p, [o]);
    }
  }

  lemma OlderGoesLater(o: Order, sorted: seq<Order>, rest: seq<Order>, t: int)
    requires |sorted| > 0
    requires Filter(PlacedAt(t), rest) == Filter(PlacedAt(t), sorted[1..]) + Filter(PlacedAt(t), [o])
    ensures Filter(PlacedAt(t), [sorted[0]] + rest) == Filter(PlacedAt(t), sorted) + Filter(PlacedAt(t), [o])
  {
    assert sorted == [sorted[0]] + sorted[1..];
    ConsKeepsAppended(PlacedAt(t), sorted[0], sorted[1..], rest, Filter(PlacedAt(t), [o]));
  }

  /** Orders placed in the same millisecond keep their scan order (the sort is stable). */
  lemma {:induction false} SortIsStable(os: seq<Order>, t: int)
    ensures Filter(PlacedAt(t), SortNewestFirst(os)) == Filter(PlacedAt(t), os)
    decreases |os|
  {
    if |os| > 0 {
      var init, last := os[..|os| - 1], os[|os| - 1];
      assert os == init + [last];
      SortIsStable(init, t);
      InsertKeepsTies(last, SortNewestFirst(init), t);
      FilterAppend(PlacedAt(t), init, [last]);
    }
  }

  /** The caller's orders as the index lists them, resolved and sorted newest first. */
  function History(store: Store, order: seq<string>, uid: string): (h: seq<Order>)
    ensures NewestFirst(h)
    ensures multiset(h) == multiset(ResolveOrders(store, Kv.Scan(store, OrderIndexPrefix(uid), order)))
  {
    SortNewestFirst(ResolveOrders(store, Kv.Scan(store, OrderIndexPrefix(uid), order)))
  }

  /** `GET /user/orders`. */
  function ListOrders(store: Store, caller: Option<AuthUser>, order: seq<string>): (r: Reply)
    ensures r.store == store
    ensures caller.None? <==> r.response.status == UNAUTHORIZED
    ensures caller.Some? ==> r.response.status == OK
    ensures r.response.status == OK ==>
              && r.response.body.Orders?
              && NewestFirst(r.response.body.orders)
              && multiset(r.response.body.orders)
                   == multiset(ResolveOrders(store, Kv.Scan(store, OrderIndexPrefix(caller.value.id), order)))
  {
    if caller.None? then Unauthorized(store)
    else Reply(Response(OK, Orders(History(store, order, caller.value.id))), store)
  }

  /** With the store's own enumeration, every stored order the caller's index
      names is in the caller's history. */
  lemma IndexedOrdersListed(store: Store, u: AuthUser, order: seq<string>, k: string)
    requires Kv.Enumerates(store, order)
    requires k in store && OrderIndexPrefix(u.id) <= k && store[k].LinkVal?
    requires AsOrder(Kv.Get(store, OrderKey(store[k].target))).Some?
    ensures store[OrderKey(store[k].target)].order in ListOrders(store, Some(u), order).response.body.orders
  {
    var entries := Kv.Scan(store, OrderIndexPrefix(u.id), order);
    Kv.ScanComplete(store, OrderIndexPrefix(u.id), order, k);
    var j :| 0 <= j < |entries| && entries[j].0 == k;
    assert Linked(store, entries[j]);
    var resolved := ResolveOrders(store, entries);
    assert store[OrderKey(store[k].target)].order in multiset(resolved);
  }

  // ------------------------------------------------------------ GET /orders/:id

  /** `GET /orders/:id`: a missing order is reported before a foreign one. */
  function GetOrder(store: Store, caller: Option<AuthUser>, id: string): (r: Reply)
    ensures r.store == store
    ensures caller.None? ==> r.response.status == UNAUTHORIZED
    ensures caller.Some? ==>
              (r.response.status == NOT_FOUND <==> AsOrder(Kv.Get(store, OrderKey(id))).None?)
    ensures caller.Some? && AsOrder(Kv.Get(store, OrderKey(id))).Some? ==>
              (r.response.status == FORBIDDEN <==> store[OrderKey(id)].order.userId != caller.value.id)
    // the owner of a stored order reads it
    ensures caller.Some? && AsOrder(Kv.Get(store, OrderKey(id))).Some?
            && store[OrderKey(id)].order.userId == caller.value.id ==>
              r.response == Response(OK, OrderFound(store[OrderKey(id)].order))
    ensures r.response.status == OK ==>
              && caller.Some?
              && r.response.body == OrderFound(store[OrderKey(id)].order)
              && store[OrderKey(id)].order.userId == caller.value.id
  {
    if caller.None? then Unauthorized(store)
    else
      match AsOrder(Kv.Get(store, OrderKey(id)))
      case None => Fail(store, NOT_FOUND, "Order not found")
      case Some(o) =>
        if o.userId != caller.value.id then Fail(store, FORBIDDEN, "Access denied")
        else Reply(Response(OK, OrderFound(o)), store)
  }

  /** A placed order can be fetched by its owner, pending and with the items sent,
      and by nobody else. */
  lemma CreateThenGet(store: Store, u: AuthUser, other: AuthUser, req: OrderRequest, now: nat)
    requires Complete(req) && other.id != u.id
    ensures var created := CreateOrder(store, Some(u), req, now);
      var id := created.response.body.order.id;
      && GetOrder(created.store, Some(u), id).response == Response(OK, OrderFound(created.response.body.order))
      && created.response.body.order.status == Pending
      && created.response.body.order.items == req.items.value
      && GetOrder(created.store, Some(other), id).response == Response(FORBIDDEN, Error("Access denied"))
  {
  }

  /** A placed order shows up in its owner's history when the store is scanned
      in its own enumeration order. */
  lemma CreateThenList(store: Store, u: AuthUser, req: OrderRequest, now: nat, order: seq<string>)
    requires Complete(req)
    requires Kv.Enumerates(CreateOrder(store, Some(u), req, now).store, order)
    ensures var created := CreateOrder(store, Some(u), req, now);
      created.response.body.order in ListOrders(created.store, Some(u), order).response.body.orders
  {
    var created := CreateOrder(store, Some(u), req, now);
    var o := created.response.body.order;
    var s := created.store;
    var entries := Kv.Scan(s, OrderIndexPrefix(u.id), order);
    Kv.ScanComplete(s, OrderIndexPrefix(u.id), order, OrderIndexKey(u.id, o.id));
    var j :| 0 <= j < |entries| && entries[j].0 == OrderIndexKey(u.id, o.id);
    var resolved := ResolveOrders(s, entries);
    assert o in resolved;
    assert o in multiset(resolved);
  }
}
