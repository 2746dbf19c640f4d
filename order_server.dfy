/**
 * The order endpoints of the Express server: create an order, patch its
 * status fields, list all orders newest first. The JSON file behind them is
 * modelled as an in-memory list owned by an OrderStore object.
 */
module OrderServer {
  import opened Wrappers
  import opened AppCart

  type OrderId = string

  /** The customer record sent at checkout (name, phone, ...), kept as a field map. */
  datatype Customer = Customer(fields: map<string, string>)

  const EmptyCustomer := Customer(map[])

  datatype Order = Order(
    id: OrderId,
    items: seq<CartEntry>,
    total: int,            // paise, as sent by the client
    paymentMethod: string, // 'UPI' or 'Cash'
    paymentStatus: string,
    customer: Customer,
    deviceHash: string,
    status: string,
    createdAt: int)        // timestamp

  /** The body of a create request; an absent or null field is None. */
  datatype CreateRequest = CreateRequest(
    items: Option<seq<CartEntry>>,
    total: int,
    paymentMethod: string,
    customer: Option<Customer>,
    deviceHash: string)

  /** The body of a patch request. */
  datatype PatchRequest = PatchRequest(status: Option<string>, paymentStatus: Option<string>)

  /** What a handler answers: 201, 200, 400 or 404 with its JSON body. */
  datatype Response =
    | Created(order: Order)
    | Updated(order: Order)
    | BadRequest(error: string)
    | NotFound(error: string)

  const NoItemsError := "No items in order"
  const NotFoundError := "Order not found"
  const Received := "received"
  const Pending := "pending"
  const Upi := "UPI"

  function Ids(orders: seq<Order>): set<OrderId> {
    set i | 0 <= i < |orders| :: orders[i].id
  }

  /** The store invariant kept by fresh ids: no id occurs twice. */
  predicate UniqueIds(orders: seq<Order>) {
    forall i, j :: 0 <= i < j < |orders| ==> orders[i].id != orders[j].id
  }

  /** A create request is accepted exactly when its item list is present and non-empty. */
  predicate HasItems(req: CreateRequest) {
    req.items.Some? && |req.items.value| != 0
  }

  /** The order the server builds for an accepted request. */
  function NewOrder(req: CreateRequest, id: OrderId, now: int): (o: Order)
    requires HasItems(req)
    ensures o.status == Received && o.paymentStatus == Pending
    ensures o.id == id && o.createdAt == now
    ensures o.items == req.items.value && o.total == req.total
    ensures o.paymentMethod == req.paymentMethod && o.deviceHash == req.deviceHash
    ensures req.customer.None? ==> o.customer == EmptyCustomer
    ensures req.customer.Some? ==> o.customer == req.customer.value
  {
    Order(
      id := id,
      items := req.items.value,
      total := req.total,
      paymentMethod := req.paymentMethod,
      paymentStatus := if req.paymentMethod == Upi then Pending else Pending,
      customer := req.customer.GetOr(EmptyCustomer),
      deviceHash := req.deviceHash,
      status := Received,
      createdAt := now)
  }

  /** `findIndex` by id: the first matching index, or -1. */
  function FindIndex(orders: seq<Order>, id: OrderId): (r: int)
    ensures -1 <= r < |orders|
    ensures r == -1 <==> id !in Ids(orders)
    ensures r != -1 ==> orders[r].id == id && forall j :: 0 <= j < r ==> orders[j].id != id
  {
    if orders == [] then -1
    else if orders[0].id == id then 0
    else
      var k := FindIndex(orders[1..], id);
      assert Ids(orders) == {orders[0].id} + Ids(orders[1..]) by {
        forall x | x in Ids(orders) ensures x in {orders[0].id} + Ids(orders[1..]) {
          var i :| 0 <= i < |orders| && orders[i].id == x;
          if i > 0 { assert orders[1..][i - 1].id == x; }
        }
      }
      if k == -1 then -1 else k + 1
  }

  /** A patch field is applied only when it is present and not the empty string. */
  predicate Truthy(s: Option<string>) {
    s.Some? && s.value != ""
  }

  /** The patched order: status fields given in the request replace the stored ones. */
  function ApplyPatch(o: Order, p: PatchRequest): (r: Order)
    ensures r.status == if Truthy(p.status) then p.status.value else o.status
    ensures r.paymentStatus == if Truthy(p.paymentStatus) then p.paymentStatus.value else o.paymentStatus
    ensures r.(status := o.status, paymentStatus := o.paymentStatus) == o
  {
    var o1 := if Truthy(p.status) then o.(status := p.status.value) else o;
    if Truthy(p.paymentStatus) then o1.(paymentStatus := p.paymentStatus.value) else o1
  }

  /** Newest first: timestamps never increase along the list. */
  predicate NewestFirst(s: seq<Order>) {
    forall i, j :: 0 <= i < j < |s| ==> s[i].createdAt >= s[j].createdAt
  }

  /** Insert `x` after every order at least as new as it, keeping the list newest first. */
  function InsertNewestFirst(s: seq<Order>, x: Order): (r: seq<Order>)
    requires NewestFirst(s)
    ensures NewestFirst(r)
    ensures multiset(r) == multiset(s) + multiset{x}
  {
    if s == [] then [x]
    else if s[0].createdAt >= x.createdAt then
      var rest := InsertNewestFirst(s[1..], x);
      HeadBoundsRest(s[0], s[1..], x, rest);
      assert s == [s[0]] + s[1..];
      [s[0]] + rest
    else
      [x] + s
  }

  /** Prepending an order at least as new as everything in a newest-first list keeps it newest first. */
  lemma HeadBoundsRest(h: Order, t: seq<Order>, x: Order, rest: seq<Order>)
    requires NewestFirst([h] + t) && NewestFirst(rest)
    requires h.createdAt >= x.createdAt
    requires multiset(rest) == multiset(t) + multiset{x}
    ensures NewestFirst([h] + rest)
  {
    forall j | 0 <= j < |rest| ensures rest[j].createdAt <= h.createdAt {
      assert rest[j] in multiset(rest);
      if rest[j] != x {
        assert rest[j] in multiset(t);
        assert rest[j] in t;
        var i :| 0 <= i < |t| && t[i] == rest[j];
        var ht := [h] + t;
        assert ht[0] == h && ht[i + 1] == t[i];
        assert ht[0].createdAt >= ht[i + 1].createdAt;
      }
    }
    var r := [h] + rest;
    forall i, j | 0 <= i < j < |r| ensures r[i].createdAt >= r[j].createdAt {
      if i > 0 { assert r[i] == rest[i - 1] && r[j] == rest[j - 1]; }
      else { assert r[j] == rest[j - 1]; }
    }
  }

  /** Ids of two lists agree when the lists agree on every id. */
  lemma IdsSameShape(a: seq<Order>, b: seq<Order>)
    requires |a| == |b| && forall i :: 0 <= i < |a| ==> a[i].id == b[i].id
    ensures Ids(a) == Ids(b) && (UniqueIds(a) <==> UniqueIds(b))
  {
    forall x | x in Ids(a) ensures x in Ids(b) {
      var i :| 0 <= i < |a| && a[i].id == x;
      assert b[i].id == x;
    }
    forall x | x in Ids(b) ensures x in Ids(a) {
      var i :| 0 <= i < |b| && b[i].id == x;
      assert a[i].id == x;
    }
  }

  /** Appending an order with a fresh id keeps ids unique and adds exactly that id. */
  lemma AppendFresh(orders: seq<Order>, o: Order)
    requires UniqueIds(orders) && o.id !in Ids(orders)
    ensures UniqueIds(orders + [o])
    ensures Ids(orders + [o]) == Ids(orders) + {o.id}
  {
    var r := orders + [o];
    forall i, j | 0 <= i < j < |r| ensures r[i].id != r[j].id {
      if j == |orders| { assert r[i].id in Ids(orders); }
    }
    forall x | x in Ids(r) ensures x in Ids(orders) + {o.id} {
      var i :| 0 <= i < |r| && r[i].id == x;
      if i < |orders| { assert orders[i].id == x; }
    }
    forall x | x in Ids(orders) ensures x in Ids(r) {
      var i :| 0 <= i < |orders| && orders[i].id == x;
      assert r[i].id == x;
    }
    assert r[|orders|].id == o.id;
  }

  /** The in-memory order list and its three handlers. */
  class OrderStore {
    var orders: seq<Order>

    /** The store invariant: no id occurs twice; under it, a patch reaches every order with its id. */
    ghost predicate Valid()
      reads this
    {
      UniqueIds(orders)
    }

    constructor ()
      ensures Valid() && orders == []
    {
      orders := [];
    }

    /**
     * POST /api/orders. `id` stands for the fresh random UUID and `now` for
     * the clock; an empty or missing item list is rejected before the list
     * is touched.
     */
    method Create(req: CreateRequest, id: OrderId, now: int) returns (resp: Response)
      requires id !in Ids(orders)
      modifies this
      ensures !HasItems(req) ==> resp == BadRequest(NoItemsError) && orders == old(orders)
      ensures HasItems(req) ==>
        && resp == Created(NewOrder(req, id, now))
        && orders == old(orders) + [NewOrder(req, id, now)]
        && Ids(orders) == old(Ids(orders)) + {id}
      ensures old(Valid()) ==> Valid()
    {
      if req.items.None? || |req.items.value| == 0 {
        return BadRequest(NoItemsError);
      }
      var newOrder := NewOrder(req, id, now);
      if Valid() {
        AppendFresh(orders, newOrder);
      } else {
        AppendFreshIds(orders, newOrder);
      }
      orders := orders + [newOrder];
      resp := Created(newOrder);
    }

    /**
     * PATCH /api/orders/:id. The first order with the id has its status
     * and payment status overwritten by whichever of them the request gives
     * non-empty; nothing else changes.
     */
    method Patch(id: OrderId, p: PatchRequest) returns (resp: Response)
      modifies this
      ensures var k := FindIndex(old(orders), id);
        && (k == -1 ==> resp == NotFound(NotFoundError) && orders == old(orders))
        && (k != -1 ==>
              && orders == old(orders)[k := ApplyPatch(old(orders)[k], p)]
              && resp == Updated(orders[k]))
      ensures Ids(orders) == old(Ids(orders))
      ensures old(Valid()) ==> Valid()
      // with unique ids, the first match is the only one: every order carrying the id is patched
      ensures old(Valid()) ==> forall j :: 0 <= j < |orders| && orders[j].id == id ==>
        j == FindIndex(old(orders), id) && orders[j] == ApplyPatch(old(orders)[j], p)
    {
      var k := FindIndex(orders, id);
      if k == -1 {
        return NotFound(NotFoundError);
      }
      var o := orders[k];
      if Truthy(p.status) {
        o := o.(status := p.status.value);
      }
      if Truthy(p.paymentStatus) {
        o := o.(paymentStatus := p.paymentStatus.value);
      }
      assert o == ApplyPatch(orders[k], p);
      IdsSameShape(orders, orders[k := o]);
      orders := orders[k := o];
      resp := Updated(orders[k]);
    }

    /** GET /api/orders: every stored order, newest first; the store is not changed. */
    method List() returns (r: seq<Order>)
      ensures NewestFirst(r)
      ensures multiset(r) == multiset(orders)
    {
      r := [];
      for i := 0 to |orders|
        invariant NewestFirst(r)
        invariant multiset(r) == multiset(orders[..i])
      {
        r := InsertNewestFirst(r, orders[i]);
        assert orders[..i + 1] == orders[..i] + [orders[i]];
      }
      assert orders[..|orders|] == orders;
    }
  }

  /** Appending adds exactly the new id, whether or not ids were unique before. */
  lemma AppendFreshIds(orders: seq<Order>, o: Order)
    ensures Ids(orders + [o]) == Ids(orders) + {o.id}
  {
    var r := orders + [o];
    forall x | x in Ids(r) ensures x in Ids(orders) + {o.id} {
      var i :| 0 <= i < |r| && r[i].id == x;
      if i < |orders| { assert orders[i].id == x; }
    }
    forall x | x in Ids(orders) ensures x in Ids(r) {
      var i :| 0 <= i < |orders| && orders[i].id == x;
      assert r[i].id == x;
    }
    assert r[|orders|].id == o.id;
  }

  /** Patching keeps every field but the two status fields, whatever the request. */
  lemma PatchKeepsOtherFields(o: Order, p: PatchRequest)
    ensures var r := ApplyPatch(o, p);
      && r.id == o.id && r.items == o.items && r.total == o.total
      && r.paymentMethod == o.paymentMethod && r.customer == o.customer
      && r.deviceHash == o.deviceHash && r.createdAt == o.createdAt
  {
  }

  /**
   * The server does not enforce the kitchen lifecycle: any non-empty status
   * is stored, including moving a completed order back to received.
   */
  lemma PatchAcceptsAnyStatus(o: Order, s: string)
    requires s != ""
    ensures ApplyPatch(o, PatchRequest(Some(s), None)).status == s
    ensures ApplyPatch(o, PatchRequest(Some(s), None)).paymentStatus == o.paymentStatus
  {
  }
}
