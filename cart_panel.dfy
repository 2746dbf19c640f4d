/**
 * The cart bar and checkout flow: totals folded over the cart, the message
 * and order number shown after a successful order, and the component state
 * that `handleSuccess` resets.
 */
module CartPanel {
  import opened Wrappers
  import opened AppCart
  import opened OrderServer

  /** A left-to-right `reduce` that adds `f` of every entry, starting from 0. */
  function SumOver(cart: seq<CartEntry>, f: CartEntry -> int): int {
    if cart == [] then 0 else f(cart[0]) + SumOver(cart[1..], f)
  }

  function LineTotal(e: CartEntry): int {
    e.item.price * e.qty
  }

  function LineQty(e: CartEntry): int {
    e.qty
  }

  /** `total`: the sum of price times quantity, in paise. */
  function Total(cart: seq<CartEntry>): int {
    SumOver(cart, LineTotal)
  }

  /** `itemCount`: the sum of the quantities. */
  function ItemCount(cart: seq<CartEntry>): int {
    SumOver(cart, LineQty)
  }

  /** The fold distributes over concatenation. */
  lemma {:induction false} SumOverAppend(a: seq<CartEntry>, b: seq<CartEntry>, f: CartEntry -> int)
    ensures SumOver(a + b, f) == SumOver(a, f) + SumOver(b, f)
  {
    if a != [] {
      assert (a + b)[1..] == a[1..] + b;
      SumOverAppend(a[1..], b, f);
    } else {
      assert a + b == b;
    }
  }

  /** Replacing one entry changes the fold by the difference of that entry's terms. */
  lemma {:induction false} SumOverSet(cart: seq<CartEntry>, k: nat, e: CartEntry, f: CartEntry -> int)
    requires k < |cart|
    ensures SumOver(cart[k := e], f) == SumOver(cart, f) - f(cart[k]) + f(e)
  {
    if k == 0 {
      assert cart[k := e][1..] == cart[1..];
    } else {
      assert cart[k := e][1..] == cart[1..][k - 1 := e];
      SumOverSet(cart[1..], k - 1, e, f);
    }
  }

  /** Deleting one entry lowers the fold by that entry's term. */
  lemma SumOverDelete(cart: seq<CartEntry>, k: nat, f: CartEntry -> int)
    requires k < |cart|
    ensures SumOver(cart[..k] + cart[k + 1..], f) == SumOver(cart, f) - f(cart[k])
  {
    assert cart == cart[..k] + ([cart[k]] + cart[k + 1..]);
    SumOverAppend(cart[..k], [cart[k]] + cart[k + 1..], f);
    SumOverAppend(cart[..k], cart[k + 1..], f);
    assert ([cart[k]] + cart[k + 1..])[1..] == cart[k + 1..];
  }

  /** Under the cart invariant every entry counts at least once: the item count is at least the number of entries. */
  lemma {:induction false} ItemCountAtLeastLength(cart: seq<CartEntry>)
    requires ValidCart(cart)
    ensures ItemCount(cart) >= |cart|
    ensures ItemCount(cart) == 0 <==> cart == []
  {
    if cart != [] {
      assert ValidCart(cart[1..]) by {
        assert forall i :: 0 <= i < |cart[1..]| ==> cart[1..][i] == cart[i + 1];
      }
      ItemCountAtLeastLength(cart[1..]);
    }
  }

  /** The cleared cart totals nothing and counts nothing. */
  lemma ClearedCartIsZero()
    ensures Total(ClearCart()) == 0 && ItemCount(ClearCart()) == 0
  {
  }

  /** The price an add charges: that of the entry already in the cart with the id, or the item's own. */
  function UnitPrice(cart: seq<CartEntry>, item: MenuItem): nat {
    match FindEntry(cart, item.id)
    case Some(k) => cart[k].item.price
    case None => item.price
  }

  /** After an add the item count rises by exactly one and the total by one unit price. */
  lemma AddRaisesTotals(cart: seq<CartEntry>, item: MenuItem)
    requires ValidCart(cart)
    ensures ItemCount(AddToCart(cart, item)) == ItemCount(cart) + 1
    ensures Total(AddToCart(cart, item)) == Total(cart) + UnitPrice(cart, item)
  {
    if InCart(cart, item.id) {
      AddExistingRaisesTotals(cart, item);
    } else {
      AddNewItemAppends(cart, item);
      SumOverAppend(cart, [CartEntry(item, 1)], LineTotal);
      SumOverAppend(cart, [CartEntry(item, 1)], LineQty);
      assert SumOver([CartEntry(item, 1)], LineTotal) == item.price;
      assert SumOver([CartEntry(item, 1)], LineQty) == 1;
    }
  }

  lemma AddExistingRaisesTotals(cart: seq<CartEntry>, item: MenuItem)
    requires ValidCart(cart) && InCart(cart, item.id)
    ensures ItemCount(AddToCart(cart, item)) == ItemCount(cart) + 1
    ensures Total(AddToCart(cart, item)) == Total(cart) + UnitPrice(cart, item)
  {
    var k := FindEntry(cart, item.id).value;
    var e := cart[k].(qty := cart[k].qty + 1);
    AddExistingItemIncrements(cart, item);
    assert AddToCart(cart, item) == cart[k := e];
    SumOverSet(cart, k, e, LineTotal);
    SumOverSet(cart, k, e, LineQty);
    assert LineTotal(e) == LineTotal(cart[k]) + cart[k].item.price;
  }

  /** When the cart already holds this very menu item, an add raises the total by its price. */
  lemma AddRaisesTotalByPrice(cart: seq<CartEntry>, item: MenuItem)
    requires ValidCart(cart)
    requires forall j :: 0 <= j < |cart| && cart[j].item.id == item.id ==> cart[j].item == item
    ensures Total(AddToCart(cart, item)) == Total(cart) + item.price
  {
    AddRaisesTotals(cart, item);
  }

  /** After a remove the item count drops by exactly one and the total by the entry's price. */
  lemma RemoveLowersTotals(cart: seq<CartEntry>, id: ItemId)
    requires ValidCart(cart) && InCart(cart, id)
    ensures var k := FindEntry(cart, id).value;
      && ItemCount(RemoveFromCart(cart, id)) == ItemCount(cart) - 1
      && Total(RemoveFromCart(cart, id)) == Total(cart) - cart[k].item.price
  {
    var k := FindEntry(cart, id).value;
    if cart[k].qty > 1 {
      var e := cart[k].(qty := cart[k].qty - 1);
      RemoveDecrements(cart, id);
      SumOverSet(cart, k, e, LineTotal);
      SumOverSet(cart, k, e, LineQty);
    } else {
      RemoveDeletes(cart, id);
      SumOverDelete(cart, k, LineTotal);
      SumOverDelete(cart, k, LineQty);
    }
  }

  const UpiPrompt := "Please complete payment in your UPI app."
  const CounterPrompt := "Please pay at the counter."

  /** The payment prompt of the success overlay. */
  function SuccessMessage(paymentMethod: string): (m: string)
    ensures m == UpiPrompt <==> paymentMethod == Upi
    ensures m == CounterPrompt <==> paymentMethod != Upi
  {
    if paymentMethod == Upi then UpiPrompt else CounterPrompt
  }

  function Min(a: int, b: int): int {
    if a <= b then a else b
  }

  /** The order number shown: `id.slice(0, 8)`. */
  function OrderNumber(id: OrderId): (n: string)
    ensures |n| == Min(8, |id|)
    ensures n <= id
  {
    id[..Min(8, |id|)]
  }

  /** What occupies the cart slot at the bottom of the page. */
  datatype View =
    | Hidden
    | SuccessOverlay(orderNumber: string, message: string)
    | CartBar(itemCount: int, total: int, checkoutOpen: bool)

  /**
   * The Cart component's state (`isCheckoutOpen`, `orderSuccess`) together
   * with the App's cart that it receives and clears through `clearCart`.
   */
  class CheckoutPanel {
    var cart: seq<CartEntry>
    var isCheckoutOpen: bool
    var orderSuccess: Option<Order>

    constructor (cart: seq<CartEntry>)
      ensures this.cart == cart && !isCheckoutOpen && orderSuccess == None
    {
      this.cart := cart;
      isCheckoutOpen := false;
      orderSuccess := None;
    }

    /** The component's own render: the success overlay while an order is held, the cart bar otherwise. */
    function Screen(): View
      reads this
    {
      match orderSuccess
      case Some(order) => SuccessOverlay(OrderNumber(order.id), SuccessMessage(order.paymentMethod))
      case None => CartBar(ItemCount(cart), Total(cart), isCheckoutOpen)
    }

    /**
     * The intended mount condition, the one `handleSuccess` relies on: the
     * component stays on the page while the cart has entries or an order
     * success is held.
     */
    predicate Mounted()
      reads this
    {
      |cart| > 0 || orderSuccess.Some?
    }

    /** What the page shows under the intended mount condition. */
    function Rendered(): View
      reads this
    {
      if Mounted() then Screen() else Hidden
    }

    /** The mount condition as App wires it: only while the cart has entries. */
    predicate MountedAsWritten()
      reads this
    {
      |cart| > 0
    }

    /** What the page shows under App's mount condition. */
    function RenderedAsWritten(): View
      reads this
    {
      if MountedAsWritten() then Screen() else Hidden
    }

    /** The Checkout button. */
    method OpenCheckout()
      modifies this
      ensures isCheckoutOpen
      ensures cart == old(cart) && orderSuccess == old(orderSuccess)
    {
      isCheckoutOpen := true;
    }

    /** The modal's close handler. */
    method CloseCheckout()
      modifies this
      ensures !isCheckoutOpen
      ensures cart == old(cart) && orderSuccess == old(orderSuccess)
    {
      isCheckoutOpen := false;
    }

    /**
     * `handleSuccess`: record the order, close checkout, clear the cart; the
     * page then shows the order number and the payment prompt.
     */
    method HandleSuccess(order: Order)
      modifies this
      ensures orderSuccess == Some(order) && !isCheckoutOpen && cart == []
      ensures Rendered() == SuccessOverlay(OrderNumber(order.id), SuccessMessage(order.paymentMethod))
    {
      orderSuccess := Some(order);
      isCheckoutOpen := false;
      cart := ClearCart();
    }

    /**
     * `handleSuccess` as the page is wired: the same three updates, but App
     * mounts the component only while the cart is non-empty, so clearing the
     * cart unmounts it; the success overlay it would render never reaches
     * the page, and the unmounted state, the recorded order included, is
     * discarded.
     */
    method HandleSuccessAsWritten(order: Order)
      modifies this
      ensures orderSuccess == Some(order) && !isCheckoutOpen && cart == []
      ensures Screen() == SuccessOverlay(OrderNumber(order.id), SuccessMessage(order.paymentMethod))
      ensures !MountedAsWritten() && RenderedAsWritten() == Hidden
    {
      orderSuccess := Some(order);
      isCheckoutOpen := false;
      cart := ClearCart();
    }

    /** The overlay's Close button. */
    method DismissSuccess()
      modifies this
      ensures orderSuccess == None
      ensures cart == old(cart) && isCheckoutOpen == old(isCheckoutOpen)
    {
      orderSuccess := None;
    }
  }
}
