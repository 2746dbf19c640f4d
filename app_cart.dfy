/**
 * The shopping cart kept by the top-level App component: a list of entries,
 * each a menu item together with a quantity. The updaters build new lists
 * and never change the old one, so they are functions on sequences.
 */
module AppCart {
  import opened Wrappers

  type ItemId = string

  /** A menu item as served by the menu endpoint; the price is in paise. */
  datatype MenuItem = MenuItem(id: ItemId, name: string, price: nat, category: string)

  /** A cart entry: the item's own fields plus its quantity. */
  datatype CartEntry = CartEntry(item: MenuItem, qty: int)

  /** The cart invariant: no id occurs twice and every quantity is at least one. */
  predicate ValidCart(cart: seq<CartEntry>) {
    && (forall i, j :: 0 <= i < j < |cart| ==> cart[i].item.id != cart[j].item.id)
    && (forall i :: 0 <= i < |cart| ==> cart[i].qty >= 1)
  }

  /** The index of the first entry with the given id, as `Array.prototype.find` scans. */
  function FindEntry(cart: seq<CartEntry>, id: ItemId): (r: Option<nat>)
    ensures r.Some? ==> r.value < |cart| && cart[r.value].item.id == id
    ensures r.Some? ==> forall j :: 0 <= j < r.value ==> cart[j].item.id != id
    ensures r.None? ==> forall j :: 0 <= j < |cart| ==> cart[j].item.id != id
  {
    if cart == [] then None
    else if cart[0].item.id == id then Some(0)
    else match FindEntry(cart[1..], id)
      case None => None
      case Some(k) => Some(k + 1)
  }

  predicate InCart(cart: seq<CartEntry>, id: ItemId) {
    FindEntry(cart, id).Some?
  }

  /** Every entry with the given id gets `delta` added to its quantity; the rest are kept. */
  function MapQty(cart: seq<CartEntry>, id: ItemId, delta: int): (r: seq<CartEntry>)
    ensures |r| == |cart|
    ensures forall j :: 0 <= j < |cart| ==>
      r[j] == if cart[j].item.id == id then cart[j].(qty := cart[j].qty + delta) else cart[j]
  {
    if cart == [] then []
    else
      var head := if cart[0].item.id == id then cart[0].(qty := cart[0].qty + delta) else cart[0];
      [head] + MapQty(cart[1..], id, delta)
  }

  /** The entries whose id differs from `id`, in their original order. */
  function FilterOut(cart: seq<CartEntry>, id: ItemId): (r: seq<CartEntry>)
    ensures |r| <= |cart|
    ensures forall e :: e in r <==> e in cart && e.item.id != id
  {
    if cart == [] then []
    else if cart[0].item.id == id then FilterOut(cart[1..], id)
    else [cart[0]] + FilterOut(cart[1..], id)
  }

  /** `addToCart`: raise the quantity of the entry with the item's id, or append the item with quantity 1. */
  function AddToCart(cart: seq<CartEntry>, item: MenuItem): (r: seq<CartEntry>)
    ensures InCart(r, item.id)
    ensures |r| == if InCart(cart, item.id) then |cart| else |cart| + 1
  {
    if InCart(cart, item.id) then MapQty(cart, item.id, 1)
    else
      var r := cart + [CartEntry(item, 1)];
      assert r[|cart|].item.id == item.id;
      r
  }

  /**
   * `removeFromCart`: the source dereferences the found entry without a check,
   * so the id must be in the cart. Above quantity 1 the quantity drops by one;
   * otherwise every entry with that id is filtered out.
   */
  function RemoveFromCart(cart: seq<CartEntry>, id: ItemId): (r: seq<CartEntry>)
    requires InCart(cart, id)
    ensures |r| <= |cart|
  {
    var k := FindEntry(cart, id).value;
    if cart[k].qty > 1 then MapQty(cart, id, -1) else FilterOut(cart, id)
  }

  /** `clearCart`. */
  function ClearCart(): (r: seq<CartEntry>)
    ensures ValidCart(r)
    ensures forall id :: !InCart(r, id)
  {
    []
  }

  // ---------------------------------------------------------------------
  // Lemmas

  /** In a valid cart, the update by id touches exactly the one entry found. */
  lemma MapQtyUnique(cart: seq<CartEntry>, id: ItemId, delta: int)
    requires ValidCart(cart) && InCart(cart, id)
    ensures var k := FindEntry(cart, id).value;
      MapQty(cart, id, delta) == cart[k := cart[k].(qty := cart[k].qty + delta)]
  {
    var k := FindEntry(cart, id).value;
    var r := MapQty(cart, id, delta);
    var s := cart[k := cart[k].(qty := cart[k].qty + delta)];
    assert |r| == |s|;
    forall j | 0 <= j < |r| ensures r[j] == s[j] {
      if j != k {
        assert cart[j].item.id != id by {
          if j < k {} else { assert cart[k].item.id != cart[j].item.id; }
        }
      }
    }
  }

  /** In a valid cart, filtering out an id present at index k removes exactly that entry. */
  lemma {:induction false} FilterOutUnique(cart: seq<CartEntry>, id: ItemId, k: nat)
    requires k < |cart| && cart[k].item.id == id
    requires forall j :: 0 <= j < |cart| && j != k ==> cart[j].item.id != id
    ensures FilterOut(cart, id) == cart[..k] + cart[k + 1..]
  {
    if k == 0 {
      FilterOutAbsent(cart[1..], id);
    } else {
      FilterOutUnique(cart[1..], id, k - 1);
      assert cart[1..][..k - 1] == cart[1..k];
      assert cart[1..][k..] == cart[k + 1..];
      assert cart[..k] == [cart[0]] + cart[1..k];
    }
  }

  /** Filtering out an absent id leaves the cart as it is. */
  lemma {:induction false} FilterOutAbsent(cart: seq<CartEntry>, id: ItemId)
    requires forall j :: 0 <= j < |cart| ==> cart[j].item.id != id
    ensures FilterOut(cart, id) == cart
  {
    if cart != [] {
      FilterOutAbsent(cart[1..], id);
    }
  }

  /** Adding an item whose id is not in the cart appends it with quantity 1. */
  lemma AddNewItemAppends(cart: seq<CartEntry>, item: MenuItem)
    requires !InCart(cart, item.id)
    ensures AddToCart(cart, item) == cart + [CartEntry(item, 1)]
  {
  }

  /**
   * Adding an item whose id is present raises that entry's quantity by one;
   * length, order and every other entry stay as they were.
   */
  lemma AddExistingItemIncrements(cart: seq<CartEntry>, item: MenuItem)
    requires ValidCart(cart) && InCart(cart, item.id)
    ensures var k := FindEntry(cart, item.id).value;
      AddToCart(cart, item) == cart[k := cart[k].(qty := cart[k].qty + 1)]
  {
    MapQtyUnique(cart, item.id, 1);
  }

  /** Removing an id whose entry has quantity above 1 lowers that quantity by one and changes nothing else. */
  lemma RemoveDecrements(cart: seq<CartEntry>, id: ItemId)
    requires ValidCart(cart) && InCart(cart, id)
    requires cart[FindEntry(cart, id).value].qty > 1
    ensures var k := FindEntry(cart, id).value;
      RemoveFromCart(cart, id) == cart[k := cart[k].(qty := cart[k].qty - 1)]
  {
    MapQtyUnique(cart, id, -1);
  }

  /** Removing an id whose entry has quantity 1 deletes that entry and keeps the others in order. */
  lemma RemoveDeletes(cart: seq<CartEntry>, id: ItemId)
    requires ValidCart(cart) && InCart(cart, id)
    requires cart[FindEntry(cart, id).value].qty == 1
    ensures var k := FindEntry(cart, id).value;
      RemoveFromCart(cart, id) == cart[..k] + cart[k + 1..]
  {
    var k := FindEntry(cart, id).value;
    forall j | 0 <= j < |cart| && j != k ensures cart[j].item.id != id {
      if j > k { assert cart[k].item.id != cart[j].item.id; }
    }
    FilterOutUnique(cart, id, k);
  }

  /** Setting one entry's quantity to a positive value keeps the cart invariant. */
  lemma SetQtyValid(cart: seq<CartEntry>, k: nat, q: int)
    requires ValidCart(cart) && k < |cart| && q >= 1
    ensures ValidCart(cart[k := cart[k].(qty := q)])
  {
    var r := cart[k := cart[k].(qty := q)];
    forall i, j | 0 <= i < j < |r| ensures r[i].item.id != r[j].item.id {
      assert r[i].item == cart[i].item && r[j].item == cart[j].item;
    }
  }

  /** Deleting one entry keeps the cart invariant. */
  lemma DeleteValid(cart: seq<CartEntry>, k: nat)
    requires ValidCart(cart) && k < |cart|
    ensures ValidCart(cart[..k] + cart[k + 1..])
  {
    var r := cart[..k] + cart[k + 1..];
    forall i | 0 <= i < |r| ensures r[i] == cart[if i < k then i else i + 1] {}
    forall i, j | 0 <= i < j < |r| ensures r[i].item.id != r[j].item.id {
      assert r[i] == cart[if i < k then i else i + 1];
      assert r[j] == cart[if j < k then j else j + 1];
    }
  }

  /** Adding keeps the cart invariant. */
  lemma AddPreservesValid(cart: seq<CartEntry>, item: MenuItem)
    requires ValidCart(cart)
    ensures ValidCart(AddToCart(cart, item))
  {
    if InCart(cart, item.id) {
      AddExistingItemIncrements(cart, item);
      var k := FindEntry(cart, item.id).value;
      SetQtyValid(cart, k, cart[k].qty + 1);
    }
  }

  /** Removing keeps the cart invariant. */
  lemma RemovePreservesValid(cart: seq<CartEntry>, id: ItemId)
    requires ValidCart(cart) && InCart(cart, id)
    ensures ValidCart(RemoveFromCart(cart, id))
  {
    var k := FindEntry(cart, id).value;
    if cart[k].qty > 1 {
      RemoveDecrements(cart, id);
      SetQtyValid(cart, k, cart[k].qty - 1);
    } else {
      RemoveDeletes(cart, id);
      DeleteValid(cart, k);
    }
  }

  /** The lookup sees only ids, so changing a quantity does not move it. */
  lemma FindEntryIgnoresQty(cart: seq<CartEntry>, k: nat, q: int, id: ItemId)
    requires k < |cart|
    ensures FindEntry(cart[k := cart[k].(qty := q)], id) == FindEntry(cart, id)
  {
    var r := cart[k := cart[k].(qty := q)];
    var a, b := FindEntry(r, id), FindEntry(cart, id);
    assert forall j :: 0 <= j < |r| ==> r[j].item.id == cart[j].item.id;
    if a.Some? && b.Some? {
      assert !(a.value < b.value) && !(b.value < a.value);
    }
  }

  lemma RemoveUndoesAddExisting(cart: seq<CartEntry>, item: MenuItem)
    requires ValidCart(cart) && InCart(cart, item.id)
    ensures RemoveFromCart(AddToCart(cart, item), item.id) == cart
  {
    var k := FindEntry(cart, item.id).value;
    var q := cart[k].qty + 1;
    var added := cart[k := cart[k].(qty := q)];
    AddExistingItemIncrements(cart, item);
    assert AddToCart(cart, item) == added;
    SetQtyValid(cart, k, q);
    FindEntryIgnoresQty(cart, k, q, item.id);
    assert FindEntry(added, item.id) == Some(k);
    assert added[k].qty > 1;
    RemoveDecrements(added, item.id);
    assert RemoveFromCart(added, item.id) == added[k := added[k].(qty := q - 1)];
    assert added[k := added[k].(qty := q - 1)] == cart;
  }

  lemma RemoveUndoesAddNew(cart: seq<CartEntry>, item: MenuItem)
    requires ValidCart(cart) && !InCart(cart, item.id)
    ensures RemoveFromCart(AddToCart(cart, item), item.id) == cart
  {
    var added := AddToCart(cart, item);
    AddNewItemAppends(cart, item);
    AddPreservesValid(cart, item);
    assert FindEntry(added, item.id) == Some(|cart|);
    RemoveDeletes(added, item.id);
    assert added[..|cart|] == cart;
  }

  /** Removing an item right after adding it gives back the cart it was added to. */
  lemma RemoveUndoesAdd(cart: seq<CartEntry>, item: MenuItem)
    requires ValidCart(cart)
    ensures RemoveFromCart(AddToCart(cart, item), item.id) == cart
  {
    if InCart(cart, item.id) {
      RemoveUndoesAddExisting(cart, item);
    } else {
      RemoveUndoesAddNew(cart, item);
    }
  }
}
