/**
 * The menu page: the quantity shown beside each item, the choice between
 * the Add button and the +/- stepper, and the grouping of the menu into
 * categories.
 */
module MenuView {
  import opened Wrappers
  import opened AppCart

  /** `getQty`: the quantity of the first cart entry with the id, or 0 when there is none. */
  function GetQty(cart: seq<CartEntry>, id: ItemId): int {
    match FindEntry(cart, id)
    case Some(k) => cart[k].qty
    case None => 0
  }

  /** Under the cart invariant the quantity shown is the quantity of the entry with that id. */
  lemma GetQtyOfEntry(cart: seq<CartEntry>, k: nat)
    requires ValidCart(cart) && k < |cart|
    ensures GetQty(cart, cart[k].item.id) == cart[k].qty
  {
    var f := FindEntry(cart, cart[k].item.id);
    assert f.Some? && f.value <= k;
    assert f.value == k;
  }

  /** Under the cart invariant a positive quantity is shown exactly for the ids in the cart. */
  lemma GetQtyPositiveIffInCart(cart: seq<CartEntry>, id: ItemId)
    requires ValidCart(cart)
    ensures GetQty(cart, id) > 0 <==> InCart(cart, id)
    ensures !InCart(cart, id) ==> GetQty(cart, id) == 0
  {
  }

  /** The controls shown for an item: the Add button, or the stepper with its count. */
  datatype Control = AddButton | Stepper(qty: int)

  function ControlFor(cart: seq<CartEntry>, id: ItemId): Control {
    if GetQty(cart, id) > 0 then Stepper(GetQty(cart, id)) else AddButton
  }

  /**
   * The stepper is shown exactly for items in the cart, with their quantity;
   * its "-" button therefore never calls `removeFromCart` on an absent id.
   */
  lemma StepperIffInCart(cart: seq<CartEntry>, id: ItemId)
    requires ValidCart(cart)
    ensures ControlFor(cart, id).Stepper? <==> InCart(cart, id)
    ensures ControlFor(cart, id).Stepper? ==> ControlFor(cart, id).qty == GetQty(cart, id) >= 1
  {
    GetQtyPositiveIffInCart(cart, id);
  }

  /** Whatever the cart, a shown stepper's "-" meets the precondition of `removeFromCart`. */
  lemma StepperMinusIsSafe(cart: seq<CartEntry>, id: ItemId)
    requires ControlFor(cart, id).Stepper?
    ensures InCart(cart, id)
  {
  }

  /** Pressing Add on an item not yet in the cart turns its Add button into a stepper showing 1. */
  lemma AddShowsStepper(cart: seq<CartEntry>, item: MenuItem)
    requires ValidCart(cart) && !InCart(cart, item.id)
    ensures ControlFor(AddToCart(cart, item), item.id) == Stepper(1)
  {
    AddNewItemAppends(cart, item);
    AddPreservesValid(cart, item);
    GetQtyOfEntry(AddToCart(cart, item), |cart|);
  }

  // ---------------------------------------------------------------------
  // Grouping by category

  function Init<T>(s: seq<T>): seq<T>
    requires s != []
  {
    s[..|s| - 1]
  }

  function Last<T>(s: seq<T>): T
    requires s != []
  {
    s[|s| - 1]
  }

  /** The categories of the menu, each once, in order of first appearance. */
  function Categories(menu: seq<MenuItem>): (cs: seq<string>)
    ensures forall i, j :: 0 <= i < j < |cs| ==> cs[i] != cs[j]
  {
    if menu == [] then []
    else
      var cs := Categories(Init(menu));
      if Last(menu).category in cs then cs else cs + [Last(menu).category]
  }

  /** Exactly the categories of the menu's items are listed. */
  lemma {:induction false} CategoriesListed(menu: seq<MenuItem>)
    ensures forall i :: 0 <= i < |menu| ==> menu[i].category in Categories(menu)
    ensures forall c :: c in Categories(menu) ==> exists i :: 0 <= i < |menu| && menu[i].category == c
  {
    if menu != [] {
      var m := Init(menu);
      assert forall i :: 0 <= i < |m| ==> m[i] == menu[i];
      CategoriesListed(m);
    }
  }

  /** The items of category `c`, in menu order. */
  function ItemsIn(menu: seq<MenuItem>, c: string): (r: seq<MenuItem>)
    ensures forall x :: x in r ==> x in menu && x.category == c
  {
    if menu == [] then []
    else ItemsIn(Init(menu), c) + if Last(menu).category == c then [Last(menu)] else []
  }

  /** The grouped menu: one group per category. */
  function Grouped(menu: seq<MenuItem>): map<string, seq<MenuItem>> {
    map c | c in Categories(menu) :: ItemsIn(menu, c)
  }

  /** A category absent from the menu has no items. */
  lemma ItemsInAbsent(menu: seq<MenuItem>, c: string)
    requires c !in Categories(menu)
    ensures ItemsIn(menu, c) == []
  {
    if menu != [] {
      var m := Init(menu);
      assert forall i :: 0 <= i < |m| ==> m[i] == menu[i];
      assert Last(menu).category in Categories(menu);
      ItemsInAbsent(m, c);
    }
  }

  lemma CategoriesSnoc(menu: seq<MenuItem>, x: MenuItem)
    ensures Categories(menu + [x]) ==
      if x.category in Categories(menu) then Categories(menu) else Categories(menu) + [x.category]
  {
    assert Init(menu + [x]) == menu;
  }

  lemma ItemsInSnoc(menu: seq<MenuItem>, x: MenuItem, c: string)
    ensures ItemsIn(menu + [x], c) == ItemsIn(menu, c) + if x.category == c then [x] else []
  {
    assert Init(menu + [x]) == menu;
  }

  /** One more item adds its category to the group keys, and nothing else. */
  lemma GroupedKeysSnoc(menu: seq<MenuItem>, x: MenuItem)
    ensures Grouped(menu + [x]).Keys == Grouped(menu).Keys + {x.category}
  {
    CategoriesSnoc(menu, x);
    var cs, cs2 := Categories(menu), Categories(menu + [x]);
    assert forall c :: c in cs2 <==> c in cs || c == x.category;
  }

  /** One more item extends its own category's group, creating it if needed, and no other. */
  lemma GroupedSnoc(menu: seq<MenuItem>, x: MenuItem)
    ensures var g := Grouped(menu);
      Grouped(menu + [x]) == g[x.category := (if x.category in g then g[x.category] else []) + [x]]
  {
    var m := menu + [x];
    var g, g2 := Grouped(menu), Grouped(m);
    var h := g[x.category := (if x.category in g then g[x.category] else []) + [x]];
    CategoriesSnoc(menu, x);
    if x.category !in g {
      ItemsInAbsent(menu, x.category);
    }
    GroupedKeysSnoc(menu, x);
    forall c | c in g2 ensures g2[c] == h[c] {
      ItemsInSnoc(menu, x, c);
    }
  }

  /**
   * `groupedMenu`: the reduce that fills an initially empty object, creating a
   * category's list on its first item and pushing each item onto its list.
   * `keys` is the object's key order, that of first appearance.
   */
  method GroupByCategory(menu: seq<MenuItem>) returns (groups: map<string, seq<MenuItem>>, keys: seq<string>)
    ensures groups == Grouped(menu)
    ensures keys == Categories(menu)
  {
    groups, keys := map[], [];
    for i := 0 to |menu|
      invariant groups == Grouped(menu[..i])
      invariant keys == Categories(menu[..i])
    {
      var item := menu[i];
      assert menu[..i + 1] == menu[..i] + [item];
      GroupedSnoc(menu[..i], item);
      assert Init(menu[..i + 1]) == menu[..i];
      if item.category !in groups {
        groups := groups[item.category := []];
        keys := keys + [item.category];
      }
      groups := groups[item.category := groups[item.category] + [item]];
    }
    assert menu[..|menu|] == menu;
  }

  /** Every menu item lies in the group of its own category, and a group holds only items of its category. */
  lemma GroupHoldsOwnCategory(menu: seq<MenuItem>, i: nat)
    requires i < |menu|
    ensures menu[i].category in Grouped(menu)
    ensures menu[i] in Grouped(menu)[menu[i].category]
    ensures forall c :: c in Grouped(menu) && menu[i] in Grouped(menu)[c] ==> c == menu[i].category
  {
    CategoriesListed(menu);
    ItemsInHolds(menu, i);
  }

  lemma {:induction false} ItemsInHolds(menu: seq<MenuItem>, i: nat)
    requires i < |menu|
    ensures menu[i] in ItemsIn(menu, menu[i].category)
  {
    if i < |menu| - 1 {
      assert Init(menu)[i] == menu[i];
      ItemsInHolds(Init(menu), i);
    }
  }

  /** The positions of the menu items of category `c`, in increasing order. */
  function Positions(menu: seq<MenuItem>, c: string): seq<nat> {
    if menu == [] then []
    else Positions(Init(menu), c) + if Last(menu).category == c then [|menu| - 1] else []
  }

  /**
   * A group keeps menu order: it is the menu read at the increasing list of
   * positions whose category is `c`, and only there.
   */
  lemma GroupKeepsMenuOrder(menu: seq<MenuItem>, c: string)
    ensures var p := Positions(menu, c);
      && |p| == |ItemsIn(menu, c)|
      && (forall k :: 0 <= k < |p| ==> p[k] < |menu| && ItemsIn(menu, c)[k] == menu[p[k]])
      && (forall k, l :: 0 <= k < l < |p| ==> p[k] < p[l])
      && (forall i :: 0 <= i < |menu| ==> (menu[i].category == c <==> i in p))
  {
    PositionsPickGroup(menu, c);
    PositionsIncrease(menu, c);
    PositionsExact(menu, c);
  }

  /** The group is the menu read at the listed positions. */
  lemma {:induction false} PositionsPickGroup(menu: seq<MenuItem>, c: string)
    ensures var p := Positions(menu, c);
      && |p| == |ItemsIn(menu, c)|
      && (forall k :: 0 <= k < |p| ==> p[k] < |menu| && ItemsIn(menu, c)[k] == menu[p[k]])
  {
    if menu != [] {
      var m := Init(menu);
      PositionsPickGroup(m, c);
      var p, q := Positions(menu, c), Positions(m, c);
      var items, prev := ItemsIn(menu, c), ItemsIn(m, c);
      forall k | 0 <= k < |p| ensures p[k] < |menu| && items[k] == menu[p[k]] {
        if k < |q| {
          assert p[k] == q[k] && items[k] == prev[k];
          assert m[q[k]] == menu[q[k]];
        } else {
          assert p[k] == |m| && items[k] == Last(menu);
        }
      }
    }
  }

  predicate Increasing(p: seq<nat>) {
    forall k, l :: 0 <= k < l < |p| ==> p[k] < p[l]
  }

  /** The listed positions increase strictly. */
  lemma {:induction false} PositionsIncrease(menu: seq<MenuItem>, c: string)
    ensures forall k :: 0 <= k < |Positions(menu, c)| ==> Positions(menu, c)[k] < |menu|
    ensures Increasing(Positions(menu, c))
  {
    if menu != [] {
      var m := Init(menu);
      PositionsIncrease(m, c);
      var p, q := Positions(menu, c), Positions(m, c);
      var tail := if Last(menu).category == c then [|menu| - 1] else [];
      assert p == q + tail;
      assert |m| == |menu| - 1;
      forall k, l | 0 <= k < l < |p| ensures p[k] < p[l] {
        assert p[k] == q[k] < |m|;
        if l < |q| {
          assert p[l] == q[l];
          assert p[k] < p[l];
        } else {
          assert p[l] == tail[0] == |m|;
          assert p[k] < p[l];
        }
      }
    }
  }

  /** Exactly the positions of items of category `c` are listed. */
  lemma {:induction false} PositionsExact(menu: seq<MenuItem>, c: string)
    ensures forall i :: 0 <= i < |menu| ==> (menu[i].category == c <==> i in Positions(menu, c))
  {
    PositionsIncrease(menu, c);
    if menu != [] {
      var m := Init(menu);
      PositionsExact(m, c);
      PositionsIncrease(m, c);
      var p, q := Positions(menu, c), Positions(m, c);
      forall i | 0 <= i < |menu| ensures menu[i].category == c <==> i in p {
        if i < |m| {
          assert m[i] == menu[i];
          assert |m| !in q;
          assert i in p <==> i in q;
        }
      }
    }
  }

  /** No group is empty. */
  lemma GroupsNonEmpty(menu: seq<MenuItem>, c: string)
    requires c in Grouped(menu)
    ensures |Grouped(menu)[c]| > 0
  {
    CategoriesListed(menu);
    var i :| 0 <= i < |menu| && menu[i].category == c;
    ItemsInHolds(menu, i);
  }

  /** The sizes of the groups of the listed categories, added up. */
  function GroupSizes(menu: seq<MenuItem>, cs: seq<string>): int {
    if cs == [] then 0 else GroupSizes(menu, Init(cs)) + |ItemsIn(menu, Last(cs))|
  }

  /** One more item adds one to the size total exactly when its category is listed. */
  lemma {:induction false} GroupSizesSnoc(menu: seq<MenuItem>, x: MenuItem, cs: seq<string>)
    requires forall i, j :: 0 <= i < j < |cs| ==> cs[i] != cs[j]
    ensures GroupSizes(menu + [x], cs) == GroupSizes(menu, cs) + if x.category in cs then 1 else 0
  {
    var m := menu + [x];
    assert Init(m) == menu && Last(m) == x;
    if cs != [] {
      var ics := Init(cs);
      assert forall i :: 0 <= i < |ics| ==> ics[i] == cs[i];
      GroupSizesSnoc(menu, x, ics);
      assert x.category in cs <==> x.category in ics || x.category == Last(cs);
      assert Last(cs) !in ics;
    }
  }

  /** The group sizes add up to the length of the menu. */
  lemma {:induction false} GroupSizesSumToMenuLength(menu: seq<MenuItem>)
    ensures GroupSizes(menu, Categories(menu)) == |menu|
  {
    if menu != [] {
      var m, x := Init(menu), Last(menu);
      assert menu == m + [x];
      var cs := Categories(m);
      GroupSizesSumToMenuLength(m);
      GroupSizesSnoc(m, x, cs);
      if x.category !in cs {
        ItemsInAbsent(m, x.category);
        assert Init(cs + [x.category]) == cs;
      }
    }
  }

  // ---------------------------------------------------------------------
  // The grouping as the reduce runs it on a plain object literal

  /** Keys that an empty object literal already answers through its prototype. */
  const PrototypeMembers: set<string> := {
    "constructor", "hasOwnProperty", "isPrototypeOf", "propertyIsEnumerable",
    "toLocaleString", "toString", "valueOf", "__proto__",
    "__defineGetter__", "__defineSetter__", "__lookupGetter__", "__lookupSetter__"
  }

  /**
   * One step of the reduce as the source writes it: `acc[c]` on a category
   * that names a prototype member is already truthy, so no list is created
   * and `push` is not a function; None stands for the thrown TypeError.
   */
  function StepAsWritten(acc: map<string, seq<MenuItem>>, x: MenuItem): Option<map<string, seq<MenuItem>>> {
    if x.category in acc then Some(acc[x.category := acc[x.category] + [x]])
    else if x.category in PrototypeMembers then None
    else Some(acc[x.category := [x]])
  }

  /** The whole reduce as written, from the empty object literal. */
  function GroupAsWritten(menu: seq<MenuItem>): Option<map<string, seq<MenuItem>>> {
    if menu == [] then Some(map[])
    else match GroupAsWritten(Init(menu))
      case None => None
      case Some(acc) => StepAsWritten(acc, Last(menu))
  }

  /**
   * The reduce as written throws exactly when some category names a
   * prototype member, and otherwise builds the grouped menu.
   */
  lemma {:induction false} GroupAsWrittenThrowsOnPrototypeKeys(menu: seq<MenuItem>)
    ensures GroupAsWritten(menu).None? <==> HasPrototypeCategory(menu)
    ensures GroupAsWritten(menu).Some? ==> GroupAsWritten(menu).value == Grouped(menu)
  {
    if menu != [] {
      var m, x := Init(menu), Last(menu);
      assert menu == m + [x];
      PrototypeCategorySnoc(menu);
      GroupAsWrittenThrowsOnPrototypeKeys(m);
      if GroupAsWritten(m).Some? {
        if x.category in Grouped(m) {
          CategoriesListed(m);
          var i :| 0 <= i < |m| && m[i].category == x.category;
          assert menu[i].category == x.category;
        }
        StepFromGrouped(m, x);
      }
    }
  }

  /** Some item of the menu has a category that names a prototype member. */
  predicate HasPrototypeCategory(menu: seq<MenuItem>) {
    exists i :: 0 <= i < |menu| && menu[i].category in PrototypeMembers
  }

  lemma PrototypeCategorySnoc(menu: seq<MenuItem>)
    requires menu != []
    ensures HasPrototypeCategory(menu) <==>
      HasPrototypeCategory(Init(menu)) || Last(menu).category in PrototypeMembers
  {
    var m := Init(menu);
    assert forall i :: 0 <= i < |m| ==> m[i] == menu[i];
    if HasPrototypeCategory(menu) {
      var i :| 0 <= i < |menu| && menu[i].category in PrototypeMembers;
      if i < |m| { assert m[i].category in PrototypeMembers; }
    }
    if HasPrototypeCategory(m) {
      var i :| 0 <= i < |m| && m[i].category in PrototypeMembers;
      assert menu[i].category in PrototypeMembers;
    }
  }

  /** A step from the grouped prefix: it throws only on a new category naming a prototype member. */
  lemma StepFromGrouped(m: seq<MenuItem>, x: MenuItem)
    requires x.category in Grouped(m) ==> x.category !in PrototypeMembers
    ensures StepAsWritten(Grouped(m), x) ==
      if x.category in PrototypeMembers then None else Some(Grouped(m + [x]))
  {
    var g := Grouped(m);
    GroupedSnoc(m, x);
    if x.category in g {
      assert StepAsWritten(g, x) == Some(g[x.category := g[x.category] + [x]]);
    } else if x.category !in PrototypeMembers {
      assert [] + [x] == [x];
      assert StepAsWritten(g, x) == Some(g[x.category := [x]]);
    }
  }

  /** A one-item menu in category "constructor" makes the page's grouping throw. */
  lemma ConstructorCategoryThrows()
    ensures var menu := [MenuItem("1", "Masala Dosa", 6000, "constructor")];
      GroupAsWritten(menu) == None && Grouped(menu) == map["constructor" := menu]
  {
    var menu := [MenuItem("1", "Masala Dosa", 6000, "constructor")];
    assert Init(menu) == [];
    assert Categories(menu) == ["constructor"];
    assert ItemsIn(menu, "constructor") == menu;
    assert forall c :: c in Grouped(menu) <==> c == "constructor";
  }
}
