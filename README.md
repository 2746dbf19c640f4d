# Dosha Kada ordering core, modelled in Dafny

Dosha Kada is a small food-ordering web app. Customers browse a menu grouped
by category, fill a cart and check out. The kitchen works from an admin display
that moves each order through `received → cooking → ready → completed`. An
Express server keeps the orders.

This project models the logic behind those screens and proves properties of it:

- `wrappers.dfy` (`Wrappers`): `Option` for absent JSON fields and failed lookups.
- `app_cart.dfy` (`AppCart`): the App component's cart updaters `addToCart`,
  `removeFromCart` and `clearCart`, as functions on sequences of entries. The
  cart invariant is `ValidCart`: ids are unique and every quantity is at least 1.
- `cart_panel.dfy` (`CartPanel`): the `total` and `itemCount` folds of the cart
  bar, the success message and the order number. The class `CheckoutPanel`
  holds the Cart component's state (`isCheckoutOpen`, `orderSuccess`) and the
  App cart that `handleSuccess` clears.
- `menu_view.dfy` (`MenuView`): `getQty`, the choice between the Add button and
  the +/- stepper, and `groupedMenu`. The grouping is a method whose loop fills a
  map the way the source's `reduce` fills its accumulator object. It is specified
  by `Grouped`, `Categories` and `ItemsIn`.
- `kitchen_display.dfy` (`KitchenDisplay`): the one action each status offers on
  an order card, the lifecycle those actions trace, and the badge colour.
- `order_server.dfy` (`OrderServer`): the class `OrderStore` holds the order list
  as a sequence. Its methods `Create`, `Patch` and `List` model the
  `POST /api/orders`, `PATCH /api/orders/:id` and `GET /api/orders` handlers.
  Their answers are a `Response` datatype: Created, Updated, BadRequest or
  NotFound.

Modelling choices:

- Prices and totals are integers in paise.
- Order ids are opaque strings. `Create` takes the fresh id as a parameter and
  requires that no stored order already uses it.
- Timestamps are integers; `Create` takes the current time as a parameter.
- The folds are written head first. With exact integers the order of addition
  does not change the sum.
- `orders.sort` sorts a copy freshly read from the file and never writes it
  back. So `List` returns a sorted permutation and leaves the store unchanged.
  It builds the result by insertion in a loop.
- The server stores the client's `total` as given. It never checks `total`
  against the items, and `NewOrder` records exactly that.

## Model

| member | source | states |
|---|---|---|
| `AppCart.FindEntry` | client/src/App.jsx:24 | the result is the index of the first entry with the id, or None exactly when no entry has it |
| `AppCart.MapQty` | client/src/App.jsx:26-28 | same length; every entry with the id has its quantity moved by delta, and every other entry is kept |
| `AppCart.FilterOut` | client/src/App.jsx:42 | the result holds exactly the entries whose id differs, and is no longer than the cart |
| `AppCart.AddToCart` | client/src/App.jsx:22-32 | afterwards the id is in the cart; the length is kept if the id was present and grows by one otherwise |
| `AppCart.RemoveFromCart` | client/src/App.jsx:34-44 | requires the id to be present, because the found entry is dereferenced unchecked; never lengthens the cart |
| `AppCart.ClearCart` | client/src/App.jsx:46-48 | the cleared cart is valid and contains no id |
| `AppCart.AddNewItemAppends` | client/src/App.jsx:30 | adding an absent id appends the item with quantity 1 at the end |
| `AppCart.AddExistingItemIncrements` | client/src/App.jsx:24-29 | adding a present id raises that entry's quantity by exactly 1; length, order and all other entries are unchanged |
| `AppCart.RemoveDecrements` | client/src/App.jsx:37-40 | removing an id whose quantity is above 1 lowers it by exactly 1 and changes nothing else |
| `AppCart.RemoveDeletes` | client/src/App.jsx:42 | removing an id whose quantity is 1 deletes that entry and keeps the rest in order |
| `AppCart.AddPreservesValid` | client/src/App.jsx:22-32 | adding keeps ids unique and quantities at least 1 |
| `AppCart.RemovePreservesValid` | client/src/App.jsx:34-44 | removing keeps ids unique and quantities at least 1 |
| `AppCart.RemoveUndoesAdd` | client/src/App.jsx:22-44 | on a valid cart, removing an item right after adding it gives back the original cart |
| `CartPanel.Total` | client/src/components/Cart.jsx:8 | the reduce summing price times quantity over the cart; its properties are stated by `SumOverAppend`, `ClearedCartIsZero`, `AddRaisesTotals` and `RemoveLowersTotals` |
| `CartPanel.ItemCount` | client/src/components/Cart.jsx:9 | the reduce summing quantities over the cart; its properties are stated by `ItemCountAtLeastLength`, `AddRaisesTotals` and `RemoveLowersTotals` |
| `CartPanel.SumOverAppend` | client/src/components/Cart.jsx:8-9 | the reduce folds add up over concatenation, so a cart's totals are the sums of its parts |
| `CartPanel.ClearedCartIsZero` | client/src/components/Cart.jsx:8-9 | the empty cart has total 0 and item count 0 |
| `CartPanel.ItemCountAtLeastLength` | client/src/components/Cart.jsx:9 | under the cart invariant the item count is at least the number of entries, and 0 only for the empty cart |
| `CartPanel.AddRaisesTotals` | client/src/components/Cart.jsx:8-9 | after an add, the item count rises by exactly 1 and the total by the unit price of the entry with that id |
| `CartPanel.AddRaisesTotalByPrice` | client/src/components/Cart.jsx:8 | when the cart holds this very menu item (or none with its id), an add raises the total by exactly the item's price |
| `CartPanel.RemoveLowersTotals` | client/src/components/Cart.jsx:8-9 | after a remove, the item count drops by exactly 1 and the total by the removed entry's price |
| `CartPanel.SuccessMessage` | client/src/components/Cart.jsx:29-31 | the UPI-app prompt exactly when the payment method is `'UPI'`, and the pay-at-counter prompt for every other method |
| `CartPanel.OrderNumber` | client/src/components/Cart.jsx:27 | the order number is the prefix of the order id of length min(8, length of the id) |
| `CartPanel.CheckoutPanel.Screen` | client/src/components/Cart.jsx:19-71 | the component's own render: the success overlay with the order number and payment prompt while an order is held, the cart bar with count, total and checkout state otherwise |
| `CartPanel.CheckoutPanel.Mounted` | client/src/components/Cart.jsx:19 | the intended mount condition that `handleSuccess` relies on: the panel stays while the cart has entries or an order success is held |
| `CartPanel.CheckoutPanel.Rendered` | client/src/components/Cart.jsx:19-71 | what the page shows under the intended mount condition: the component's render, or nothing |
| `CartPanel.CheckoutPanel.MountedAsWritten` | client/src/App.jsx:67-69 | App mounts the panel only while the cart has entries |
| `CartPanel.CheckoutPanel.RenderedAsWritten` | client/src/App.jsx:67-69 | what the page shows under App's mount condition: the component's render, or nothing once the cart is empty |
| `CartPanel.CheckoutPanel.constructor` | client/src/components/Cart.jsx:5-6 | checkout starts closed with no order recorded |
| `CartPanel.CheckoutPanel.OpenCheckout` | client/src/components/Cart.jsx:53 | opens checkout; the cart and the recorded order are unchanged |
| `CartPanel.CheckoutPanel.CloseCheckout` | client/src/components/Cart.jsx:65 | closes checkout; the cart and the recorded order are unchanged |
| `CartPanel.CheckoutPanel.HandleSuccess` | client/src/components/Cart.jsx:11-17 | the order is recorded, checkout is closed and the cart is emptied; the page then shows that order's number and payment prompt |
| `CartPanel.CheckoutPanel.HandleSuccessAsWritten` | client/src/components/Cart.jsx:11-14 | the same three updates record the order, close checkout and empty the cart, and the panel's own render is the success overlay; but under App's mount condition the panel is no longer mounted, so nothing is shown |
| `CartPanel.CheckoutPanel.DismissSuccess` | client/src/components/Cart.jsx:34 | the overlay's Close forgets the recorded order; nothing else changes |
| `MenuView.GetQty` | client/src/components/Menu.jsx:23-26 | the quantity of the first cart entry with the id, or 0; its properties are stated by `GetQtyOfEntry` and `GetQtyPositiveIffInCart` |
| `MenuView.ControlFor` | client/src/components/Menu.jsx:54-77 | the stepper with the quantity when `getQty` is positive, the Add button otherwise; its properties are stated by `StepperIffInCart`, `StepperMinusIsSafe` and `AddShowsStepper` |
| `MenuView.GetQtyOfEntry` | client/src/components/Menu.jsx:23-26 | under the cart invariant, `getQty` of an entry's id is that entry's quantity |
| `MenuView.GetQtyPositiveIffInCart` | client/src/components/Menu.jsx:23-26 | under the cart invariant, `getQty(id) > 0` holds exactly when the id is in the cart, and it is 0 otherwise |
| `MenuView.StepperIffInCart` | client/src/components/Menu.jsx:54-77 | under the cart invariant the stepper is shown exactly for ids in the cart, with a count of at least 1; otherwise Add is shown |
| `MenuView.StepperMinusIsSafe` | client/src/components/Menu.jsx:57 | whenever the stepper is shown, its "-" button meets the precondition of `removeFromCart` |
| `MenuView.AddShowsStepper` | client/src/components/Menu.jsx:71-76 | pressing Add on an item not in the cart turns its control into a stepper showing 1 |
| `MenuView.Categories` | client/src/components/Menu.jsx:33-39 | the group keys list no category twice |
| `MenuView.CategoriesListed` | client/src/components/Menu.jsx:33-39 | the group keys are exactly the categories of the menu's items |
| `MenuView.ItemsIn` | client/src/components/Menu.jsx:37 | a group contains only menu items of its own category |
| `MenuView.GroupByCategory` | client/src/components/Menu.jsx:33-39 | the loop builds exactly the grouped menu, with keys in order of first appearance |
| `MenuView.GroupHoldsOwnCategory` | client/src/components/Menu.jsx:33-39 | every item is in the group keyed by its own category and in no group with another key |
| `MenuView.GroupKeepsMenuOrder` | client/src/components/Menu.jsx:37 | a group is the menu read at the increasing positions whose category matches, and only there, so relative order is kept |
| `MenuView.GroupsNonEmpty` | client/src/components/Menu.jsx:34-37 | no group is empty |
| `MenuView.GroupSizesSumToMenuLength` | client/src/components/Menu.jsx:33-39 | the group sizes add up to the menu length |
| `MenuView.StepAsWritten` | client/src/components/Menu.jsx:34-37 | one step of the reduce on `{}`: a category key that is an `Object.prototype` member is taken as present, so `push` fails (None) |
| `MenuView.GroupAsWritten` | client/src/components/Menu.jsx:33-39 | the reduce as written, failing at the first such item; its behaviour is stated by `GroupAsWrittenThrowsOnPrototypeKeys` |
| `MenuView.GroupAsWrittenThrowsOnPrototypeKeys` | client/src/components/Menu.jsx:34-37 | the reduce on `{}` throws exactly when some category names an `Object.prototype` member, and otherwise yields the grouped menu |
| `MenuView.ConstructorCategoryThrows` | client/src/components/Menu.jsx:34-37 | a one-item menu in category "constructor" throws, where the intended grouping has one group |
| `KitchenDisplay.OfferedActions` | client/src/pages/Admin.jsx:76-99 | an order card shows at most one action button |
| `KitchenDisplay.OfferedActionsByStatus` | client/src/pages/Admin.jsx:76-99 | received offers only cooking, cooking only ready, ready only completed; completed and any other status offer nothing |
| `KitchenDisplay.NextStatus` | client/src/pages/Admin.jsx:76-99 | the status the card's one button moves to, if it has one; stated by `NextStatusAdvances` |
| `KitchenDisplay.NextStatusAdvances` | client/src/pages/Admin.jsx:76-99 | an action exists exactly when steps remain, and it brings the order one step closer to completed |
| `KitchenDisplay.LifecycleNeverRevisits` | client/src/pages/Admin.jsx:76-99 | following the actions from any status counts the remaining steps down one at a time, never visits a status twice, and stops where no action is offered |
| `KitchenDisplay.ReceivedReachesCompleted` | client/src/pages/Admin.jsx:76-99 | from received the actions pass through cooking and ready and reach completed in exactly three steps |
| `KitchenDisplay.NewOrderStartsLifecycle` | server/index.js:71 | every created order starts at the head of that three-step lifecycle |
| `KitchenDisplay.ActionPatchAdvancesOrder` | client/src/pages/Admin.jsx:26-33 | the PATCH a button sends moves the stored order to the offered status and keeps its payment status |
| `KitchenDisplay.BadgeFor` | client/src/pages/Admin.jsx:50-52 | the badge is green exactly for completed, yellow exactly for ready, and blue for every other status |
| `OrderServer.NewOrder` | server/index.js:63-73 | a new order starts received with payment pending whatever the payment method; items, total, payment method and device hash are stored as given; a missing customer becomes the empty record |
| `OrderServer.FindIndex` | server/index.js:95 | the first index with the id, or -1 exactly when no stored order has it |
| `OrderServer.ApplyPatch` | server/index.js:101-102 | status and payment status are replaced only when given non-empty; every other field is kept |
| `OrderServer.InsertNewestFirst` | server/index.js:85 | inserting into a newest-first list keeps it newest first and adds exactly the one order |
| `OrderServer.AppendFresh` | server/index.js:64-75 | appending an order with a fresh id keeps ids unique and adds exactly that id |
| `OrderServer.PatchKeepsOtherFields` | server/index.js:101-102 | a patch never changes id, items, total, payment method, customer, device hash or creation time |
| `OrderServer.PatchAcceptsAnyStatus` | server/index.js:101 | the server does not enforce the lifecycle: any non-empty status is stored, and the payment status is kept |
| `OrderServer.OrderStore.constructor` | server/index.js:22-25 | the store starts with no orders |
| `OrderServer.OrderStore.Create` | server/index.js:54-79 | missing or empty items give BadRequest and leave the list unchanged; otherwise exactly one new order is appended at the end under the fresh id, earlier orders are unchanged, and ids stay unique |
| `OrderServer.OrderStore.Patch` | server/index.js:90-107 | an unknown id gives NotFound and changes nothing; otherwise only the first order with the id is patched, and length, ids and every other order are unchanged; with unique ids (the store invariant `Valid`, which `Create` keeps) every order carrying the id is the patched one |
| `OrderServer.OrderStore.List` | server/index.js:82-87 | the answer is a permutation of the stored orders, newest first |

## Left out

- File persistence is not modelled: `readData`, `writeData`, creating the data
  directory, and JSON on disk. The "read error gives an empty list" fallback is
  I/O behaviour too. The order list lives in memory.
- Express routing, status codes, CORS and body parsing are not modelled.
  `GET /api/menu` is left out as well: it only returns the menu file.
- `crypto.randomUUID()` and `new Date()` become parameters of `Create`.
  Comparing ISO dates becomes comparing integer timestamps.
- Floating-point prices and `toFixed` formatting are not modelled. Money is
  integer paise.
- The FingerprintJS device hash is an opaque string.
- React is not modelled: rendering, routing, `useEffect` fetches, loading states
  and the 10-second polling of the kitchen display.
- The client's axios calls are not modelled. Their effect on the server is
  modelled by `OrderStore`.
- client/src/components/CheckoutModal.jsx is not part of this model. It covers
  form state, the POST, and the UPI redirect link.
- Request shapes: only `items` and `customer` may be absent (an `Option`). The
  request's `total`, `paymentMethod` and `deviceHash` are always present in the
  model, while the server destructures them from the body and stores
  `undefined` when they are missing (server/index.js:55, 63-70). A present
  `items` is a list; the server also accepts a truthy non-list `items` whose
  `length` is not 0, such as an object. A falsy non-object customer or a truthy
  non-string status is not modelled either.
- `MenuView.GroupByCategory`: its keys come in order of first appearance.
  `Object.entries` would list integer-like category names first.
- `OrderServer.OrderStore.List`: does not state that orders with equal
  timestamps keep their stored order, though `Array.prototype.sort` is stable.

## Findings

| source | as written | input that shows it | evidently intended | confidence | as-written member | corrected member |
|---|---|---|---|---|---|---|
| client/src/components/Cart.jsx:11-14 | `handleSuccess` empties the cart. App mounts `<Cart>` only while `cart.length > 0` (client/src/App.jsx:67-69), so the component holding `orderSuccess` is unmounted, the overlay never shows and its state is lost. | any successful checkout, e.g. paying in cash | the "Order Placed!" overlay shows the order number and payment prompt | high; not executed | `CartPanel.CheckoutPanel.HandleSuccessAsWritten` | `CartPanel.CheckoutPanel.HandleSuccess` |
| client/src/components/Menu.jsx:34-37 | the accumulator is a plain `{}`. A category named after an `Object.prototype` member makes `!acc[c]` false, so no list is created and `acc[c].push` throws a TypeError. | a menu with one item in category `"constructor"` | such an item is grouped like any other | high; not executed | `MenuView.ConstructorCategoryThrows` | `MenuView.GroupByCategory` |
