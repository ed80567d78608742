# Shop cart and checkout, modelled in Dafny

This project models the cart and order logic of a small online shop. The
shop has a Django REST back end and a React store front. The model covers
three places:

- **The server's cart endpoints** (`CartItemViewSet` in `views.py`): add one
  unit, remove one unit, totals, clear, and set quantity. Also the order
  cancellation guard (`OrderViewSet.cancel`).
- **The serializers** (`serializers.py`): the quantity-merging create of a
  cart line, checkout (`OrderCreateSerializer.create`), and the
  password-confirmation check of registration.
- **The store front's cart** (`ShopContext.jsx`): the default all-zero cart,
  the optimistic add and remove with their rollbacks, order placement, the
  rebuild from the server's listing on load, and the item and amount totals.

Every handler is a pure function. It maps the state, the authenticated user
(an `Option`) and the request data to a new state and a `Result`.

- The cart table is a sequence of lines in insertion order. The invariant is
  at most one line per (user, product), each with a quantity of at least 1.
  Contracts speak about its abstraction `View`, a map from (user, product)
  to quantity.
- Orders form a sequence. An order's primary key is its position.
- Money is an integer number of cents. Unit prices come from a price
  function over product ids, because `subtotal()` and `calculate_total()` are
  called by the source but defined in no file of it.
- The client's cart is a JavaScript object keyed by product id. Such an
  object enumerates non-negative integer keys in ascending order. The model
  is therefore a list of entries sorted by id, with `None` for `undefined`
  and `NaN` for the result of arithmetic on a missing key.
- The auth token and the server's success or failure are boolean inputs.

The `Mirror` module connects the two sides. Suppose the client rebuilds its
cart from the server's listing of a valid cart. Then its item count equals
the server's `total` count. Its amount equals the server's total whenever
the store-front catalogue carries the server's prices. Its empty-cart guard
refuses an order exactly when the server holds no line for the user.

Notable behaviour of the code:

- An order line captures no unit price (no price snapshot).
- Cancellation of a delivered order answers `BadRequest`.
- A cancelled order may be cancelled again, which changes nothing.
- The quantity-merging create raises an uncaught error for an unknown product
  or an anonymous user. It can also create a line at quantity 0, because the
  quantity field accepts 0. The inherited update of a cart line through the
  same serializer can likewise set quantity 0 or move a line onto a product
  the user already holds, giving a duplicate (user, product) line.
- Once two rows carry the same (user, product), adding, removing and the
  create for that pair each raise `MultipleObjectsReturned`, which no handler
  catches. The model answers `ServerError` and leaves the table unchanged.
- Checkout takes its status from the request. The store front sends
  `Processing`.
- The add endpoint always adds exactly 1. A requested quantity exists only in
  the serializer's create.

Source paths below are relative to the repository root.

## Model

| member | source | states |
|---|---|---|
| CartViews.Queryset | backend/shop_backend/api/views.py:78-81 | An anonymous caller sees no line. An authenticated caller sees exactly the lines of the table that belong to them. |
| CartViews.AddItem | backend/shop_backend/api/views.py:84-111 | Anonymous: `Unauthorized`, and the cart is unchanged. Unknown product: `NotFound`, and the cart is unchanged. Two rows for (caller, product): the uncaught `MultipleObjectsReturned` of `get_or_create`, modelled as `ServerError`, with the cart unchanged. Otherwise the reply is the (caller, product) line, at its previous quantity plus 1, or at 1 when it did not exist. |
| CartViews.AddItemEffect | backend/shop_backend/api/views.py:100-108 | On a cart with unique keys the view changes only at (caller, product): it becomes the previous quantity plus 1, or 1 for a new line. Keys stay unique, and a valid cart (unique keys, positive quantities) stays valid. |
| CartViews.AddItemTotals | backend/shop_backend/api/views.py:100-108 | An add raises the caller's `total` by the product's unit price and the caller's count by 1. Every other user's totals are unchanged. An add that fails on two rows for the key changes no totals. |
| CartViews.AddTimesEffect | backend/shop_backend/api/views.py:100-108 | Adding a product n times to a valid cart without that line leaves it at quantity n (absent for n = 0). |
| CartLines.DuplicatedShared | backend/shop_backend/api/views.py:126 | The duplicate test the handlers apply (another row before the one found carries the key) holds exactly when two different rows carry the key, which is when the ORM's `get` raises `MultipleObjectsReturned`. |
| CartLines.UniqueNotDuplicated | backend/shop_backend/api/views.py:126 | In a table with unique keys the duplicate test never holds, so the handlers never fail this way on a valid table. |
| CartViews.RemoveItem | backend/shop_backend/api/views.py:114-137 | Anonymous: `Unauthorized`, unchanged. No (caller, product) line: `NotFound`, unchanged. Two such rows: the uncaught `MultipleObjectsReturned` of `get`, modelled as `ServerError`, unchanged. A line at q > 1 is answered with the line at q - 1. A line at q <= 1 is answered with "removed". |
| CartViews.RemoveItemEffect | backend/shop_backend/api/views.py:125-137 | On a cart with unique keys a line at q > 1 drops to q - 1 and a line at q <= 1 disappears from the view. Without the line the cart is unchanged. Nothing else changes, keys stay unique, and a valid cart stays valid, so no line is ever left at 0. |
| CartViews.RemoveItemTotals | backend/shop_backend/api/views.py:125-137 | A remove of a line the caller holds lowers their total by one unit price and the count by 1. Other users' totals are unchanged. A remove that fails on two rows for the key changes no totals. |
| CartViews.RemoveTimesEffect | backend/shop_backend/api/views.py:130-137 | Removing n <= m units from a line at m leaves it at m - n, or deletes it when n = m. |
| CartViews.RemoveAbsent | backend/shop_backend/api/views.py:125-128 | Without a (caller, product) line a remove answers `NotFound` and changes nothing, so any number of removes leaves the cart as it was. |
| CartViews.RemoveSplit | backend/shop_backend/api/views.py:114-137 | m + k removes are m removes followed by k removes. |
| CartViews.RemovePast | backend/shop_backend/api/views.py:125-137 | At least as many removes as the line's quantity (any number when there is no line) leave a valid cart whose view is the old one without the key: the extra removes change nothing. |
| CartViews.AddRemoveRoundTrip | backend/shop_backend/api/views.py:100-137 | n adds followed by n removes of a product absent from a valid cart restore the view and leave no line for it. |
| CartViews.AddRemovePast | backend/shop_backend/api/views.py:100-137 | a adds followed by n >= a removes of a product absent from a valid cart restore the view and leave no line for it. |
| CartViews.Total | backend/shop_backend/api/views.py:141-146 | An anonymous caller gets (0, 0). |
| CartViews.TotalByLines | backend/shop_backend/api/views.py:148-150 | For a signed-in caller, an empty table totals (0, 0). Appending a line of the caller adds its price times quantity to `total` and its quantity to `count`. A line of another user changes nothing. So the totals are the sums over exactly the caller's lines. |
| CartViews.TotalCount | backend/shop_backend/api/views.py:148-150 | With positive quantities, the count is at least the number of the caller's lines, and it is 0 exactly when the caller has no line. |
| CartViews.Clear | backend/shop_backend/api/views.py:157-166 | Anonymous: `Unauthorized`, unchanged. Otherwise the remaining lines are exactly those of the other users. |
| CartViews.ClearEffect | backend/shop_backend/api/views.py:157-166 | After a clear the view is the old view without the caller's keys, validity is kept, and the caller's totals are (0, 0). Every other user's totals are unchanged. |
| CartViews.ClearIdempotent | backend/shop_backend/api/views.py:165 | Clearing twice gives the same state and reply as clearing once. |
| CartViews.UpdateQuantity | backend/shop_backend/api/views.py:168-187 | Anonymous: `Unauthorized`. No such line of the caller: `NotFound`. A requested quantity (default 1) <= 0 answers "removed". Otherwise the answer is the line at exactly that quantity. |
| CartViews.UpdateQuantityEffect | backend/shop_backend/api/views.py:176-184 | On a cart with unique keys a quantity <= 0 deletes the key from the view and a positive one sets it to exactly that quantity. Without the line the cart is unchanged. Nothing else changes, keys stay unique, and a valid cart stays valid. |
| Orders.Cancel | backend/shop_backend/api/views.py:213-233 | Anonymous: `Unauthorized`. Another user's or a missing order: `NotFound`. A delivered order: `BadRequest` with nothing changed. Any other order of the caller is answered as cancelled. |
| Orders.CancelGuarded | backend/shop_backend/api/views.py:221-230 | Cancellation changes at most the addressed order, and only its status. Every status change is a permitted transition (a non-delivered order becoming cancelled). No order becomes or stops being delivered. |
| Orders.CancelIdempotent | backend/shop_backend/api/views.py:223-230 | Cancelling twice leaves the same orders as cancelling once. |
| Serializers.CreateLine | backend/shop_backend/api/serializers.py:70-88 | Unknown product, anonymous user, or two rows already carrying (user, product): an uncaught error with the cart unchanged. Otherwise the (user, product) line, at its old quantity plus the requested one (default 1), or at the requested one when new. |
| Serializers.CreateLineEffect | backend/shop_backend/api/serializers.py:77-86 | Exactly the (user, product) key changes in the view. Keys stay unique. |
| Serializers.CreateLinePositive | backend/shop_backend/api/serializers.py:77-86 | Quantities stay positive if and only if the line already existed or the requested quantity is not 0. |
| Serializers.CreateLineDefaultIsAddItem | backend/shop_backend/api/serializers.py:80-85 | With the quantity omitted, a successful create agrees with `add_item` in state and reply. |
| Serializers.CopyLines | backend/shop_backend/api/serializers.py:129-134 | One order line per cart line, with the same product and quantity, in the same order. |
| Serializers.Checkout | backend/shop_backend/api/serializers.py:120-142 | Anonymous: an uncaught error with nothing changed. Otherwise one new order is appended, with the caller, the requested status, and one line per cart line of the caller. The cart keeps exactly the other users' lines. |
| Serializers.CopyLinesSums | backend/shop_backend/api/serializers.py:129-137 | The order's total and item count are the sums of subtotals and quantities over the copied cart lines. |
| Serializers.CheckoutTotals | backend/shop_backend/api/serializers.py:127-140 | The order total and item count equal the caller's pre-checkout `total` and count. Afterwards the caller's totals are (0, 0), other users' totals are unchanged, the view is the old view without the caller's keys, and validity is kept. |
| Serializers.CheckoutEmptyCart | backend/shop_backend/api/serializers.py:124-137 | Checking out with no lines still creates one order, with no lines and a zero total. |
| Serializers.ValidateRegistration | backend/shop_backend/api/serializers.py:154-157 | Validation fails, with a validation error, if and only if the two passwords differ. Otherwise the data passes through unchanged. |
| Scenarios.SampleTotals | backend/shop_backend/api/views.py:148-150 | For 2 units at 50.00 and 1 at 30.00, the totals are 130.00 over 3 items. |
| Scenarios.SampleCheckout | backend/shop_backend/api/serializers.py:120-142 | Checkout of that cart creates exactly one order: the caller's, of 130.00, with both lines. Only the other user's line stays in the cart. |
| Scenarios.SampleCheckoutEmpties | backend/shop_backend/api/views.py:148-150 | After that checkout the caller's totals are (0, 0). |
| Scenarios.DuplicateRowsFail | backend/shop_backend/api/views.py:100-128 | On the table `[(7, 1, 2), (7, 1, 3)]` adding, removing and the create for user 7 and product 1 each fail with `ServerError` and leave the table unchanged. |
| Scenarios.RemoveLastUnit | backend/shop_backend/api/views.py:125-137 | Removing the last unit deletes the line. A second remove is `NotFound`. |
| ShopContext.Put | frontend_code/frontend/src/Context/ShopContext.jsx:61 | `{...cart, [id]: q}` keeps the keys sorted, and its first key is the smaller of id and the old first key. |
| ShopContext.GetPut | frontend_code/frontend/src/Context/ShopContext.jsx:61 | After `{...cart, [id]: q}`, reading id gives q and reading any other key gives its old value. |
| ShopContext.DefaultCart | frontend_code/frontend/src/Context/ShopContext.jsx:13-19 | Keys 1 to the catalogue size each map to 0, and every other key is undefined. |
| ShopContext.DefaultCartEmpty | frontend_code/frontend/src/Context/ShopContext.jsx:125-148 | The default cart has item count 0 and amount 0. |
| ShopContext.TotalItems | frontend_code/frontend/src/Context/ShopContext.jsx:140-148 | The item count is never negative. |
| ShopContext.TotalItemsZero | frontend_code/frontend/src/Context/ShopContext.jsx:140-148 | The item count is 0 if and only if no entry holds a positive number. |
| ShopContext.TotalItemsPut | frontend_code/frontend/src/Context/ShopContext.jsx:140-148 | Writing one key changes the item count by exactly the change in that key's counted quantity. |
| ShopContext.FindProduct | frontend_code/frontend/src/Context/ShopContext.jsx:129-131 | Finds the first catalogue product with the id, or none when no product has it. |
| ShopContext.TotalAmountPut | frontend_code/frontend/src/Context/ShopContext.jsx:125-138 | Writing one key changes the amount by exactly the change in that key's priced contribution: positive quantity times catalogue price, or 0 when it is not positive or the id is not in the catalogue. |
| ShopContext.TotalAmount | frontend_code/frontend/src/Context/ShopContext.jsx:125-138 | Only entries the item count counts are priced, so with item count 0 the amount is 0. |
| ShopContext.AddToCart | frontend_code/frontend/src/Context/ShopContext.jsx:53-74 | Without a token the cart is unchanged. With one, no other key changes. An accepted add leaves `cart[id] + 1` at id (NaN when the key was missing). |
| ShopContext.AddToCartRollback | frontend_code/frontend/src/Context/ShopContext.jsx:61-71 | A refused add restores the cart if and only if the key was present. A missing key stays behind as NaN and the count does not move. |
| ShopContext.AddToCartTotals | frontend_code/frontend/src/Context/ShopContext.jsx:61 | An accepted add of a key holding n >= 0 raises the count by 1 and the amount by one catalogue price. The add of a missing key leaves the count alone. |
| ShopContext.RemoveFromCart | frontend_code/frontend/src/Context/ShopContext.jsx:77-97 | Without a token, or when the current quantity is not positive (undefined, NaN and 0 count as 0), the cart is unchanged. No other key ever changes. An accepted remove leaves the quantity minus 1. |
| ShopContext.RemoveFromCartRollback | frontend_code/frontend/src/Context/ShopContext.jsx:80-94 | A refused remove restores the cart exactly. |
| ShopContext.RemoveFromCartTotals | frontend_code/frontend/src/Context/ShopContext.jsx:84 | An accepted remove of a positive quantity lowers the count by 1 and the amount by one catalogue price, and leaves the quantity at 0 or above. |
| ShopContext.CreateOrder | frontend_code/frontend/src/Context/ShopContext.jsx:100-123 | No token gives "not logged in". A zero count with a token gives "empty cart". An order is placed if and only if there is a token, a positive count and an accepted request; it then resets the cart to the default one with count 0. Every other outcome keeps the cart. |
| ShopContext.LastQuantity | frontend_code/frontend/src/Context/ShopContext.jsx:32-35 | Gives the quantity of the last listing element for the id, or none when no element names it. |
| ShopContext.Rebuild | frontend_code/frontend/src/Context/ShopContext.jsx:29-35 | Each id named in the listing holds the quantity of its last listing element. Every other key is as in the default cart. |
| ShopContext.Load | frontend_code/frontend/src/Context/ShopContext.jsx:25-49 | With a token and a listing, the cart reads as the rebuilt one. Without a token, or after a failed request, it is unchanged. |
| Mirror.Listing | frontend_code/frontend/src/Context/ShopContext.jsx:32-33 | The client reads one item per server line, in the same order, carrying that line's product id and quantity. |
| Mirror.RebuildCount | frontend_code/frontend/src/Context/ShopContext.jsx:29-35 | Rebuilding from lines with distinct products and positive quantities gives an item count equal to their quantity sum. |
| Mirror.RebuildAmount | frontend_code/frontend/src/Context/ShopContext.jsx:29-35 | When the catalogue carries the server's prices, the rebuilt cart's amount is the lines' sum of subtotals. |
| Mirror.LoadMatchesServerTotal | frontend_code/frontend/src/Context/ShopContext.jsx:29-37 | After loading the user's lines from a valid server cart, the client's count equals the server's `total` count. Its amount equals the server's total when prices agree. |
| Mirror.LoadedGuardMatchesServer | frontend_code/frontend/src/Context/ShopContext.jsx:106-109 | After such a load, the empty-cart refusal happens if and only if the server holds no line for the user. |

## Left out

- CartViews.UpdateQuantity: the line is addressed by its (user, product) key instead of the primary key in the URL. With unique keys these name the same line, and a key of another user is `NotFound` in both. When two rows carry the key, the source updates the row the URL names and the model the later of the two. The request's quantity is an integer; a non-numeric value, which makes the comparison raise, is not modelled.
- CartViews.AddItem: a request without `product_id` is not a separate case. Looking up a missing id fails like looking up an unknown one, so it falls under `NotFound`.
- Serializers.CreateLine: field-level validation (a required `product_id`, a quantity of at least 0) is assumed done before create; the quantity is a `nat`.
- Serializers.Checkout: the order's total is priced through the same price function as the cart. No unit price is captured per order line, and later price changes are not modelled.
- Serializers.ValidateRegistration: the six-character minimum on both password fields is field validation outside `validate`, and is not modelled.
- Orders.Cancel: order ids are positions in the sequence, and `created_at` is not modelled.
- Status values are an enumeration. The source compares strings, and its order model defines no status field or default.
- ShopContext.Load: the token removal and redirect after a 401 or 403 are not modelled; the cart is unchanged then, as after any failed load.
- ShopContext.AddToCart, ShopContext.RemoveFromCart, ShopContext.CreateOrder: the server call is an input (`accepted`). The state updates run one after another with no other update in between. A concurrent update between the optimistic step and the rollback (React's stale closure over `currentQuantity`) is not modelled.
- Alerts, console output, `localStorage` and `window.location` in the store front are not modelled.
- The order id shown after placement and the value `createOrder` returns are not modelled.
- JavaScript object keys are strings; ids are modelled as natural numbers, and `Number(item)` as the identity.
- Money uses integer cents. Decimal fields and JavaScript floating-point prices are not modelled.
- Concurrency and atomicity are not modelled. This covers the races in `get_or_create` and the lack of a transaction around checkout; checkout is one atomic step.
- The authentication endpoints, the category and product view sets, the product loading command, the login and description pages, and the admin registration are outside the cart and order logic and are not modelled.
- `models.py` does not match the code that uses it: cart items reference a cart, not a user, and orders have no status. The model follows the shapes `views.py` and `serializers.py` use.
- The order list, retrieve, update and delete endpoints of `OrderViewSet` are framework plumbing and are not modelled.
- The retrieve, update, partial update and destroy endpoints `CartItemViewSet` inherits from `ModelViewSet` are framework plumbing and are not modelled. The inherited update can reach a zero-quantity or duplicate (user, product) line, which is why the effect lemmas state their frame under unique keys alone and validity only for valid inputs.
