/** The client-side cart of the storefront (`ShopContext`): a JavaScript
    object from product id to quantity, the optimistic add/remove handlers
    with their rollbacks, order placement, the rebuild from the server's cart
    on load, and the two totals the pages display.

    An object whose keys are non-negative integers enumerates them in
    ascending order, so the object is modelled as a list of entries sorted by
    strictly increasing id; reading a missing key gives `undefined`. */
module ShopContext {
  import opened Outcomes

  /** A quantity as JavaScript holds it: a number, or NaN, which is what
      `undefined + 1` and `undefined - 1` produce for a key not in the cart. */
  datatype Qty = Num(n: int) | NaN

  datatype Entry = Entry(id: nat, qty: Qty)

  type ClientCart = seq<Entry>

  /** Keys strictly ascending: no key twice, in enumeration order. */
  ghost predicate Sorted(cart: ClientCart) {
    forall i, j :: 0 <= i < j < |cart| ==> cart[i].id < cart[j].id
  }

  /** `cart[id]`; `None` stands for `undefined`. */
  function Get(cart: ClientCart, id: nat): (r: Option<Qty>)
    ensures r.Some? <==> exists i :: 0 <= i < |cart| && cart[i].id == id
    ensures r.Some? ==> Entry(id, r.value) in cart
    ensures Sorted(cart) ==> forall i :: 0 <= i < |cart| && cart[i].id == id ==> r == Some(cart[i].qty)
  {
    if |cart| == 0 then None
    else if cart[0].id == id then Some(cart[0].qty)
    else Get(cart[1..], id)
  }

  /** `{ ...cart, [id]: q }`: overwrite the key where it is, or insert it in
      its place in the enumeration order (`GetPut` states what it reads back). */
  function Put(cart: ClientCart, id: nat, q: Qty): (r: ClientCart)
    requires Sorted(cart)
    ensures Sorted(r)
    ensures |r| > 0 && r[0].id == if |cart| == 0 || id < cart[0].id then id else cart[0].id
  {
    if |cart| == 0 then [Entry(id, q)]
    else if id < cart[0].id then [Entry(id, q)] + cart
    else if id == cart[0].id then [Entry(id, q)] + cart[1..]
    else
      var rest := Put(cart[1..], id, q);
      assert forall k :: 0 <= k < |rest| ==> rest[0].id <= rest[k].id;
      [cart[0]] + rest
  }

  /** After a write, the key reads back the written value and every other
      key reads as before. */
  lemma {:induction false} GetPut(cart: ClientCart, id: nat, q: Qty, j: nat)
    requires Sorted(cart)
    ensures Get(Put(cart, id, q), j) == if j == id then Some(q) else Get(cart, j)
    decreases |cart|
  {
    var r := Put(cart, id, q);
    if |cart| == 0 {
    } else if id < cart[0].id {
      assert r[1..] == cart;
    } else if id == cart[0].id {
      assert r[1..] == cart[1..];
    } else {
      GetPut(cart[1..], id, q, j);
      assert r[1..] == Put(cart[1..], id, q);
    }
  }

  lemma GetPutAll(cart: ClientCart, id: nat, q: Qty)
    requires Sorted(cart)
    ensures forall j :: Get(Put(cart, id, q), j) == if j == id then Some(q) else Get(cart, j)
  {
    forall j {
      GetPut(cart, id, q, j);
    }
  }

  // JavaScript's operators on a cart value

  /** `x + 1`. */
  function Inc(v: Option<Qty>): (r: Qty)
    ensures r.Num? <==> v.Some? && v.value.Num?
    ensures r.Num? ==> r.n == v.value.n + 1
  {
    if v.Some? && v.value.Num? then Num(v.value.n + 1) else NaN
  }

  /** `x - 1`. */
  function Dec(v: Qty): (r: Qty)
    ensures r.Num? <==> v.Num?
    ensures r.Num? ==> r.n == v.n - 1
  {
    if v.Num? then Num(v.n - 1) else NaN
  }

  /** `x > 0`: false for `undefined` and for NaN. */
  predicate IsPositive(v: Option<Qty>) {
    v.Some? && v.value.Num? && v.value.n > 0
  }

  /** `x || 0`: `undefined`, NaN and 0 are falsy and give 0. */
  function OrZero(v: Option<Qty>): (r: int)
    ensures r != 0 <==> v.Some? && v.value.Num? && v.value.n != 0
    ensures r != 0 ==> r == v.value.n
  {
    if v.Some? && v.value.Num? then v.value.n else 0
  }

  /** What an entry adds to `getTotalCartItems`: its quantity when positive. */
  function Counted(q: Qty): (r: int)
    ensures r >= 0
    ensures r > 0 <==> IsPositive(Some(q))
  {
    if q.Num? && q.n > 0 then q.n else 0
  }

  /** `getDefaultCart`: keys 1 to the catalogue size, each at 0. */
  function DefaultCart(size: nat): (r: ClientCart)
    ensures Sorted(r) && |r| == size
    ensures forall j: nat :: Get(r, j) == if 1 <= j <= size then Some(Num(0)) else None
  {
    DefaultFrom(1, size)
  }

  function DefaultFrom(first: nat, count: nat): (r: ClientCart)
    ensures |r| == count
    ensures forall i :: 0 <= i < count ==> r[i] == Entry(first + i, Num(0))
    ensures Sorted(r)
    ensures forall j: nat :: Get(r, j) == if first <= j < first + count then Some(Num(0)) else None
    decreases count
  {
    if count == 0 then []
    else
      var rest := DefaultFrom(first + 1, count - 1);
      var r := [Entry(first, Num(0))] + rest;
      assert r[1..] == rest;
      r
  }

  /** `getTotalCartItems`: the sum of the positive quantities. */
  function TotalItems(cart: ClientCart): (r: int)
    ensures r >= 0
  {
    if |cart| == 0 then 0 else Counted(cart[0].qty) + TotalItems(cart[1..])
  }

  /** A catalogue entry: its id and its `new_price`, in cents. */
  datatype ProductInfo = ProductInfo(id: nat, newPrice: int)

  /** `all_product.find(p => p.id === id)`: the first product with that id. */
  function FindProduct(products: seq<ProductInfo>, id: nat): (r: Option<ProductInfo>)
    ensures r.None? <==> forall i :: 0 <= i < |products| ==> products[i].id != id
    ensures r.Some? ==> exists i :: 0 <= i < |products| && products[i] == r.value && r.value.id == id
                                   && forall k :: 0 <= k < i ==> products[k].id != id
  {
    if |products| == 0 then None
    else if products[0].id == id then Some(products[0])
    else
      var r := FindProduct(products[1..], id);
      assert r.Some? ==> exists i :: 1 <= i < |products| && products[i] == r.value && r.value.id == id
                                     && forall k :: 1 <= k < i ==> products[k].id != id;
      r
  }

  /** What an entry adds to `getTotalCartAmount`: price times quantity when
      the quantity is positive and the id is in the catalogue. */
  function Priced(products: seq<ProductInfo>, e: Entry): int {
    var p := FindProduct(products, e.id);
    if IsPositive(Some(e.qty)) && p.Some? then p.value.newPrice * e.qty.n else 0
  }

  /** `getTotalCartAmount`: only entries that `getTotalCartItems` counts are
      priced, so a cart with no items has no amount. */
  function TotalAmount(cart: ClientCart, products: seq<ProductInfo>): (r: int)
    ensures TotalItems(cart) == 0 ==> r == 0
  {
    if |cart| == 0 then 0 else Priced(products, cart[0]) + TotalAmount(cart[1..], products)
  }

  // The running sums change only by the entry that changes

  lemma {:induction false} TotalItemsPut(cart: ClientCart, id: nat, q: Qty)
    requires Sorted(cart)
    ensures TotalItems(Put(cart, id, q))
         == TotalItems(cart) - (if Get(cart, id).Some? then Counted(Get(cart, id).value) else 0) + Counted(q)
    decreases |cart|
  {
    if |cart| > 0 && id > cart[0].id {
      TotalItemsPut(cart[1..], id, q);
      assert Put(cart, id, q)[1..] == Put(cart[1..], id, q);
    }
  }

  lemma {:induction false} TotalAmountPut(cart: ClientCart, products: seq<ProductInfo>, id: nat, q: Qty)
    requires Sorted(cart)
    ensures TotalAmount(Put(cart, id, q), products)
         == TotalAmount(cart, products) - (if Get(cart, id).Some? then Priced(products, Entry(id, Get(cart, id).value)) else 0)
            + Priced(products, Entry(id, q))
    decreases |cart|
  {
    if |cart| > 0 && id > cart[0].id {
      TotalAmountPut(cart[1..], products, id, q);
      assert Put(cart, id, q)[1..] == Put(cart[1..], id, q);
    }
  }

  /** Writing back the value a key already holds changes nothing. */
  lemma {:induction false} PutSame(cart: ClientCart, id: nat, q: Qty)
    requires Sorted(cart) && Get(cart, id) == Some(q)
    ensures Put(cart, id, q) == cart
    decreases |cart|
  {
    if cart[0].id != id {
      PutSame(cart[1..], id, q);
    }
  }

  /** A later write to a key overrides an earlier one. */
  lemma {:induction false} PutPut(cart: ClientCart, id: nat, q: Qty, q': Qty)
    requires Sorted(cart)
    ensures Put(Put(cart, id, q), id, q') == Put(cart, id, q')
    decreases |cart|
  {
    if |cart| > 0 && id > cart[0].id {
      PutPut(cart[1..], id, q, q');
    }
  }

  /** Zero-valued entries contribute nothing, so the default cart totals zero. */
  lemma {:induction false} DefaultFromEmpty(first: nat, count: nat, products: seq<ProductInfo>)
    ensures TotalItems(DefaultFrom(first, count)) == 0
    ensures TotalAmount(DefaultFrom(first, count), products) == 0
    decreases count
  {
    if count > 0 {
      DefaultFromEmpty(first + 1, count - 1, products);
      assert DefaultFrom(first, count)[1..] == DefaultFrom(first + 1, count - 1);
    }
  }

  lemma DefaultCartEmpty(size: nat, products: seq<ProductInfo>)
    ensures TotalItems(DefaultCart(size)) == 0
    ensures TotalAmount(DefaultCart(size), products) == 0
  {
    DefaultFromEmpty(1, size, products);
  }

  /** The item count is zero exactly when no entry holds a positive number. */
  lemma {:induction false} TotalItemsZero(cart: ClientCart)
    ensures TotalItems(cart) == 0 <==> forall i :: 0 <= i < |cart| ==> !IsPositive(Some(cart[i].qty))
    decreases |cart|
  {
    if |cart| > 0 {
      TotalItemsZero(cart[1..]);
      assert forall i :: 1 <= i < |cart| ==> cart[1..][i - 1] == cart[i];
    }
  }

  // The handlers. Each runs its steps one after another with no other state
  // update in between; `token` says whether an auth token is stored and
  // `accepted` whether the server answered with success.

  /** `addToCart`: without a token nothing changes (the user is sent to the
      login page); otherwise add 1 at once and subtract 1 again when the
      server refuses. */
  function AddToCart(cart: ClientCart, token: bool, id: nat, accepted: bool): (r: ClientCart)
    requires Sorted(cart)
    ensures Sorted(r)
    ensures !token ==> r == cart
    ensures token ==> forall j :: j != id ==> Get(r, j) == Get(cart, j)
    ensures token && accepted ==> Get(r, id) == Some(Inc(Get(cart, id)))
  {
    if !token then cart
    else
      var optimistic := Put(cart, id, Inc(Get(cart, id)));
      GetPutAll(cart, id, Inc(Get(cart, id)));
      if accepted then optimistic
      else
        var back := Dec(Get(optimistic, id).value);
        GetPutAll(optimistic, id, back);
        Put(optimistic, id, back)
  }

  /** A refused add restores the cart exactly when the key was present; a key
      that was missing stays behind holding NaN. */
  lemma AddToCartRollback(cart: ClientCart, id: nat)
    requires Sorted(cart)
    ensures var r := AddToCart(cart, true, id, false);
      && (r == cart <==> Get(cart, id).Some?)
      && (Get(cart, id).None? ==> Get(r, id) == Some(NaN) && TotalItems(r) == TotalItems(cart))
  {
    var v := Inc(Get(cart, id));
    var optimistic := Put(cart, id, v);
    GetPut(cart, id, v, id);
    var r := Put(optimistic, id, Dec(v));
    assert AddToCart(cart, true, id, false) == r;
    PutPut(cart, id, v, Dec(v));
    if Get(cart, id).Some? {
      assert Dec(v) == Get(cart, id).value;
      PutSame(cart, id, Get(cart, id).value);
    } else {
      assert Dec(v) == NaN;
      GetPut(cart, id, NaN, id);
      TotalItemsPut(cart, id, NaN);
    }
  }

  /** An accepted add of a counted-from-zero key adds one item and one unit
      price to the totals; an add of a missing key adds nothing, as NaN is
      never counted. */
  lemma AddToCartTotals(cart: ClientCart, id: nat, products: seq<ProductInfo>)
    requires Sorted(cart)
    ensures var r := AddToCart(cart, true, id, true);
      && (Get(cart, id).Some? && Get(cart, id).value.Num? && Get(cart, id).value.n >= 0 ==>
            && TotalItems(r) == TotalItems(cart) + 1
            && TotalAmount(r, products) == TotalAmount(cart, products)
                 + (if FindProduct(products, id).Some? then FindProduct(products, id).value.newPrice else 0))
      && (Get(cart, id).None? ==> TotalItems(r) == TotalItems(cart))
  {
    var v := Inc(Get(cart, id));
    assert AddToCart(cart, true, id, true) == Put(cart, id, v);
    if Get(cart, id).None? {
      TotalItemsPut(cart, id, v);
    } else if Get(cart, id).value.Num? && Get(cart, id).value.n >= 0 {
      var n := Get(cart, id).value.n;
      assert v == Num(n + 1);
      PutOneMore(cart, id, products, n);
    }
  }

  /** One more unit of a non-negative entry counts one more item at one more unit price. */
  lemma OneMoreUnit(products: seq<ProductInfo>, id: nat, n: int)
    requires n >= 0
    ensures Counted(Num(n + 1)) == Counted(Num(n)) + 1
    ensures Priced(products, Entry(id, Num(n + 1))) == Priced(products, Entry(id, Num(n)))
      + (if FindProduct(products, id).Some? then FindProduct(products, id).value.newPrice else 0)
  {
    if FindProduct(products, id).Some? {
      MulStep(FindProduct(products, id).value.newPrice, n);
    }
  }

  /** Raising a present, non-negative quantity by one adds one item and one unit price. */
  lemma PutOneMore(cart: ClientCart, id: nat, products: seq<ProductInfo>, n: int)
    requires Sorted(cart) && Get(cart, id) == Some(Num(n)) && n >= 0
    ensures TotalItems(Put(cart, id, Num(n + 1))) == TotalItems(cart) + 1
    ensures TotalAmount(Put(cart, id, Num(n + 1)), products) == TotalAmount(cart, products)
      + (if FindProduct(products, id).Some? then FindProduct(products, id).value.newPrice else 0)
  {
    TotalItemsPut(cart, id, Num(n + 1));
    TotalAmountPut(cart, products, id, Num(n + 1));
    OneMoreUnit(products, id, n);
  }



  /** `removeFromCart`: without a token, or when `cart[id] || 0` is not
      positive, nothing happens; otherwise subtract 1 (never below 0) at once
      and write the remembered quantity back when the server refuses. */
  function RemoveFromCart(cart: ClientCart, token: bool, id: nat, accepted: bool): (r: ClientCart)
    requires Sorted(cart)
    ensures Sorted(r)
    ensures !token || OrZero(Get(cart, id)) <= 0 ==> r == cart
    ensures forall j :: j != id ==> Get(r, j) == Get(cart, j)
    ensures token && OrZero(Get(cart, id)) > 0 && accepted ==> Get(r, id) == Some(Num(Get(cart, id).value.n - 1))
  {
    if !token then cart
    else
      var current := OrZero(Get(cart, id));
      if current <= 0 then cart
      else
        var prev := Get(cart, id);
        var lowered := if IsPositive(prev) then Dec(prev.value) else Num(0);
        var optimistic := Put(cart, id, lowered);
        GetPutAll(cart, id, lowered);
        if accepted then optimistic
        else
          GetPutAll(optimistic, id, Num(current));
          Put(optimistic, id, Num(current))
  }

  /** A refused remove always restores the cart. */
  lemma RemoveFromCartRollback(cart: ClientCart, token: bool, id: nat)
    requires Sorted(cart)
    ensures RemoveFromCart(cart, token, id, false) == cart
  {
    if token && OrZero(Get(cart, id)) > 0 {
      var v := Get(cart, id).value;
      PutPut(cart, id, Dec(v), Num(OrZero(Get(cart, id))));
      PutSame(cart, id, v);
    }
  }

  /** An accepted remove of a positive quantity takes one item and one unit
      price off the totals, and no quantity goes below zero. */
  lemma RemoveFromCartTotals(cart: ClientCart, id: nat, products: seq<ProductInfo>)
    requires Sorted(cart)
    requires IsPositive(Get(cart, id))
    ensures var r := RemoveFromCart(cart, true, id, true);
      && TotalItems(r) == TotalItems(cart) - 1
      && TotalAmount(r, products) == TotalAmount(cart, products)
           - (if FindProduct(products, id).Some? then FindProduct(products, id).value.newPrice else 0)
      && Get(r, id).value.n >= 0
  {
    var n := Get(cart, id).value.n;
    assert RemoveFromCart(cart, true, id, true) == Put(cart, id, Num(n - 1));
    PutOneLess(cart, id, products, n);
  }

  /** Lowering a positive quantity by one removes one item and one unit price. */
  lemma PutOneLess(cart: ClientCart, id: nat, products: seq<ProductInfo>, n: int)
    requires Sorted(cart) && Get(cart, id) == Some(Num(n)) && n >= 1
    ensures TotalItems(Put(cart, id, Num(n - 1))) == TotalItems(cart) - 1
    ensures TotalAmount(Put(cart, id, Num(n - 1)), products) == TotalAmount(cart, products)
      - (if FindProduct(products, id).Some? then FindProduct(products, id).value.newPrice else 0)
  {
    TotalItemsPut(cart, id, Num(n - 1));
    TotalAmountPut(cart, products, id, Num(n - 1));
    OneMoreUnit(products, id, n - 1);
  }


  /** How an order attempt ends on the client. */
  datatype OrderAttempt =
    | NotLoggedIn   // "please log in" alert
    | EmptyCart     // "your cart is empty" alert
    | Placed        // the server created the order
    | Failed        // the server refused; the cart is kept

  datatype Placement = Placement(cart: ClientCart, outcome: OrderAttempt)

  /** `createOrder`: needs a token and a non-zero item count; a placed order
      resets the cart to the default one. */
  function CreateOrder(cart: ClientCart, token: bool, catalogueSize: nat, accepted: bool): (r: Placement)
    ensures r.outcome == NotLoggedIn <==> !token
    ensures r.outcome == EmptyCart <==> token && TotalItems(cart) == 0
    ensures r.outcome == Placed <==> token && TotalItems(cart) > 0 && accepted
    ensures r.outcome == Placed ==> r.cart == DefaultCart(catalogueSize) && TotalItems(r.cart) == 0
    ensures r.outcome != Placed ==> r.cart == cart
  {
    if !token then Placement(cart, NotLoggedIn)
    else if TotalItems(cart) == 0 then Placement(cart, EmptyCart)
    else if accepted then
      DefaultCartEmpty(catalogueSize, []);
      Placement(DefaultCart(catalogueSize), Placed)
    else Placement(cart, Failed)
  }

  /** One element of the server's cart listing: the product's id and the quantity. */
  datatype ServerItem = ServerItem(productId: nat, quantity: int)

  /** The quantity the last listing element for `id` carries, if any. */
  function LastQuantity(items: seq<ServerItem>, id: nat): (r: Option<int>)
    ensures r.None? <==> forall i :: 0 <= i < |items| ==> items[i].productId != id
    ensures r.Some? ==> exists i :: 0 <= i < |items| && items[i] == ServerItem(id, r.value)
                                   && forall k :: i < k < |items| ==> items[k].productId != id
  {
    if |items| == 0 then None
    else
      var last := items[|items| - 1];
      if last.productId == id then Some(last.quantity)
      else
        var r := LastQuantity(items[..|items| - 1], id);
        assert forall i :: 0 <= i < |items| - 1 ==> items[..|items| - 1][i] == items[i];
        r
  }

  /** The cart the load effect builds: the default cart, then each listing
      element written over it in turn. */
  function Rebuild(catalogueSize: nat, items: seq<ServerItem>): (r: ClientCart)
    ensures Sorted(r)
    ensures forall j :: Get(r, j) == match LastQuantity(items, j)
      case Some(q) => Some(Num(q))
      case None => Get(DefaultCart(catalogueSize), j)
  {
    if |items| == 0 then DefaultCart(catalogueSize)
    else
      var last := items[|items| - 1];
      var before := Rebuild(catalogueSize, items[..|items| - 1]);
      GetPutAll(before, last.productId, Num(last.quantity));
      Put(before, last.productId, Num(last.quantity))
  }

  /** The load effect: with a token and a successful listing the cart becomes
      the rebuilt one; otherwise it stays as it is. */
  function Load(cart: ClientCart, token: bool, catalogueSize: nat, listing: Option<seq<ServerItem>>): (r: ClientCart)
    ensures Sorted(cart) ==> Sorted(r)
    ensures token && listing.Some? ==> forall j :: Get(r, j) == match LastQuantity(listing.value, j)
      case Some(q) => Some(Num(q))
      case None => Get(DefaultCart(catalogueSize), j)
    ensures !token || listing.None? ==> r == cart
  {
    if token && listing.Some? then Rebuild(catalogueSize, listing.value) else cart
  }
}
