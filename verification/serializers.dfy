/** The serializer-level operations: the quantity-merging create of a cart
    line, checkout (turning a user's cart into an order), and the password
    confirmation check of registration. */
module Serializers {
  import opened Outcomes
  import opened CartLines
  import opened CartViews
  import opened Orders

  /** The persistent state checkout works on. */
  datatype Shop = Shop(cart: Cart, orders: OrderTable)

  /** `CartItemSerializer.create`: add the requested quantity (default 1) to
      the (user, product) line, creating it at that quantity when absent. A
      missing product, an anonymous user or two rows already carrying the key
      raise an uncaught error. */
  function CreateLine(c: Cart, owner: Option<UserId>, catalog: set<ProductId>, p: ProductId,
                      quantity: Option<nat>): (r: Handled<Cart, CartLine>)
    ensures p !in catalog || owner.None? ==> r == Handled(c, Err(ServerError))
    ensures owner.Some? && Duplicated(c, Key(owner.value, p)) ==> r == Handled(c, Err(ServerError))
    ensures p in catalog && owner.Some? && !Duplicated(c, Key(owner.value, p)) ==>
      var k, q := Key(owner.value, p), quantity.GetOr(1);
      && r.reply.Ok? && r.reply.value.KeyOf() == k
      && r.reply.value.quantity == (if k in View(c) then View(c)[k] + q else q)
  {
    if p !in catalog || owner.None? then Handled(c, Err(ServerError))
    else
      var q := quantity.GetOr(1);
      match Find(c, Key(owner.value, p))
      case None =>
        var l := CartLine(owner.value, p, q);
        Handled(c + [l], Ok(l))
      case Some(i) =>
        if PrefixHas(c, i, Key(owner.value, p)) then Handled(c, Err(ServerError))
        else
          var l := c[i].(quantity := c[i].quantity + q);
          Handled(c[i := l], Ok(l))
  }

  /** The create changes exactly one line and keeps lines unique. */
  lemma CreateLineEffect(c: Cart, u: UserId, catalog: set<ProductId>, p: ProductId, quantity: Option<nat>)
    requires UniqueKeys(c) && p in catalog
    ensures var r := CreateLine(c, Some(u), catalog, p, quantity);
      var k, q := Key(u, p), quantity.GetOr(1);
      && UniqueKeys(r.state)
      && View(r.state) == View(c)[k := if k in View(c) then View(c)[k] + q else q]
  {
    var k, q := Key(u, p), quantity.GetOr(1);
    UniqueNotDuplicated(c, k);
    var f := Find(c, k);
    if f.None? {
      var l := CartLine(u, p, q);
      assert CreateLine(c, Some(u), catalog, p, quantity).state == c + [l];
      ViewAppend(c, l);
      AppendUnique(c, l);
    } else {
      var i := f.value;
      var l := c[i].(quantity := c[i].quantity + q);
      assert CreateLine(c, Some(u), catalog, p, quantity).state == c[i := l];
      ViewUpdate(c, i, l);
      UpdateUnique(c, i, l);
    }
  }

  /** Quantities stay positive after the create exactly when the line already
      existed or the requested quantity is not 0: a new line can be created
      at quantity 0. */
  lemma CreateLinePositive(c: Cart, u: UserId, catalog: set<ProductId>, p: ProductId, quantity: Option<nat>)
    requires PositiveQuantities(c) && p in catalog
    ensures var r := CreateLine(c, Some(u), catalog, p, quantity);
      PositiveQuantities(r.state) <==> Key(u, p) in View(c) || quantity.GetOr(1) > 0
  {
    var k, q := Key(u, p), quantity.GetOr(1);
    var f := Find(c, k);
    if Duplicated(c, k) {
      assert CreateLine(c, Some(u), catalog, p, quantity).state == c;
    } else if f.None? {
      var l := CartLine(u, p, q);
      assert CreateLine(c, Some(u), catalog, p, quantity).state == c + [l];
      assert (c + [l])[|c|] == l;
    } else {
      var i := f.value;
      var l := c[i].(quantity := c[i].quantity + q);
      assert CreateLine(c, Some(u), catalog, p, quantity).state == c[i := l];
    }
  }

  /** With the default quantity the create agrees with `add_item` whenever it succeeds. */
  lemma CreateLineDefaultIsAddItem(c: Cart, owner: Option<UserId>, catalog: set<ProductId>, p: ProductId)
    ensures CreateLine(c, owner, catalog, p, None).reply.Ok? ==>
              CreateLine(c, owner, catalog, p, None) == AddItem(c, owner, catalog, p)
  {
  }

  /** One order line per cart line, same product and quantity, same order. */
  function CopyLines(lines: seq<CartLine>): (r: seq<OrderLine>)
    ensures |r| == |lines|
    ensures forall i :: 0 <= i < |lines| ==> r[i] == OrderLine(lines[i].product, lines[i].quantity)
  {
    if |lines| == 0 then []
    else CopyLines(lines[..|lines| - 1]) + [OrderLine(lines[|lines| - 1].product, lines[|lines| - 1].quantity)]
  }

  /** `OrderCreateSerializer.create`: place an order with the requested status
      holding a copy of every cart line of the user, total it, and empty that
      user's cart. An anonymous user raises an uncaught error. */
  function Checkout(shop: Shop, owner: Option<UserId>, status: Status, price: ProductId -> nat)
    : (r: Handled<Shop, Order>)
    ensures owner.None? ==> r == Handled(shop, Err(ServerError))
    ensures owner.Some? ==>
      var u := owner.value;
      var mine := OwnedBy(shop.cart, u);
      && r.reply.Ok?
      && r.reply.value.user == u
      && r.reply.value.status == status
      && |r.reply.value.lines| == |mine|
      && (forall i :: 0 <= i < |mine| ==>
            r.reply.value.lines[i].product == mine[i].product
            && r.reply.value.lines[i].quantity == mine[i].quantity)
      && r.state.orders == shop.orders + [r.reply.value]
      && (forall l :: l in r.state.cart <==> l in shop.cart && l.user != u)
  {
    if owner.None? then Handled(shop, Err(ServerError))
    else
      var u := owner.value;
      var lines := CopyLines(OwnedBy(shop.cart, u));
      var order := Order(u, status, lines, OrderTotal(lines, price));
      Handled(Shop(Without(shop.cart, u), shop.orders + [order]), Ok(order))
  }

  /** The order's total and item count are the sums over the copied cart lines. */
  lemma {:induction false} CopyLinesSums(lines: seq<CartLine>, price: ProductId -> nat)
    ensures OrderTotal(CopyLines(lines), price) == SumOf(lines, Subtotal(price))
    ensures ItemCount(CopyLines(lines)) == SumOf(lines, Quantity)
  {
    if |lines| > 0 {
      var n := |lines| - 1;
      CopyLinesSums(lines[..n], price);
      assert CopyLines(lines)[..n] == CopyLines(lines[..n]);
    }
  }

  /** Checkout carries the cart's totals over to the order and leaves the
      user's cart empty and every other user's cart untouched. */
  lemma CheckoutTotals(shop: Shop, u: UserId, status: Status, price: ProductId -> nat, v: UserId)
    ensures var r := Checkout(shop, Some(u), status, price);
      var before := Total(shop.cart, Some(u), price);
      && r.reply.value.total == before.total
      && ItemCount(r.reply.value.lines) == before.count
      && Total(r.state.cart, Some(u), price) == CartTotals(0, 0)
      && (v != u ==> Total(r.state.cart, Some(v), price) == Total(shop.cart, Some(v), price))
      && View(r.state.cart) == DropUser(View(shop.cart), u)
      && (Valid(shop.cart) ==> Valid(r.state.cart))
  {
    CopyLinesSums(OwnedBy(shop.cart, u), price);
    ClearEffect(shop.cart, u, price, v);
  }

  /** Checkout of an empty cart still places an order, with no lines and a zero total. */
  lemma CheckoutEmptyCart(shop: Shop, u: UserId, status: Status, price: ProductId -> nat)
    requires OwnedBy(shop.cart, u) == []
    ensures var r := Checkout(shop, Some(u), status, price);
      && r.reply.Ok? && r.reply.value.lines == [] && r.reply.value.total == 0
      && |r.state.orders| == |shop.orders| + 1
  {
  }

  /** The data a registration request carries. */
  datatype Registration = Registration(username: string, email: string, password: string, passwordConfirm: string)

  /** `RegisterSerializer.validate`: the two passwords must match. */
  function ValidateRegistration(data: Registration): (r: Result<Registration>)
    ensures r.Err? <==> data.password != data.passwordConfirm
    ensures r.Ok? ==> r.value == data
    ensures r.Err? ==> r.error == ValidationError
  {
    if data.password != data.passwordConfirm then Err(ValidationError) else Ok(data)
  }
}
