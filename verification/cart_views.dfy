/** The cart endpoints of the server (`CartItemViewSet`): add one, remove one,
    totals, clear and set-quantity, each a pure function from the cart table,
    the authenticated user (if any) and the request data to the new table and
    the reply. */
module CartViews {
  import opened Outcomes
  import opened CartLines

  /** What a successful cart request answers with. */
  datatype CartReply =
    | Updated(line: CartLine)   // the serialized line after the change
    | Removed                   // "Item removed from cart"
    | Cleared                   // "Cart cleared successfully"

  /** The body of the `total` endpoint: money in cents and item count. */
  datatype CartTotals = CartTotals(total: int, count: int)

  /** The lines a request may see: the user's own, or none when anonymous. */
  function Queryset(c: Cart, owner: Option<UserId>): (r: Cart)
    ensures owner.None? ==> r == []
    ensures owner.Some? ==> forall l :: l in r <==> l in c && l.user == owner.value
  {
    if owner.None? then [] else OwnedBy(c, owner.value)
  }

  /** `add_item`: create the (user, product) line at 1 or add 1 to it. When
      two rows already carry the key, `get_or_create` raises
      `MultipleObjectsReturned`, which nothing catches. */
  function AddItem(c: Cart, owner: Option<UserId>, catalog: set<ProductId>, p: ProductId)
    : (r: Handled<Cart, CartLine>)
    ensures owner.None? ==> r == Handled(c, Err(Unauthorized))
    ensures owner.Some? && p !in catalog ==> r == Handled(c, Err(NotFound))
    ensures owner.Some? && p in catalog && Duplicated(c, Key(owner.value, p)) ==>
      r == Handled(c, Err(ServerError))
    ensures owner.Some? && p in catalog && !Duplicated(c, Key(owner.value, p)) ==>
      var k := Key(owner.value, p);
      && r.reply.Ok? && r.reply.value.KeyOf() == k
      && r.reply.value.quantity == (if k in View(c) then View(c)[k] + 1 else 1)
  {
    if owner.None? then Handled(c, Err(Unauthorized))
    else if p !in catalog then Handled(c, Err(NotFound))
    else
      match Find(c, Key(owner.value, p))
      case None =>
        var l := CartLine(owner.value, p, 1);
        Handled(c + [l], Ok(l))
      case Some(i) =>
        if PrefixHas(c, i, Key(owner.value, p)) then Handled(c, Err(ServerError))
        else
          var l := c[i].(quantity := c[i].quantity + 1);
          Handled(c[i := l], Ok(l))
  }

  /** `remove_item`: take 1 off the (user, product) line, deleting it when it
      is at 1 or below. When two rows carry the key, `get` raises
      `MultipleObjectsReturned`, which the handler does not catch. */
  function RemoveItem(c: Cart, owner: Option<UserId>, p: ProductId): (r: Handled<Cart, CartReply>)
    ensures owner.None? ==> r == Handled(c, Err(Unauthorized))
    ensures owner.Some? && Key(owner.value, p) !in View(c) ==> r == Handled(c, Err(NotFound))
    ensures owner.Some? && Duplicated(c, Key(owner.value, p)) ==> r == Handled(c, Err(ServerError))
    ensures owner.Some? && Key(owner.value, p) in View(c) && !Duplicated(c, Key(owner.value, p)) ==>
      var q := View(c)[Key(owner.value, p)];
      && r.reply.Ok?
      && (q > 1 ==> r.reply.value == Updated(CartLine(owner.value, p, q - 1)))
      && (q <= 1 ==> r.reply.value == Removed)
  {
    if owner.None? then Handled(c, Err(Unauthorized))
    else
      match Find(c, Key(owner.value, p))
      case None => Handled(c, Err(NotFound))
      case Some(i) =>
        if PrefixHas(c, i, Key(owner.value, p)) then Handled(c, Err(ServerError))
        else if c[i].quantity > 1 then
          var l := c[i].(quantity := c[i].quantity - 1);
          Handled(c[i := l], Ok(Updated(l)))
        else
          Handled(Delete(c, i), Ok(Removed))
  }

  /** `total`: the money total and the item count of the caller's lines;
      zeros for an anonymous caller. */
  function Total(c: Cart, owner: Option<UserId>, price: ProductId -> nat): (r: CartTotals)
    ensures owner.None? ==> r == CartTotals(0, 0)
  {
    if owner.None? then CartTotals(0, 0)
    else
      var mine := Queryset(c, owner);
      CartTotals(SumOf(mine, Subtotal(price)), SumOf(mine, Quantity))
  }

  /** With positive quantities the count is at least the number of the
      caller's lines, so it is 0 exactly when the caller has none. */
  lemma TotalCount(c: Cart, owner: Option<UserId>, price: ProductId -> nat)
    requires PositiveQuantities(c)
    ensures Total(c, owner, price).count >= |Queryset(c, owner)|
    ensures Total(c, owner, price).count == 0 <==> Queryset(c, owner) == []
  {
    var mine := Queryset(c, owner);
    assert forall i :: 0 <= i < |mine| ==> mine[i] in c;
    QuantitySumPositive(mine);
  }

  /** `clear`: delete every line of the caller. */
  function Clear(c: Cart, owner: Option<UserId>): (r: Handled<Cart, CartReply>)
    ensures owner.None? ==> r == Handled(c, Err(Unauthorized))
    ensures owner.Some? ==> r.reply == Ok(Cleared)
    ensures owner.Some? ==> forall l :: l in r.state <==> l in c && l.user != owner.value
  {
    if owner.None? then Handled(c, Err(Unauthorized))
    else Handled(Without(c, owner.value), Ok(Cleared))
  }

  /** `update_quantity`: set the caller's line to the requested quantity
      (default 1), or delete it when the quantity is at most 0. The line is
      addressed by its (user, product) key. */
  function UpdateQuantity(c: Cart, owner: Option<UserId>, p: ProductId, quantity: Option<int>)
    : (r: Handled<Cart, CartReply>)
    ensures owner.None? ==> r == Handled(c, Err(Unauthorized))
    ensures owner.Some? && Key(owner.value, p) !in View(c) ==> r == Handled(c, Err(NotFound))
    ensures owner.Some? && Key(owner.value, p) in View(c) ==>
      var q := quantity.GetOr(1);
      && (q <= 0 ==> r.reply == Ok(Removed))
      && (q > 0 ==> r.reply == Ok(Updated(CartLine(owner.value, p, q))))
  {
    if owner.None? then Handled(c, Err(Unauthorized))
    else
      match Find(c, Key(owner.value, p))
      case None => Handled(c, Err(NotFound))
      case Some(i) =>
        var q := quantity.GetOr(1);
        if q <= 0 then Handled(Delete(c, i), Ok(Removed))
        else
          var l := c[i].(quantity := q);
          Handled(c[i := l], Ok(Updated(l)))
  }

  // ---------------------------------------------------------------------------
  // Effects on the table

  /** `add_item` changes exactly one line: created at 1 or raised by 1. The
      frame needs only unique keys, which a zero-quantity line (reachable
      through the serializer's create) does not break. */
  lemma AddItemEffect(c: Cart, u: UserId, catalog: set<ProductId>, p: ProductId)
    requires UniqueKeys(c) && p in catalog
    ensures var r := AddItem(c, Some(u), catalog, p);
      var k := Key(u, p);
      && UniqueKeys(r.state)
      && View(r.state) == View(c)[k := if k in View(c) then View(c)[k] + 1 else 1]
      && (Valid(c) ==> Valid(r.state))
  {
    if Find(c, Key(u, p)).None? {
      AddFresh(c, u, catalog, p);
    } else {
      AddRaise(c, u, catalog, p);
    }
  }

  /** An add of a product the table lacks appends one line at 1. */
  lemma AddFresh(c: Cart, u: UserId, catalog: set<ProductId>, p: ProductId)
    requires UniqueKeys(c) && p in catalog && Find(c, Key(u, p)).None?
    ensures var s := AddItem(c, Some(u), catalog, p).state;
      && UniqueKeys(s)
      && View(s) == View(c)[Key(u, p) := 1]
      && (Valid(c) ==> Valid(s))
  {
    var l := CartLine(u, p, 1);
    assert AddItem(c, Some(u), catalog, p).state == c + [l];
    ViewAppend(c, l);
    AppendUnique(c, l);
    if Valid(c) {
      AppendValid(c, l);
    }
  }

  /** An add of a product the table holds once raises that line by 1. */
  lemma AddRaise(c: Cart, u: UserId, catalog: set<ProductId>, p: ProductId)
    requires UniqueKeys(c) && p in catalog && Find(c, Key(u, p)).Some?
    ensures var s := AddItem(c, Some(u), catalog, p).state;
      var k := Key(u, p);
      && UniqueKeys(s)
      && View(s) == View(c)[k := View(c)[k] + 1]
      && (Valid(c) ==> Valid(s))
  {
    var k := Key(u, p);
    UniqueNotDuplicated(c, k);
    RaisedState(c, u, catalog, p);
    var i := Find(c, k).value;
    var l := c[i].(quantity := c[i].quantity + 1);
    assert l.KeyOf() == k && l.quantity == View(c)[k] + 1;
    ViewUpdate(c, i, l);
    UpdateUnique(c, i, l);
    if Valid(c) {
      UpdateValid(c, i, l);
    }
  }

  /** The table after an add to the one line holding the product. */
  lemma RaisedState(c: Cart, u: UserId, catalog: set<ProductId>, p: ProductId)
    requires p in catalog && Find(c, Key(u, p)).Some? && !Duplicated(c, Key(u, p))
    ensures var i := Find(c, Key(u, p)).value;
      AddItem(c, Some(u), catalog, p).state == c[i := c[i].(quantity := c[i].quantity + 1)]
  {
  }

  /** `remove_item` lowers exactly one line by 1 or deletes it; on a valid
      cart no line is ever left at 0. */
  lemma RemoveItemEffect(c: Cart, u: UserId, p: ProductId)
    requires UniqueKeys(c)
    ensures var r := RemoveItem(c, Some(u), p);
      var k := Key(u, p);
      && UniqueKeys(r.state)
      && (k !in View(c) ==> r.state == c)
      && (k in View(c) && View(c)[k] > 1 ==> View(r.state) == View(c)[k := View(c)[k] - 1])
      && (k in View(c) && View(c)[k] <= 1 ==> View(r.state) == View(c) - {k})
      && (Valid(c) ==> Valid(r.state))
  {
    var k := Key(u, p);
    UniqueNotDuplicated(c, k);
    var f := Find(c, k);
    if f.Some? {
      var i := f.value;
      if c[i].quantity > 1 {
        var l := c[i].(quantity := c[i].quantity - 1);
        assert RemoveItem(c, Some(u), p).state == c[i := l];
        ViewUpdate(c, i, l);
        UpdateUnique(c, i, l);
        if Valid(c) {
          UpdateValid(c, i, l);
        }
      } else {
        assert RemoveItem(c, Some(u), p).state == Delete(c, i);
        ViewDelete(c, i);
        DeleteUnique(c, i);
        if Valid(c) {
          DeleteValid(c, i);
        }
      }
    }
  }

  /** `update_quantity` deletes the line or sets it to exactly the requested
      quantity; no other line changes. */
  lemma UpdateQuantityEffect(c: Cart, u: UserId, p: ProductId, quantity: Option<int>)
    requires UniqueKeys(c)
    ensures var r := UpdateQuantity(c, Some(u), p, quantity);
      var k := Key(u, p);
      var q := quantity.GetOr(1);
      && UniqueKeys(r.state)
      && (k !in View(c) ==> r.state == c)
      && (k in View(c) && q <= 0 ==> View(r.state) == View(c) - {k})
      && (k in View(c) && q > 0 ==> View(r.state) == View(c)[k := q])
      && (Valid(c) ==> Valid(r.state))
  {
    var k := Key(u, p);
    var f := Find(c, k);
    if f.Some? {
      var i := f.value;
      var q := quantity.GetOr(1);
      if q <= 0 {
        assert UpdateQuantity(c, Some(u), p, quantity).state == Delete(c, i);
        ViewDelete(c, i);
        DeleteUnique(c, i);
        if Valid(c) {
          DeleteValid(c, i);
        }
      } else {
        var l := c[i].(quantity := q);
        assert UpdateQuantity(c, Some(u), p, quantity).state == c[i := l];
        ViewUpdate(c, i, l);
        UpdateUnique(c, i, l);
        if Valid(c) {
          UpdateValid(c, i, l);
        }
      }
    }
  }

  /** `clear` removes the caller's lines and only those. */
  lemma ClearEffect(c: Cart, u: UserId, price: ProductId -> nat, v: UserId)
    ensures var r := Clear(c, Some(u));
      && View(r.state) == DropUser(View(c), u)
      && (Valid(c) ==> Valid(r.state))
      && Total(r.state, Some(u), price) == CartTotals(0, 0)
      && (v != u ==> Total(r.state, Some(v), price) == Total(c, Some(v), price))
  {
    ViewWithout(c, u);
    if Valid(c) {
      FilterValid(c, NotMine(u));
    }
    FilterNone(Without(c, u), Mine(u));
    if v != u {
      FilterTwice(c, NotMine(u), Mine(v));
    }
  }

  /** Clearing twice is clearing once. */
  lemma ClearIdempotent(c: Cart, owner: Option<UserId>)
    ensures Clear(Clear(c, owner).state, owner) == Clear(c, owner)
  {
    if owner.Some? {
      FilterTwice(c, NotMine(owner.value), NotMine(owner.value));
    }
  }

  // ---------------------------------------------------------------------------
  // Effects on the totals

  /** Replacing line `i` by `l` of the same key moves each filtered sum by
      exactly the difference between the two lines' weights. */
  lemma ReplaceSum(c: Cart, i: nat, l: CartLine, v: UserId, w: CartLine -> int)
    requires i < |c| && l.KeyOf() == c[i].KeyOf()
    ensures SumOf(OwnedBy(c[i := l], v), w)
         == SumOf(OwnedBy(c, v), w) + (if c[i].user == v then w(l) - w(c[i]) else 0)
  {
    assert c[i := l] == c[..i] + [l] + c[i + 1..];
    FilteredSumSplice(c, i, [l], Mine(v), w);
    FilteredSumSingle(l, Mine(v), w);
  }

  /** Deleting line `i` lowers each filtered sum by exactly that line's weight. */
  lemma DeleteSum(c: Cart, i: nat, v: UserId, w: CartLine -> int)
    requires i < |c|
    ensures SumOf(OwnedBy(Delete(c, i), v), w)
         == SumOf(OwnedBy(c, v), w) - (if c[i].user == v then w(c[i]) else 0)
  {
    assert Delete(c, i) == c[..i] + [] + c[i + 1..];
    FilteredSumSplice(c, i, [], Mine(v), w);
  }

  /** Changing the quantity of line `i` by `d` moves its owner's totals by `d`
      items and `d` unit prices, and nobody else's. */
  lemma ShiftTotals(c: Cart, i: nat, d: int, price: ProductId -> nat, v: UserId)
    requires i < |c| && (d == 1 || d == -1)
    ensures var t := Total(c, Some(v), price);
      Total(c[i := c[i].(quantity := c[i].quantity + d)], Some(v), price)
        == if c[i].user == v then CartTotals(t.total + d * price(c[i].product), t.count + d) else t
  {
    var l := c[i].(quantity := c[i].quantity + d);
    var w := Subtotal(price);
    ReplaceSum(c, i, l, v, w);
    ReplaceSum(c, i, l, v, Quantity);
    if d == 1 {
      MulStep(price(c[i].product), c[i].quantity);
    } else {
      MulStep(price(c[i].product), c[i].quantity - 1);
    }
  }

  /** Deleting a line of quantity 1 lowers its owner's totals by one item and
      one unit price, and nobody else's. */
  lemma DeleteTotals(c: Cart, i: nat, price: ProductId -> nat, v: UserId)
    requires i < |c| && c[i].quantity == 1
    ensures var t := Total(c, Some(v), price);
      Total(Delete(c, i), Some(v), price)
        == if c[i].user == v then CartTotals(t.total - price(c[i].product), t.count - 1) else t
  {
    DeleteSum(c, i, v, Subtotal(price));
    DeleteSum(c, i, v, Quantity);
  }

  /** The signed-in caller's totals are sums over exactly their own lines:
      an empty table totals (0, 0), a line of the caller adds its subtotal
      and quantity, and a line of anyone else adds nothing. */
  lemma TotalByLines(c: Cart, l: CartLine, price: ProductId -> nat, v: UserId)
    ensures Total([], Some(v), price) == CartTotals(0, 0)
    ensures var t := Total(c, Some(v), price);
      Total(c + [l], Some(v), price)
        == if l.user == v then CartTotals(t.total + price(l.product) * l.quantity, t.count + l.quantity) else t
  {
    var mine := Mine(v);
    assert Queryset(c + [l], Some(v)) == Filter(c + [l], mine);
    assert Queryset(c, Some(v)) == Filter(c, mine);
    FilteredSumAppend(c, l, mine, Subtotal(price));
    FilteredSumAppend(c, l, mine, Quantity);
    if l.user == v {
      assert Contribution(l, mine, Subtotal(price)) == price(l.product) * l.quantity;
      assert Contribution(l, mine, Quantity) == l.quantity;
    } else {
      assert Contribution(l, mine, Subtotal(price)) == 0 && Contribution(l, mine, Quantity) == 0;
    }
  }

  /** Appending a line of quantity 1 raises its owner's totals by one item and
      one unit price, and nobody else's. */
  lemma AppendTotals(c: Cart, l: CartLine, price: ProductId -> nat, v: UserId)
    requires l.quantity == 1
    ensures var t := Total(c, Some(v), price);
      Total(c + [l], Some(v), price)
        == if l.user == v then CartTotals(t.total + price(l.product), t.count + 1) else t
  {
    FilteredSumAppend(c, l, Mine(v), Subtotal(price));
    FilteredSumAppend(c, l, Mine(v), Quantity);
  }

  /** Adding a product raises the caller's count by 1 and total by its price,
      and leaves every other user's totals alone; a failed add on a shared key
      changes no totals at all. */
  lemma AddItemTotals(c: Cart, u: UserId, catalog: set<ProductId>, p: ProductId,
                      price: ProductId -> nat, v: UserId)
    requires p in catalog
    ensures var r := AddItem(c, Some(u), catalog, p);
      var t := Total(c, Some(v), price);
      Total(r.state, Some(v), price)
        == if v == u && !Duplicated(c, Key(u, p)) then CartTotals(t.total + price(p), t.count + 1) else t
  {
    var f := Find(c, Key(u, p));
    if Duplicated(c, Key(u, p)) {
      assert AddItem(c, Some(u), catalog, p).state == c;
    } else if f.None? {
      assert AddItem(c, Some(u), catalog, p).state == c + [CartLine(u, p, 1)];
      AppendTotals(c, CartLine(u, p, 1), price, v);
    } else {
      var i := f.value;
      assert AddItem(c, Some(u), catalog, p).state == c[i := c[i].(quantity := c[i].quantity + 1)];
      RaiseTotals(c, u, catalog, p, i, price, v);
    }
  }

  /** The totals step once the add raised line i by one unit; the caller supplies the unfolded
      state as a requires so that each proof stays small. */
  lemma RaiseTotals(c: Cart, u: UserId, catalog: set<ProductId>, p: ProductId, i: nat,
                    price: ProductId -> nat, v: UserId)
    requires i < |c| && c[i].KeyOf() == Key(u, p)
    requires AddItem(c, Some(u), catalog, p).state == c[i := c[i].(quantity := c[i].quantity + 1)]
    ensures var t := Total(c, Some(v), price);
      Total(AddItem(c, Some(u), catalog, p).state, Some(v), price)
        == if v == u then CartTotals(t.total + price(p), t.count + 1) else t
  {
    ShiftTotals(c, i, 1, price, v);
  }

  /** Removing a product the caller has lowers their count by 1 and total by
      its price, and leaves every other user's totals alone; a failed remove
      on a shared key changes no totals at all. */
  lemma RemoveItemTotals(c: Cart, u: UserId, p: ProductId, price: ProductId -> nat, v: UserId)
    requires PositiveQuantities(c) && Key(u, p) in View(c)
    ensures var r := RemoveItem(c, Some(u), p);
      var t := Total(c, Some(v), price);
      Total(r.state, Some(v), price)
        == if v == u && !Duplicated(c, Key(u, p)) then CartTotals(t.total - price(p), t.count - 1) else t
  {
    var i := Find(c, Key(u, p)).value;
    if Duplicated(c, Key(u, p)) {
      assert RemoveItem(c, Some(u), p).state == c;
    } else if c[i].quantity > 1 {
      assert RemoveItem(c, Some(u), p).state == c[i := c[i].(quantity := c[i].quantity - 1)];
      LowerTotals(c, u, p, i, price, v);
    } else {
      assert RemoveItem(c, Some(u), p).state == Delete(c, i);
      DropTotals(c, u, p, i, price, v);
    }
  }

  /** The totals step once the remove lowered line i by one unit; the caller supplies the unfolded
      state as a requires so that each proof stays small. */
  lemma LowerTotals(c: Cart, u: UserId, p: ProductId, i: nat, price: ProductId -> nat, v: UserId)
    requires i < |c| && c[i].KeyOf() == Key(u, p) && c[i].quantity > 1
    requires RemoveItem(c, Some(u), p).state == c[i := c[i].(quantity := c[i].quantity - 1)]
    ensures var t := Total(c, Some(v), price);
      Total(RemoveItem(c, Some(u), p).state, Some(v), price)
        == if v == u then CartTotals(t.total - price(p), t.count - 1) else t
  {
    ShiftTotals(c, i, -1, price, v);
  }

  /** The totals step once the remove deleted line i; the caller supplies the unfolded
      state as a requires so that each proof stays small. */
  lemma DropTotals(c: Cart, u: UserId, p: ProductId, i: nat, price: ProductId -> nat, v: UserId)
    requires i < |c| && c[i].KeyOf() == Key(u, p) && c[i].quantity == 1
    requires RemoveItem(c, Some(u), p).state == Delete(c, i)
    ensures var t := Total(c, Some(v), price);
      Total(RemoveItem(c, Some(u), p).state, Some(v), price)
        == if v == u then CartTotals(t.total - price(p), t.count - 1) else t
  {
    DeleteTotals(c, i, price, v);
  }

  // ---------------------------------------------------------------------------
  // Repeated adds and removes

  /** `n` consecutive `add_item` calls by `u` for `p`. */
  function AddTimes(c: Cart, u: UserId, catalog: set<ProductId>, p: ProductId, n: nat): Cart
    decreases n
  {
    if n == 0 then c else AddTimes(AddItem(c, Some(u), catalog, p).state, u, catalog, p, n - 1)
  }

  /** `n` consecutive `remove_item` calls by `u` for `p`. */
  function RemoveTimes(c: Cart, u: UserId, p: ProductId, n: nat): Cart
    decreases n
  {
    if n == 0 then c else RemoveTimes(RemoveItem(c, Some(u), p).state, u, p, n - 1)
  }

  /** Starting without a line, `n` adds leave a line of quantity exactly `n`. */
  lemma AddTimesEffect(c: Cart, u: UserId, catalog: set<ProductId>, p: ProductId, n: nat)
    requires Valid(c) && p in catalog && Key(u, p) !in View(c)
    ensures Valid(AddTimes(c, u, catalog, p, n))
    ensures View(AddTimes(c, u, catalog, p, n)) == if n == 0 then View(c) else View(c)[Key(u, p) := n]
  {
    AddMore(c, View(c), u, catalog, p, 0, n);
    assert 0 + n == n;
  }

  /** Once the line holds `m` units over a view `v` without the key (no line
      when `m == 0`), `n` more adds leave it at `m + n`. */
  lemma {:induction false} AddMore(d: Cart, v: map<Key, int>, u: UserId, catalog: set<ProductId>, p: ProductId,
                                   m: nat, n: nat)
    requires Valid(d) && p in catalog && Key(u, p) !in v
    requires View(d) == if m == 0 then v else v[Key(u, p) := m]
    ensures Valid(AddTimes(d, u, catalog, p, n))
    ensures View(AddTimes(d, u, catalog, p, n)) == if m + n == 0 then v else v[Key(u, p) := m + n]
    decreases n
  {
    if n == 0 {
      assert AddTimes(d, u, catalog, p, n) == d;
    } else {
      var next := AddItem(d, Some(u), catalog, p).state;
      AddStep(d, v, u, catalog, p, m);
      AddMore(next, v, u, catalog, p, m + 1, n - 1);
      assert AddTimes(d, u, catalog, p, n) == AddTimes(next, u, catalog, p, n - 1);
    }
  }

  /** One add on top of `m` units (no line when `m == 0`) leaves `m + 1`. */
  lemma AddStep(d: Cart, v: map<Key, int>, u: UserId, catalog: set<ProductId>, p: ProductId, m: nat)
    requires Valid(d) && p in catalog && Key(u, p) !in v
    requires View(d) == if m == 0 then v else v[Key(u, p) := m]
    ensures var next := AddItem(d, Some(u), catalog, p).state;
      Valid(next) && View(next) == v[Key(u, p) := m + 1]
  {
    AddItemEffect(d, u, catalog, p);
    if m > 0 {
      UpdateTwice(v, Key(u, p), m, m + 1);
    }
  }

  /** `n` removes take a line of quantity `m >= n` down to `m - n`, deleting it at `n == m`. */
  lemma RemoveTimesEffect(c: Cart, u: UserId, p: ProductId, n: nat)
    requires Valid(c) && Key(u, p) in View(c) && n <= View(c)[Key(u, p)]
    ensures Valid(RemoveTimes(c, u, p, n))
    ensures var m := View(c)[Key(u, p)];
      View(RemoveTimes(c, u, p, n))
        == if n == m then View(c) - {Key(u, p)} else View(c)[Key(u, p) := m - n]
  {
    var k := Key(u, p);
    UpdateSame(View(c), k);
    assert Find(c, k).Some?;
    RemoveMore(c, View(c), u, p, View(c)[k], n);
  }

  /** While the line holds `j >= n` units over the view `v`, `n` removes
      leave it at `j - n`, or delete it when `n == j`. */
  lemma {:induction false} RemoveMore(d: Cart, v: map<Key, int>, u: UserId, p: ProductId, j: int, n: nat)
    requires Valid(d) && 1 <= j && n <= j && View(d) == v[Key(u, p) := j]
    ensures Valid(RemoveTimes(d, u, p, n))
    ensures View(RemoveTimes(d, u, p, n)) == if n == j then v - {Key(u, p)} else v[Key(u, p) := j - n]
    decreases n
  {
    if n > 0 {
      var k := Key(u, p);
      RemoveItemEffect(d, u, p);
      if j == 1 {
        UpdateThenRemove(v, k, 1);
      } else {
        UpdateTwice(v, k, j, j - 1);
        RemoveMore(RemoveItem(d, Some(u), p).state, v, u, p, j - 1, n - 1);
      }
    }
  }

  /** Once no line exists for (caller, product), every further remove is
      answered `NotFound` and changes nothing. */
  lemma {:induction false} RemoveAbsent(c: Cart, u: UserId, p: ProductId, n: nat)
    requires Key(u, p) !in View(c)
    ensures RemoveItem(c, Some(u), p) == Handled(c, Err(NotFound))
    ensures RemoveTimes(c, u, p, n) == c
    decreases n
  {
    assert Find(c, Key(u, p)).None?;
    if n > 0 {
      RemoveAbsent(c, u, p, n - 1);
    }
  }

  /** `m + k` removes are `m` removes followed by `k` more. */
  lemma {:induction false} RemoveSplit(c: Cart, u: UserId, p: ProductId, m: nat, k: nat)
    ensures RemoveTimes(c, u, p, m + k) == RemoveTimes(RemoveTimes(c, u, p, m), u, p, k)
    decreases m
  {
    if m == 0 {
      assert RemoveTimes(c, u, p, m) == c;
    } else {
      var d := RemoveItem(c, Some(u), p).state;
      RemoveSplit(d, u, p, m - 1, k);
      assert RemoveTimes(c, u, p, m) == RemoveTimes(d, u, p, m - 1);
      assert RemoveTimes(c, u, p, m + k) == RemoveTimes(d, u, p, m - 1 + k);
    }
  }

  /** At least as many removes as the line holds leave no line for the
      product, and nothing else changes. */
  lemma RemovePast(c: Cart, u: UserId, p: ProductId, n: nat)
    requires Valid(c)
    requires Key(u, p) in View(c) ==> n >= View(c)[Key(u, p)]
    ensures Valid(RemoveTimes(c, u, p, n))
    ensures View(RemoveTimes(c, u, p, n)) == View(c) - {Key(u, p)}
  {
    var k := Key(u, p);
    if k in View(c) {
      var m := View(c)[k];
      assert Find(c, k).Some?;
      RemoveTimesEffect(c, u, p, m);
      RemoveSplit(c, u, p, m, n - m);
      RemoveAbsent(RemoveTimes(c, u, p, m), u, p, n - m);
    } else {
      RemoveAbsent(c, u, p, n);
      RemoveMissing(View(c), k);
    }
  }

  /** `n` adds of a product not yet in the cart followed by `n` removes leave
      no line for it and restore the cart's view exactly. */
  lemma AddRemoveRoundTrip(c: Cart, u: UserId, catalog: set<ProductId>, p: ProductId, n: nat)
    requires Valid(c) && p in catalog && Key(u, p) !in View(c)
    ensures var after := RemoveTimes(AddTimes(c, u, catalog, p, n), u, p, n);
      View(after) == View(c) && Find(after, Key(u, p)).None?
  {
    var k := Key(u, p);
    AddTimesEffect(c, u, catalog, p, n);
    if n > 0 {
      RemoveTimesEffect(AddTimes(c, u, catalog, p, n), u, p, n);
      assert View(c)[k := n] - {k} == View(c);
    }
  }

  /** `a` adds of a product not yet in the cart followed by `n >= a` removes
      (the extra ones answered `NotFound`) also restore the cart's view and
      leave no line for it. */
  lemma AddRemovePast(c: Cart, u: UserId, catalog: set<ProductId>, p: ProductId, a: nat, n: nat)
    requires Valid(c) && p in catalog && Key(u, p) !in View(c) && n >= a
    ensures var after := RemoveTimes(AddTimes(c, u, catalog, p, a), u, p, n);
      View(after) == View(c) && Find(after, Key(u, p)).None?
  {
    var k := Key(u, p);
    AddTimesEffect(c, u, catalog, p, a);
    RemovePast(AddTimes(c, u, catalog, p, a), u, p, n);
    RemoveMissing(View(c), k);
    if a > 0 {
      UpdateThenRemove(View(c), k, a);
    }
  }
}
