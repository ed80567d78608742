/** How the client's cart relates to the server's: after the load effect has
    rebuilt the client cart from the server's listing of the user's lines,
    the client's item count is the server's `total` count, its amount is the
    server's total whenever the storefront catalogue carries the server's
    prices, and the client refuses to place an order exactly when the
    server-side cart is empty. */
module Mirror {
  import opened Outcomes
  import opened CartLines
  import opened CartViews
  import opened ShopContext

  /** The `cart/` listing as the client reads it: for each of the user's
      lines, in order, the product's id and the quantity. */
  function Listing(lines: seq<CartLine>): (r: seq<ServerItem>)
    ensures |r| == |lines|
    ensures forall i :: 0 <= i < |lines| ==> r[i] == ServerItem(lines[i].product, lines[i].quantity)
  {
    if |lines| == 0 then []
    else Listing(lines[..|lines| - 1]) + [ServerItem(lines[|lines| - 1].product, lines[|lines| - 1].quantity)]
  }

  /** No product appears on two lines. */
  ghost predicate DistinctProducts(lines: seq<CartLine>) {
    forall i, j :: 0 <= i < j < |lines| ==> lines[i].product != lines[j].product
  }

  /** The storefront catalogue lists every product of these lines at the
      server's unit price. */
  ghost predicate PricesAgree(lines: seq<CartLine>, products: seq<ProductInfo>, price: ProductId -> nat) {
    forall i :: 0 <= i < |lines| ==>
      FindProduct(products, lines[i].product).Some?
      && FindProduct(products, lines[i].product).value.newPrice == price(lines[i].product)
  }

  /** The rebuilt cart is built line by line, and a product that no line
      names keeps its default entry, which counts for nothing. */
  lemma RebuildStep(size: nat, lines: seq<CartLine>)
    requires |lines| > 0
    requires forall i :: 0 <= i < |lines| - 1 ==> lines[i].product != lines[|lines| - 1].product
    ensures var n := |lines| - 1;
      var l, before := lines[n], Rebuild(size, Listing(lines[..n]));
      && Rebuild(size, Listing(lines)) == Put(before, l.product, Num(l.quantity))
      && (Get(before, l.product).None? || Get(before, l.product) == Some(Num(0)))
  {
    var n := |lines| - 1;
    var init, l := lines[..n], lines[n];
    assert Listing(lines)[..n] == Listing(init);
    assert LastQuantity(Listing(init), l.product).None? by {
      forall i | 0 <= i < n
        ensures Listing(init)[i].productId != l.product
      {
        assert init[i] == lines[i];
      }
    }
  }

  /** Rebuilding from the listing of lines with distinct products and
      positive quantities reproduces their quantity sum. */
  lemma {:induction false} RebuildCount(size: nat, lines: seq<CartLine>)
    requires DistinctProducts(lines)
    requires forall i :: 0 <= i < |lines| ==> lines[i].quantity >= 1
    ensures TotalItems(Rebuild(size, Listing(lines))) == SumOf(lines, Quantity)
  {
    if |lines| == 0 {
      DefaultCartEmpty(size, []);
    } else {
      var n := |lines| - 1;
      var init, l := lines[..n], lines[n];
      RebuildCount(size, init);
      RebuildStep(size, lines);
      TotalItemsPut(Rebuild(size, Listing(init)), l.product, Num(l.quantity));
    }
  }

  /** When the catalogue carries the server's prices, rebuilding from the
      same listing also reproduces the lines' priced sum. */
  lemma {:induction false} RebuildAmount(size: nat, lines: seq<CartLine>, products: seq<ProductInfo>,
                                         price: ProductId -> nat)
    requires DistinctProducts(lines)
    requires forall i :: 0 <= i < |lines| ==> lines[i].quantity >= 1
    requires PricesAgree(lines, products, price)
    ensures TotalAmount(Rebuild(size, Listing(lines)), products) == SumOf(lines, Subtotal(price))
  {
    if |lines| == 0 {
      DefaultCartEmpty(size, products);
    } else {
      var init := lines[..|lines| - 1];
      PrefixLines(lines, products, price);
      RebuildAmount(size, init, products, price);
      AmountStep(size, lines, products, price);
    }
  }

  /** The conditions on the lines hold of every prefix. */
  lemma PrefixLines(lines: seq<CartLine>, products: seq<ProductInfo>, price: ProductId -> nat)
    requires |lines| > 0 && DistinctProducts(lines)
    requires forall i :: 0 <= i < |lines| ==> lines[i].quantity >= 1
    requires PricesAgree(lines, products, price)
    ensures var init := lines[..|lines| - 1];
      && DistinctProducts(init)
      && (forall i :: 0 <= i < |init| ==> init[i].quantity >= 1)
      && PricesAgree(init, products, price)
  {
  }

  /** Listing one more line, whose product held nothing before, adds that
      line's subtotal, priced by a catalogue that agrees with the server. */
  lemma AmountStep(size: nat, lines: seq<CartLine>, products: seq<ProductInfo>, price: ProductId -> nat)
    requires |lines| > 0 && DistinctProducts(lines)
    requires forall i :: 0 <= i < |lines| ==> lines[i].quantity >= 1
    requires PricesAgree(lines, products, price)
    requires var init := lines[..|lines| - 1];
      TotalAmount(Rebuild(size, Listing(init)), products) == SumOf(init, Subtotal(price))
    ensures TotalAmount(Rebuild(size, Listing(lines)), products) == SumOf(lines, Subtotal(price))
  {
    var n := |lines| - 1;
    var before, l := Rebuild(size, Listing(lines[..n])), lines[n];
    RebuildStep(size, lines);
    TotalAmountPut(before, products, l.product, Num(l.quantity));
    assert lines[n] == l;
    LinePriced(products, l, price);
  }

  /** A listed line, priced by a catalogue that agrees with the server, is
      the server's subtotal; the zero it replaces is priced at nothing. */
  lemma LinePriced(products: seq<ProductInfo>, l: CartLine, price: ProductId -> nat)
    requires l.quantity >= 1
    requires FindProduct(products, l.product).Some?
    requires FindProduct(products, l.product).value.newPrice == price(l.product)
    ensures Priced(products, Entry(l.product, Num(l.quantity))) == Subtotal(price)(l)
    ensures Priced(products, Entry(l.product, Num(0))) == 0
  {
  }

  /** The user's lines of a valid cart have distinct products and positive quantities. */
  lemma OwnLines(c: Cart, u: UserId)
    requires Valid(c)
    ensures DistinctProducts(OwnedBy(c, u))
    ensures forall i :: 0 <= i < |OwnedBy(c, u)| ==> OwnedBy(c, u)[i].quantity >= 1
  {
    FilterValid(c, Mine(u));
    var mine := OwnedBy(c, u);
    forall i, j | 0 <= i < j < |mine|
      ensures mine[i].product != mine[j].product
    {
      assert mine[i] in mine && mine[j] in mine;
      assert mine[i].KeyOf() != mine[j].KeyOf();
    }
  }

  /** After loading the user's cart from a valid server cart, the client
      counts what the server's `total` endpoint counts, and charges what it
      charges when the catalogue carries the server's prices. */
  lemma LoadMatchesServerTotal(cart: ClientCart, size: nat, c: Cart, u: UserId,
                               products: seq<ProductInfo>, price: ProductId -> nat)
    requires Valid(c)
    ensures var loaded := Load(cart, true, size, Some(Listing(Queryset(c, Some(u)))));
      && TotalItems(loaded) == Total(c, Some(u), price).count
      && (PricesAgree(Queryset(c, Some(u)), products, price) ==>
            TotalAmount(loaded, products) == Total(c, Some(u), price).total)
  {
    OwnLines(c, u);
    RebuildCount(size, OwnedBy(c, u));
    if PricesAgree(OwnedBy(c, u), products, price) {
      RebuildAmount(size, OwnedBy(c, u), products, price);
    }
  }

  /** After such a load the client's empty-cart guard fires exactly when the
      server holds no line for the user. */
  lemma LoadedGuardMatchesServer(cart: ClientCart, size: nat, c: Cart, u: UserId, accepted: bool)
    requires Valid(c)
    ensures var loaded := Load(cart, true, size, Some(Listing(Queryset(c, Some(u)))));
      CreateOrder(loaded, true, size, accepted).outcome == EmptyCart <==> Queryset(c, Some(u)) == []
  {
    LoadMatchesServerTotal(cart, size, c, u, [], (p: ProductId) => 0);
    TotalCount(c, Some(u), (p: ProductId) => 0);
  }
}
