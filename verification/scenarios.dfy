/** Worked examples of the cart and checkout on concrete data: two products
    at 50.00 and 30.00, held as cents. */
module Scenarios {
  import opened Outcomes
  import opened CartLines
  import opened CartViews
  import opened Orders
  import opened Serializers

  function Prices(p: ProductId): nat {
    if p == 1 then 5000 else if p == 2 then 3000 else 0
  }

  /** User 7 holds two of product 1 and one of product 2; user 8 holds one of product 1. */
  function SampleCart(): Cart {
    [CartLine(7, 1, 2), CartLine(8, 1, 1), CartLine(7, 2, 1)]
  }

  /** User 7's lines and what remains without them. */
  lemma SampleSplit()
    ensures OwnedBy(SampleCart(), 7) == [CartLine(7, 1, 2), CartLine(7, 2, 1)]
    ensures Without(SampleCart(), 7) == [CartLine(8, 1, 1)]
    ensures OwnedBy([CartLine(8, 1, 1)], 7) == []
  {
    var c := SampleCart();
    var a, other := CartLine(7, 1, 2), CartLine(8, 1, 1);
    assert c[..2] == [a, other] && c[..2][..1] == [a] && [a][..0] == [] && [other][..0] == [];
    assert Filter([a], Mine(7)) == [a];
    assert Filter([a, other], Mine(7)) == [a];
    assert Filter([a], NotMine(7)) == [];
    assert Filter([a, other], NotMine(7)) == [other];
  }

  /** The totals of user 7 are 130.00 over 3 items. */
  lemma SampleTotals()
    ensures Total(SampleCart(), Some(7), Prices) == CartTotals(13000, 3)
  {
    SampleSplit();
    var a, b := CartLine(7, 1, 2), CartLine(7, 2, 1);
    assert [a, b][..1] == [a] && [a][..0] == [];
    assert Prices(1) == 5000 && Prices(2) == 3000;
    assert Subtotal(Prices)(a) == 10000 && Subtotal(Prices)(b) == 3000;
    assert SumOf([a], Subtotal(Prices)) == 10000;
    assert SumOf([a, b], Subtotal(Prices)) == 13000;
    assert SumOf([a], Quantity) == 2;
    assert SumOf([a, b], Quantity) == 3;
    assert Queryset(SampleCart(), Some(7)) == [a, b];
  }

  /** The order user 7's checkout places. */
  function SampleOrder(): Order {
    Order(7, Processing, [OrderLine(1, 2), OrderLine(2, 1)], 13000)
  }

  /** Both lines priced: 2 x 50.00 + 1 x 30.00. */
  lemma SampleOrderTotal()
    ensures OrderTotal(SampleOrder().lines, Prices) == 13000
  {
    var lines := SampleOrder().lines;
    assert lines[..1] == [OrderLine(1, 2)] && lines[..1][..0] == [];
    assert Prices(1) == 5000 && Prices(2) == 3000;
    assert OrderTotal(lines[..1], Prices) == 10000;
  }

  /** Checkout copies both lines into an order of the same total and leaves
      user 7 with nothing while user 8 keeps their line. */
  lemma SampleCheckout()
    ensures Checkout(Shop(SampleCart(), []), Some(7), Processing, Prices)
      == Handled(Shop([CartLine(8, 1, 1)], [SampleOrder()]), Ok(SampleOrder()))
  {
    SampleSplit();
    SampleOrderTotal();
    assert CopyLines([CartLine(7, 1, 2), CartLine(7, 2, 1)]) == SampleOrder().lines;
    var none: seq<Order> := [];
    assert none + [SampleOrder()] == [SampleOrder()];
  }

  /** After checkout user 7's totals are zero. */
  lemma SampleCheckoutEmpties()
    ensures Total(Checkout(Shop(SampleCart(), []), Some(7), Processing, Prices).state.cart, Some(7), Prices)
      == CartTotals(0, 0)
  {
    SampleCheckout();
    assert Queryset([CartLine(8, 1, 1)], Some(7)) == [];
  }

  /** Removing the last unit deletes the line, so a second removal is refused. */
  lemma RemoveLastUnit()
    ensures var once := RemoveItem([CartLine(7, 1, 1)], Some(7), 1);
      && once == Handled([], Ok(Removed))
      && RemoveItem(once.state, Some(7), 1) == Handled([], Err(NotFound))
  {
    assert Find([CartLine(7, 1, 1)], Key(7, 1)) == Some(0);
    assert Delete([CartLine(7, 1, 1)], 0) == [];
  }

  /** Two rows for (user 7, product 1): adding, removing and the create all
      fail with an uncaught error and leave the table as it was. */
  lemma DuplicateRowsFail()
    ensures var c := [CartLine(7, 1, 2), CartLine(7, 1, 3)];
      && AddItem(c, Some(7), {1}, 1) == Handled(c, Err(ServerError))
      && RemoveItem(c, Some(7), 1) == Handled(c, Err(ServerError))
      && CreateLine(c, Some(7), {1}, 1, Some(2)) == Handled(c, Err(ServerError))
  {
  }
}
