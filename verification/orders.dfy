/** Orders and their lifecycle (`OrderViewSet.cancel`): an order belongs to one
    user, carries a status, a list of order lines and a total computed once
    when it is placed. */
module Orders {
  import opened Outcomes
  import opened CartLines

  datatype Status = Pending | Processing | Delivered | Cancelled

  /** One product and quantity within an order; no price is captured. */
  datatype OrderLine = OrderLine(product: ProductId, quantity: int)

  datatype Order = Order(user: UserId, status: Status, lines: seq<OrderLine>, total: int)

  /** All orders of all users; an order's primary key is its position. */
  type OrderTable = seq<Order>

  /** Sum of unit price times quantity over order lines, in cents. */
  function OrderTotal(lines: seq<OrderLine>, price: ProductId -> nat): int {
    if |lines| == 0 then 0
    else OrderTotal(lines[..|lines| - 1], price) + price(lines[|lines| - 1].product) * lines[|lines| - 1].quantity
  }

  /** Sum of quantities over order lines. */
  function ItemCount(lines: seq<OrderLine>): int {
    if |lines| == 0 then 0 else ItemCount(lines[..|lines| - 1]) + lines[|lines| - 1].quantity
  }

  /** Whether `owner` may see order `id` (`get_object` on the user's queryset). */
  predicate OwnsOrder(orders: OrderTable, owner: UserId, id: nat) {
    id < |orders| && orders[id].user == owner
  }

  /** `cancel`: a delivered order is refused, any other order of the caller
      becomes cancelled. */
  function Cancel(orders: OrderTable, owner: Option<UserId>, id: nat): (r: Handled<OrderTable, Order>)
    ensures |r.state| == |orders|
    ensures owner.None? ==> r == Handled(orders, Err(Unauthorized))
    ensures owner.Some? && !OwnsOrder(orders, owner.value, id) ==> r == Handled(orders, Err(NotFound))
    ensures (owner.Some? && OwnsOrder(orders, owner.value, id) && orders[id].status == Delivered)
      ==> r == Handled(orders, Err(BadRequest))
    ensures (owner.Some? && OwnsOrder(orders, owner.value, id) && orders[id].status != Delivered)
      ==> r.reply.Ok? && r.reply.value.status == Cancelled && r.state[id] == r.reply.value
  {
    if owner.None? then Handled(orders, Err(Unauthorized))
    else if !OwnsOrder(orders, owner.value, id) then Handled(orders, Err(NotFound))
    else if orders[id].status == Delivered then Handled(orders, Err(BadRequest))
    else
      var o := orders[id].(status := Cancelled);
      Handled(orders[id := o], Ok(o))
  }

  /** The status changes the lifecycle permits a cancellation to make:
      none, or a non-delivered order becoming cancelled. */
  ghost predicate CancelTransition(from: Status, to: Status) {
    from == to || (from != Delivered && to == Cancelled)
  }

  /** `cancel` only ever makes a permitted transition, touches at most the one
      addressed order, and never changes anything but its status. */
  lemma CancelGuarded(orders: OrderTable, owner: Option<UserId>, id: nat)
    ensures var r := Cancel(orders, owner, id);
      && |r.state| == |orders|
      && (forall i :: 0 <= i < |orders| && i != id ==> r.state[i] == orders[i])
      && (forall i :: 0 <= i < |orders| ==>
            && CancelTransition(orders[i].status, r.state[i].status)
            && r.state[i] == orders[i].(status := r.state[i].status))
      && (forall i :: 0 <= i < |orders| ==>
            (r.state[i].status == Delivered <==> orders[i].status == Delivered))
  {
  }

  /** Cancelling twice is cancelling once. */
  lemma CancelIdempotent(orders: OrderTable, owner: Option<UserId>, id: nat)
    ensures var once := Cancel(orders, owner, id);
      Cancel(once.state, owner, id).state == once.state
  {
  }
}
