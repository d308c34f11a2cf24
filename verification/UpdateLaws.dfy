/** What each kind of update does to the orders and to the queues, read off the book before and after. */
module UpdateLaws {
  import opened Base
  import opened BookSpec
  import opened BookUpdates
  import opened BookLaws

  /** A reduction leaves the order in its place, unless nothing is left of it. */
  lemma ReducePlacement(b: Book, id: u64, qty: u32)
    requires WellFormed(b) && id in b.orders && Queued(b, id) && qty <= b.orders[id].qty
    ensures var o, c := b.orders[id], Reduce(b, id, qty);
            && c.orders == (if qty == o.qty then b.orders - {id} else b.orders[id := o.(qty := o.qty - qty)])
            && forall side: Side, p ::
                 Queue(c, side, p) == if qty == o.qty then Removed(Queue(b, side, p), id) else Queue(b, side, p)
  {
    hide Core, Queued, Drop, Removed;
    if qty == b.orders[id].qty {
      DropPlacement(b, id);
    }
  }

  /**
    The live orders after an update: an addition or replacement brings in the side, price and quantity of the update
    under the new id, a cancellation or execution takes its quantity off, a modification sets it; side and price of an
    order never change under its id.
   */
  lemma OrdersAfter(b: Book, u: BookUpdate)
    requires WellFormed(b) && Refers(b, u)
    ensures var m, c, id := b.orders, Apply(b, u).orders, u.orderId;
            && (u.kind == AddOrder ==> c == m[id := Resting(u.side, u.price, u.qty)])
            && (u.kind == CancelOrder || u.kind == ExecuteOrder ==>
                  c == if u.qty == m[id].qty then m - {id}
                       else m[id := Resting(m[id].side, m[id].price, m[id].qty - u.qty)])
            && (u.kind == DeleteOrder ==> c == m - {id})
            && (u.kind == ModifyOrder ==>
                  c == if u.qty == 0 then m - {id} else m[id := Resting(m[id].side, m[id].price, u.qty)])
            && (u.kind == ReplaceOrder ==> c == (m - {id})[u.matchId := Resting(u.side, u.price, u.qty)])
            && (u.kind == ExecuteOrderWithPrice || u.kind == UpdateType.Trade || u.kind == SystemEvent ==> c == m)
  {
    hide Core, Lively, Queued, Add, Drop, Reduce, Modify, Replace;
    if u.orderId in b.orders {
      HeldIsQueued(b, u.orderId);
    }
    match u.kind {
      case AddOrder => AddPlacement(b, u.orderId, Resting(u.side, u.price, u.qty));
      case CancelOrder => ReducePlacement(b, u.orderId, u.qty);
      case ExecuteOrder => ReducePlacement(b, u.orderId, u.qty);
      case DeleteOrder => DropPlacement(b, u.orderId);
      case ModifyOrder => ModifyPlacement(b, u.orderId, u.qty);
      case ReplaceOrder => ReplacePlacement(b, u.orderId, u.matchId, Resting(u.side, u.price, u.qty));
      case _ =>
    }
  }

  /**
    Who waits where after an update: newcomers go behind everyone at their price, a growing order behind everyone at its
    own, an order that is gone leaves its queue, and nobody else moves.
   */
  lemma QueuesAfter(b: Book, u: BookUpdate, side: Side, price: u32)
    requires WellFormed(b) && Refers(b, u)
    ensures var q, r, id := Queue(b, side, price), Queue(Apply(b, u), side, price), u.orderId;
            && (u.kind == AddOrder ==> r == q + if side == u.side && price == u.price then [id] else [])
            && (u.kind == CancelOrder || u.kind == ExecuteOrder ==>
                  r == if u.qty == b.orders[id].qty then Removed(q, id) else q)
            && (u.kind == DeleteOrder ==> r == Removed(q, id))
            && (u.kind == ModifyOrder ==>
                  r == if u.qty == 0 then Removed(q, id)
                       else if u.qty <= b.orders[id].qty then q
                       else if side == b.orders[id].side && price == b.orders[id].price then Removed(q, id) + [id]
                       else q)
            && (u.kind == ReplaceOrder ==>
                  r == Removed(q, id) + if side == u.side && price == u.price then [u.matchId] else [])
            && (u.kind == ExecuteOrderWithPrice || u.kind == UpdateType.Trade || u.kind == SystemEvent ==> r == q)
  {
    hide Core, Lively, Queued, Add, Drop, Reduce, Modify, Replace, Queue, Removed;
    if u.orderId in b.orders {
      HeldIsQueued(b, u.orderId);
    }
    match u.kind {
      case AddOrder => AddPlacement(b, u.orderId, Resting(u.side, u.price, u.qty));
      case CancelOrder => ReducePlacement(b, u.orderId, u.qty);
      case ExecuteOrder => ReducePlacement(b, u.orderId, u.qty);
      case DeleteOrder => DropPlacement(b, u.orderId);
      case ModifyOrder => ModifyPlacement(b, u.orderId, u.qty);
      case ReplaceOrder => ReplacePlacement(b, u.orderId, u.matchId, Resting(u.side, u.price, u.qty));
      case _ =>
    }
  }
}
