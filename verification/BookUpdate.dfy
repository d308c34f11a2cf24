/** Protocol-independent book updates, as the dispatcher receives them. */
module BookUpdates {
  import opened Base
  import opened BookSpec

  datatype UpdateType =
    | AddOrder
    | ModifyOrder
    | CancelOrder
    | DeleteOrder
    | ExecuteOrder
    | ExecuteOrderWithPrice
    | Trade
    | SystemEvent
    | ReplaceOrder

  datatype BookUpdate = BookUpdate(
    kind: UpdateType,
    side: Side,
    price: u32,
    qty: u32,
    timestampNs: u64,
    orderId: u64,
    matchId: u64)

  /** The orders an update refers to exist, with enough quantity. */
  ghost predicate Refers(b: Book, u: BookUpdate) {
    match u.kind
    case CancelOrder => u.orderId in b.orders && u.qty <= b.orders[u.orderId].qty
    case ExecuteOrder => u.orderId in b.orders && u.qty <= b.orders[u.orderId].qty
    case DeleteOrder => u.orderId in b.orders
    case ModifyOrder => u.orderId in b.orders
    case ReplaceOrder => u.orderId in b.orders
    case _ => true
  }

  /** What an update means for the book; kinds without a handler change nothing. */
  ghost function Apply(b: Book, u: BookUpdate): Book
    requires Core(b) && Refers(b, u)
  {
    match u.kind
    case AddOrder => Add(b, u.orderId, Resting(u.side, u.price, u.qty))
    case CancelOrder => Reduce(b, u.orderId, u.qty)
    case ExecuteOrder => Reduce(b, u.orderId, u.qty)
    case DeleteOrder => Drop(b, u.orderId)
    case ModifyOrder => Modify(b, u.orderId, u.qty)
    case ReplaceOrder => Replace(b, u.orderId, u.matchId, Resting(u.side, u.price, u.qty))
    case _ => b
  }
}
