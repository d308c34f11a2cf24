/** A resting order, as it sits in its pool slot; the fields no book operation maintains are omitted. */
module Orders {
  import opened Base
  import opened ObjectPools

  datatype Order = Order(
    orderId: u64,
    timestampNs: u64,
    price: u32,
    remainingQty: u32,
    nextInLevel: Index,
    side: Side)

  type OrderSlots = seq<Slot<Order>>
}
