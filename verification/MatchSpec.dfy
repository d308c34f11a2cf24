/** Price-time matching as a value: one fill at a time against the first order of the best opposite level. */
module MatchSpec {
  import opened Base
  import opened PricePriority
  import opened BookSpec

  datatype OrderType = Limit | Market | IOC | FOK

  datatype OrderAction = OrderAction(
    orderId: u64,
    clientId: u64,
    price: u32,
    qty: u32,
    side: Side,
    kind: OrderType)

  datatype ExecutionStatus = Accepted | RejectedRisk | RejectedInvalid | Filled | PartiallyFilled

  /** A trade without its timestamp. */
  datatype Fill = Fill(tradeId: u64, aggressor: u64, resting: u64, price: u32, qty: u32)

  datatype Swept = Swept(book: Book, fills: seq<Fill>, left: u32, nextId: u64)

  datatype Outcome = Outcome(book: Book, status: ExecutionStatus, fills: seq<Fill>, left: u32, nextId: u64)

  /** The action may trade at this opposite price. */
  predicate Admits(a: OrderAction, price: u32) {
    a.kind.Market? || !Better(a.side, price, a.price)
  }

  /** Nothing (more) can be filled: done, no liquidity, or the best opposite price does not cross. */
  ghost predicate Stuck(b: Book, a: OrderAction, left: u32) {
    var opp := b.On(a.side.Opposite());
    left == 0 || opp == map[] || !Admits(a, Best(a.side.Opposite(), opp.Keys))
  }

  /** The order that is served next on a side. */
  ghost function First(b: Book, side: Side): u64
    requires Lively(b) && b.On(side) != map[]
  {
    b.On(side)[Best(side, b.On(side).Keys)][0]
  }

  lemma FirstIsLive(b: Book, side: Side)
    requires WellFormed(b) && b.On(side) != map[]
    ensures var id, p := First(b, side), Best(side, b.On(side).Keys);
            && id in b.orders && b.orders[id].side == side && b.orders[id].price == p && b.orders[id].qty > 0
            && Queued(b, id)
  {
    var p := Best(side, b.On(side).Keys);
    assert QueueOk(b, side, p, b.On(side)[p]);
  }

  /** Sweeps the opposite side, best price first, first come first served. */
  ghost function Sweep(b: Book, a: OrderAction, left: u32, next: u64): (s: Swept)
    requires WellFormed(b)
    ensures WellFormed(s.book)
    decreases left
  {
    if Stuck(b, a, left) then Swept(b, [], left, next)
    else
      var opp := a.side.Opposite();
      var id := First(b, opp);
      FirstIsLive(b, opp);
      var qty := Min(left, b.orders[id].qty);
      ReduceWellFormed(b, id, qty);
      var rest := Sweep(Reduce(b, id, qty), a, left - qty, Succ64(next));
      rest.(fills := [Fill(next, a.orderId, id, b.orders[id].price, qty)] + rest.fills)
  }

  /** Quantity the liquidity scan can see: level totals are 32-bit sums. */
  ghost function Depth(b: Book, side: Side, prices: seq<u32>): nat {
    if prices == [] then 0
    else (if prices[0] in b.On(side) then Wrap32(SumQty(b.orders, b.On(side)[prices[0]])) else 0)
         + Depth(b, side, prices[1..])
  }

  /** The pre-scan of a fill-or-kill order. It looks at quantity only, not at prices. */
  ghost predicate ScanFinds(b: Book, a: OrderAction) {
    var opp := a.side.Opposite();
    b.On(opp) != map[] && Depth(b, opp, Ranked(opp, b.On(opp).Keys)) >= a.qty
  }

  /** Only the unfilled rest of a limit order goes into the book. */
  predicate Rests(a: OrderAction, left: u32) {
    left > 0 && a.kind.Limit?
  }

  function Status(a: OrderAction, fills: seq<Fill>, left: u32): ExecutionStatus {
    if fills == [] then
      if a.kind.IOC? || a.kind.FOK? then RejectedInvalid else Accepted
    else if left == 0 then Filled
    else PartiallyFilled
  }

  /** The action passes the risk gate and, if fill-or-kill, the pre-scan. */
  ghost predicate Proceeds(b: Book, a: OrderAction, riskOk: bool) {
    riskOk && (a.kind.FOK? ==> ScanFinds(b, a))
  }

  ghost function Match(b: Book, a: OrderAction, riskOk: bool, next: u64): Outcome
    requires WellFormed(b)
  {
    if !riskOk then Outcome(b, RejectedRisk, [], a.qty, next)
    else if !Proceeds(b, a, riskOk) then Outcome(b, RejectedInvalid, [], a.qty, next)
    else
      var s := Sweep(b, a, a.qty, next);
      Outcome(
        if Rests(a, s.left) then Add(s.book, a.orderId, Resting(a.side, a.price, s.left)) else s.book,
        Status(a, s.fills, s.left), s.fills, s.left, s.nextId)
  }

  /** An action whose rest goes into the book needs a fresh, nonzero id and a price. */
  ghost predicate Enterable(b: Book, a: OrderAction, riskOk: bool, next: u64)
    requires WellFormed(b)
  {
    var s := Sweep(b, a, a.qty, next);
    Proceeds(b, a, riskOk) && Rests(a, s.left) ==> a.orderId != 0 && a.orderId !in s.book.orders && a.price > 0
  }

  lemma SweepStuck(b: Book, a: OrderAction, left: u32, next: u64)
    requires WellFormed(b) && Stuck(b, a, left)
    ensures Sweep(b, a, left, next) == Swept(b, [], left, next)
  {
  }

  /** One step of a sweep. */
  lemma SweepStep(b: Book, a: OrderAction, left: u32, next: u64)
    requires WellFormed(b) && !Stuck(b, a, left)
    ensures var opp := a.side.Opposite();
            var id := First(b, opp);
            && id in b.orders && Queued(b, id) && Admits(a, b.orders[id].price) && 0 < b.orders[id].qty
            && b.orders[id].side == opp && b.orders[id].price == Best(opp, b.On(opp).Keys)
            && var qty := Min(left, b.orders[id].qty);
            && WellFormed(Reduce(b, id, qty))
            && var rest := Sweep(Reduce(b, id, qty), a, left - qty, Succ64(next));
            Sweep(b, a, left, next) ==
              rest.(fills := [Fill(next, a.orderId, id, b.orders[id].price, qty)] + rest.fills)
  {
    var id := First(b, a.side.Opposite());
    FirstIsLive(b, a.side.Opposite());
    ReduceWellFormed(b, id, Min(left, b.orders[id].qty));
  }
}
