/** Two limit orders against a new engine, from end to end: one rests, the other meets it. */
module Crossing {
  import opened Base
  import opened FlatHashMaps
  import opened BookSides
  import opened PricePriority
  import opened BookSpec
  import opened MatchSpec
  import opened OrderBooks
  import opened MatchingEngines
  import BookLaws
  import Runs

  function LimitOrder(id: u64, side: Side, price: u32, qty: u32): OrderAction {
    OrderAction(id, 0, price, qty, side, Limit)
  }

  /** The book with a single resting order. */
  function OneOrder(id: u64, o: Resting): Book {
    Add(EMPTY_BOOK, id, o)
  }

  lemma OneOrderFacts(id: u64, o: Resting)
    requires id != 0 && o.price > 0 && o.qty > 0
    ensures var b := OneOrder(id, o);
            && WellFormed(b) && id in b.orders && b.orders == map[id := o]
            && b.On(o.side) == map[o.price := [id]] && b.On(o.side.Opposite()) == map[]
            && Best(o.side, b.On(o.side).Keys) == o.price && First(b, o.side) == id
            && Queued(b, id) && Drop(b, id) == EMPTY_BOOK
  {
    Runs.EmptyWellFormed();
    AddWellFormed(EMPTY_BOOK, id, o);
    BookLaws.AddThenDrop(EMPTY_BOOK, id, o);
    assert OneOrder(id, o).On(o.side).Keys == {o.price};
  }

  /** The engine has room for an order more than it holds. */
  ghost predicate Roomy(e: MatchingEngine) {
    && e.book.orderPool.slots.Length >= 1 && e.book.levelPool.slots.Length >= 1 && e.book.orderMap.capacity >= 2
    && forall a :: e.risk(a)
  }

  /** In an empty book a limit order finds nothing to trade with, and rests. */
  lemma Rests(e: MatchingEngine, a: OrderAction, next: u64)
    requires Roomy(e) && a.kind.Limit? && a.orderId != 0 && a.qty > 0 && 0 < a.price < WINDOW
    ensures WellFormed(EMPTY_BOOK) && e.Takes(EMPTY_BOOK, next, a)
    ensures MatchSpec.Match(EMPTY_BOOK, a, true, next) ==
            Outcome(OneOrder(a.orderId, Resting(a.side, a.price, a.qty)), Accepted, [], a.qty, next)
  {
    hide Core, Lively, Add;
    Runs.EmptyWellFormed();
    SweepStuck(EMPTY_BOOK, a, a.qty, next);
  }

  /** A crossing order meets the resting one in a single fill. */
  lemma MeetsOne(id: u64, o: Resting, a: OrderAction, next: u64)
    requires id != 0 && o.price > 0 && o.qty > 0 && a.qty > 0
    requires o.side == a.side.Opposite() && Admits(a, o.price)
    ensures WellFormed(OneOrder(id, o))
    ensures Sweep(OneOrder(id, o), a, a.qty, next) ==
            Swept(if a.qty < o.qty then SetQty(OneOrder(id, o), id, o.qty - a.qty) else EMPTY_BOOK,
                  [Fill(next, a.orderId, id, o.price, Min(a.qty, o.qty))],
                  if a.qty < o.qty then 0 else a.qty - o.qty, Succ64(next))
  {
    hide Core, Lively, Add, Drop, Sweep, Queued;
    var b := OneOrder(id, o);
    OneOrderFacts(id, o);
    assert !Stuck(b, a, a.qty);
    SweepStep(b, a, a.qty, next);
    var b' := Reduce(b, id, Min(a.qty, o.qty));
    Runs.EmptyWellFormed();
    assert Stuck(b', a, a.qty - Min(a.qty, o.qty));
    SweepStuck(b', a, a.qty - Min(a.qty, o.qty), Succ64(next));
  }

  /** What is left of the larger order after a crossing limit order met a single one. */
  function Survivor(id: u64, o: Resting, a: OrderAction): Book {
    if a.qty == o.qty then EMPTY_BOOK
    else if a.qty < o.qty then OneOrder(id, o.(qty := o.qty - a.qty))
    else OneOrder(a.orderId, Resting(a.side, a.price, a.qty - o.qty))
  }

  lemma Crosses(e: MatchingEngine, id: u64, o: Resting, a: OrderAction, next: u64)
    requires Roomy(e) && id != 0 && o.price > 0 && o.qty > 0
    requires a.kind.Limit? && a.orderId != 0 && a.qty > 0 && 0 < a.price < WINDOW
    requires o.side == a.side.Opposite() && Admits(a, o.price)
    ensures WellFormed(OneOrder(id, o)) && e.Takes(OneOrder(id, o), next, a)
    ensures MatchSpec.Match(OneOrder(id, o), a, true, next) ==
            Outcome(Survivor(id, o, a), if a.qty <= o.qty then Filled else PartiallyFilled,
                    [Fill(next, a.orderId, id, o.price, Min(a.qty, o.qty))],
                    if a.qty < o.qty then 0 else a.qty - o.qty, Succ64(next))
  {
    hide Core, Lively, Sweep, Queued, ScanFinds;
    MeetsOne(id, o, a, next);
  }

  /**
    A sell of x at p rests; a buy of y at q >= p then trades the smaller quantity at p, and the rest of the larger order
    stays in the book, a residual buy at its own limit.
   */
  method SellThenBuy(hash: Hash, x: u32, p: u32, y: u32, q: u32)
    returns (sold: ExecutionResult, bought: ExecutionResult, e: MatchingEngine)
    requires 0 < x && 0 < y && 0 < p <= q < WINDOW
    ensures fresh(e) && e.Valid()
    ensures sold == ExecutionResult(Accepted, [])
    ensures bought.status == if y <= x then Filled else PartiallyFilled
    ensures Fills(bought.trades) == [Fill(1, 2, 1, p, Min(x, y))]
    ensures e.book.book == Survivor(1, Resting(Sell, p, x), LimitOrder(2, Buy, q, y))
  {
    hide OrderBook.Shows, WellFormed, OneOrder, MatchSpec.Match, MatchingEngine.Takes, Fills, NextPowerOfTwo, Lively,
         Survivor;
    e := new MatchingEngine(2, 2, hash, _ => true);
    var sell, buy := LimitOrder(1, Sell, p, x), LimitOrder(2, Buy, q, y);
    Rests(e, sell, 1);
    sold := e.Match(sell);
    Crosses(e, 1, Resting(Sell, p, x), buy, 1);
    assert e.Valid();
    bought := e.Match(buy);
  }
}
