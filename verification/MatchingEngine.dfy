/** The matching engine: risk gate, fill-or-kill pre-scan, price-time sweep, residual handling. */
module MatchingEngines {
  import opened Base
  import opened FlatHashMaps
  import opened PricePriority
  import opened BookSpec
  import opened BookRep
  import opened BookUpdates
  import opened OrderBooks
  import opened MatchSpec
  import PriceTime
  import LiquidityAnalyzers

  /** Capacity of the trade vector of one match. */
  const MAX_TRADES: nat := 1000

  datatype Trade = Trade(
    tradeId: u64,
    aggressorOrderId: u64,
    restingOrderId: u64,
    price: u32,
    quantity: u32,
    timestampNs: u64)

  datatype ExecutionResult = ExecutionResult(status: ExecutionStatus, trades: seq<Trade>)

  function AsFill(t: Trade): Fill {
    Fill(t.tradeId, t.aggressorOrderId, t.restingOrderId, t.price, t.quantity)
  }

  /** The trades without their timestamps. */
  function Fills(trades: seq<Trade>): (fs: seq<Fill>)
    ensures |fs| == |trades|
  {
    if trades == [] then [] else Fills(trades[..|trades| - 1]) + [AsFill(trades[|trades| - 1])]
  }

  lemma {:induction false} FillsFields(trades: seq<Trade>)
    ensures forall i :: 0 <= i < |trades| ==> SameTerms(trades[i], Fills(trades)[i])
  {
    if trades != [] {
      FillsFields(trades[..|trades| - 1]);
    }
  }

  /** The trade says what the fill says, field by field. */
  predicate SameTerms(t: Trade, f: Fill) {
    && t.tradeId == f.tradeId && t.aggressorOrderId == f.aggressor && t.restingOrderId == f.resting
    && t.price == f.price && t.quantity == f.qty
  }

  /** A sweep already under way: what is filled so far, followed by the rest, is the whole sweep. */
  ghost predicate Resumes(whole: Swept, trades: seq<Trade>, rest: Swept) {
    whole == rest.(fills := Fills(trades) + rest.fills)
  }

  /** One more trade on record moves the sweep one step on. */
  lemma ResumeStep(whole: Swept, trades: seq<Trade>, t: Trade, b: Book, a: OrderAction, left: u32, next: u64)
    requires WellFormed(b) && !Stuck(b, a, left)
    requires Resumes(whole, trades, Sweep(b, a, left, next))
    requires var id := First(b, a.side.Opposite());
             && id in b.orders && Queued(b, id)
             && var qty := Min(left, b.orders[id].qty);
             AsFill(t) == Fill(next, a.orderId, id, b.orders[id].price, qty)
    ensures var id := First(b, a.side.Opposite());
            var qty := Min(left, b.orders[id].qty);
            && WellFormed(Reduce(b, id, qty))
            && Resumes(whole, trades + [t], Sweep(Reduce(b, id, qty), a, left - qty, Succ64(next)))
            && |trades| < |whole.fills|
  {
    hide Sweep, Core, Lively, Queued, Reduce;
    SweepStep(b, a, left, next);
    var id := First(b, a.side.Opposite());
    var qty := Min(left, b.orders[id].qty);
    var rest := Sweep(Reduce(b, id, qty), a, left - qty, Succ64(next));
    assert (trades + [t])[..|trades|] == trades;
    assert Fills(trades) + ([AsFill(t)] + rest.fills) == Fills(trades) + [AsFill(t)] + rest.fills;
  }

  lemma ResumeStart(whole: Swept)
    ensures Resumes(whole, [], whole)
  {
    assert Fills([]) + whole.fills == whole.fills;
  }

  /** Nothing is left to sweep once the book is stuck. */
  lemma ResumeEnd(whole: Swept, trades: seq<Trade>, b: Book, a: OrderAction, left: u32, next: u64)
    requires WellFormed(b) && Stuck(b, a, left) && Resumes(whole, trades, Sweep(b, a, left, next))
    ensures whole == Swept(b, Fills(trades), left, next)
  {
    hide Core, Lively;
    SweepStuck(b, a, left, next);
    assert Fills(trades) + [] == Fills(trades);
  }

  class MatchingEngine {
    const book: OrderBook
    const risk: OrderAction -> bool
    var nextTradeId: u64

    ghost function Repr(): set<object> {
      {this} + book.Repr()
    }

    ghost predicate Valid()
      reads Repr()
    {
      this !in book.Repr() && book.Valid()
    }

    constructor (maxOrders: nat, maxLevels: nat, hash: Hash, risk: OrderAction -> bool)
      requires 1 <= maxOrders <= INVALID && 1 <= maxLevels <= INVALID
      ensures Valid() && fresh(Repr()) && book.book == EMPTY_BOOK && nextTradeId == 1 && this.risk == risk
      ensures book.orderPool.slots.Length == maxOrders && book.levelPool.slots.Length == maxLevels
      ensures book.orderMap.capacity == NextPowerOfTwo(maxOrders)
    {
      hide OrderBook.Shows, Lively;
      book := new OrderBook(maxOrders, maxLevels, hash);
      this.risk := risk;
      nextTradeId := 1;
    }

    /** The steady clock: any reading. */
    method GetTimestamp() returns (t: u64) {
      t := *;
    }

    /** The level under attack is still the best one and curr is its first order, or the level is gone. */
    ghost predicate Attacks(b: Book, m: IdMap, opp: Side, p: u32, curr: Index) {
      if p in b.On(opp) then
        && Best(opp, b.On(opp).Keys) == p && b.On(opp)[p] != []
        && b.On(opp)[p][0] in m && curr == m[b.On(opp)[p][0]] < INVALID
      else curr == INVALID
    }

    /** Order id is the first at price p. */
    ghost predicate Serving(b: Book, opp: Side, p: u32, id: u64) {
      && p in b.On(opp) && b.On(opp)[p] != [] && id == b.On(opp)[p][0]
      && id in b.orders && Queued(b, id)
    }

    /** Order id was filled for as much as it had or as was left, and the trade says so. */
    ghost predicate FillMade(b: Book, b': Book, id: u64, a: OrderAction, left: u32, left': u32, next: u64, t: Trade) {
      && id in b.orders && Queued(b, id)
      && var qty := Min(left, b.orders[id].qty);
         && b' == Reduce(b, id, qty) && left' == left - qty
         && AsFill(t) == Fill(next, a.orderId, id, b.orders[id].price, qty)
    }

    /** Fills against order id in slot curr, the first of the best opposite level. */
    method FillFirst(a: OrderAction, left: u32, curr: Index, ghost p: u32, ghost id: u64, ghost b: Book)
      returns (t: Trade, left': u32, curr': Index)
      requires Valid() && book.book == b && left > 0 && curr != INVALID
      requires Attacks(b, book.orderMap.contents, a.side.Opposite(), p, curr)
      requires Serving(b, a.side.Opposite(), p, id)
      modifies this`nextTradeId, book.Repr()
      ensures Valid()
      ensures FillMade(b, book.book, id, a, left, left', old(nextTradeId), t)
      ensures nextTradeId == Succ64(old(nextTradeId))
      ensures left' > 0 ==> Attacks(book.book, book.orderMap.contents, a.side.Opposite(), p, curr')
    {
      hide OrderBook.Shows, Core, Lively, Queued, SlotAt, Drop, Best;
      ghost var opp, m := a.side.Opposite(), book.orderMap.contents;
      book.ShownCore();
      book.HeadFacts(opp, p);
      var resting := book.orderPool.slots[curr].obj;
      var fillQty := Min(left, resting.remainingQty);
      var now := GetTimestamp();
      t := Trade.Trade(nextTradeId, a.orderId, resting.orderId, resting.price, fillQty, now);
      nextTradeId := Succ64(nextTradeId);
      assert book.Valid();
      left' := left - fillQty;
      var exec := BookUpdate(UpdateType.ExecuteOrder, Buy, t.price, fillQty, 0, resting.orderId, t.tradeId);
      curr' := resting.nextInLevel;
      NextAttack(b, m, opp, p, curr');
      book.ExecuteOrder(exec);
    }

    /** When the first order is gone, the second one is first, or the level is. */
    lemma NextAttack(b: Book, m: IdMap, opp: Side, p: u32, next: Index)
      requires WellFormed(b) && p in b.On(opp) && Best(opp, b.On(opp).Keys) == p
      requires var q := b.On(opp)[p];
               && q != [] && q[0] in m && next == SlotAt(m, q, 1)
               && (|q| > 1 ==> q[1] in m && m[q[1]] < INVALID && q[1] != q[0])
      ensures var id := b.On(opp)[p][0];
              id in b.orders && Queued(b, id) && Attacks(Drop(b, id), m - {id}, opp, p, next)
    {
      FirstIsLive(b, opp);
      PriceTime.DropFirst(b, opp);
      var id := b.On(opp)[p][0];
      var b' := Drop(b, id);
      if |b.On(opp)[p]| > 1 {
        assert b'.On(opp).Keys == b.On(opp).Keys;
      }
    }

    /** Sweeps the opposite side level by level; the limit is checked once per level. */
    method MatchCore(a: OrderAction) returns (left: u32, trades: seq<Trade>)
      requires Valid() && |Sweep(book.book, a, a.qty, nextTradeId).fills| <= MAX_TRADES
      modifies this`nextTradeId, book.Repr()
      ensures WellFormed(old(book.book))
      ensures var s := Sweep(old(book.book), a, a.qty, old(nextTradeId));
              Valid() && book.book == s.book && Fills(trades) == s.fills && left == s.left && nextTradeId == s.nextId
    {
      hide OrderBook.Shows, Core, Lively, Sweep, Resumes;
      book.ShownCore();
      ghost var whole := Sweep(book.book, a, a.qty, nextTradeId);
      var opp := a.side.Opposite();
      left, trades := a.qty, [];
      ResumeStart(whole);
      while left > 0 && book.SideOf(opp).bboIdx != INVALID
        invariant Valid() && WellFormed(book.book) && |whole.fills| <= MAX_TRADES
        invariant Resumes(whole, trades, Sweep(book.book, a, left, nextTradeId))
        decreases left
      {
        book.BestFacts(opp);
        book.HeadFacts(opp, Best(opp, book.book.On(opp).Keys));
        var best := book.levelPool.slots[book.SideOf(opp).bboIdx].obj;
        if !a.kind.Market? {
          if a.side.Buy? {
            if best.price > a.price {
              break;
            }
          } else {
            if best.price < a.price {
              break;
            }
          }
        }
        left, trades := SweepLevel(a, left, trades, best.headOrder, best.price, whole);
      }
      book.BestFacts(opp);
      ResumeEnd(whole, trades, book.book, a, left, nextTradeId);
    }

    /** Fills along the FIFO list of the best level until the list or the incoming quantity ends. */
    method SweepLevel(a: OrderAction, left0: u32, trades0: seq<Trade>, head: Index, ghost p: u32, ghost whole: Swept)
      returns (left: u32, trades: seq<Trade>)
      requires Valid() && WellFormed(book.book) && left0 > 0 && |whole.fills| <= MAX_TRADES
      requires Attacks(book.book, book.orderMap.contents, a.side.Opposite(), p, head)
      requires p in book.book.On(a.side.Opposite())
      requires Admits(a, p)
      requires Resumes(whole, trades0, Sweep(book.book, a, left0, nextTradeId))
      modifies this`nextTradeId, book.Repr()
      ensures Valid() && WellFormed(book.book) && left < left0
      ensures Resumes(whole, trades, Sweep(book.book, a, left, nextTradeId))
    {
      hide OrderBook.Shows, Core, Lively, Queued, Sweep, Resumes, Reduce;
      left, trades := left0, trades0;
      var curr := head;
      while curr != INVALID && left > 0
        invariant Valid() && WellFormed(book.book) && left <= left0
        invariant left > 0 ==> Attacks(book.book, book.orderMap.contents, a.side.Opposite(), p, curr)
        invariant left == left0 ==> curr == head
        invariant Resumes(whole, trades, Sweep(book.book, a, left, nextTradeId))
        decreases left
      {
        ghost var b, opp, n := book.book, a.side.Opposite(), nextTradeId;
        ghost var id := First(b, opp);
        FirstIsLive(b, opp);
        ghost var l := left;
        var t;
        t, left, curr := FillFirst(a, left, curr, p, id, b);
        ResumeStep(whole, trades, t, b, a, l, n);
        assert |trades| < MAX_TRADES;
        trades := trades + [t];
      }
    }

    /** If the rest of the action will enter the book, the book takes it; and the trades fit their vector. */
    ghost predicate Takes(b: Book, next: u64, a: OrderAction)
      requires WellFormed(b)
    {
      Proceeds(b, a, risk(a)) ==>
        var s := Sweep(b, a, a.qty, next);
        && |s.fills| <= MAX_TRADES
        && (Rests(a, s.left) ==> book.CanAdd(s.book, a.orderId, Resting(a.side, a.price, s.left)))
    }

    /** One action, from risk gate to status: computes exactly the abstract outcome, whatever the clock says. */
    method Match(a: OrderAction) returns (result: ExecutionResult)
      requires Valid() && WellFormed(book.book) && Takes(book.book, nextTradeId, a)
      modifies this`nextTradeId, book.Repr()
      ensures Valid()
      ensures var o := MatchSpec.Match(old(book.book), a, risk(a), old(nextTradeId));
              && book.book == o.book && nextTradeId == o.nextId
              && result.status == o.status && Fills(result.trades) == o.fills
              && |result.trades| == |o.fills|
              && forall i :: 0 <= i < |o.fills| ==> SameTerms(result.trades[i], o.fills[i])
    {
      hide OrderBook.Shows, Core, Lively, Sweep, OrderBook.CanAdd, ScanFinds;
      if !risk(a) {
        return ExecutionResult(RejectedRisk, []);
      }
      if a.kind.FOK? {
        var enough := LiquidityAnalyzers.HasLiquidity(book, a);
        if !enough {
          return ExecutionResult(RejectedInvalid, []);
        }
      }
      var left, trades := MatchCore(a);
      if left > 0 && a.kind.Limit? {
        var now := GetTimestamp();
        book.AddOrder(BookUpdate(UpdateType.AddOrder, a.side, a.price, left, now, a.orderId, 0));
      }
      FillsFields(trades);
      var status;
      if trades == [] {
        if a.kind.IOC? || a.kind.FOK? {
          status := RejectedInvalid;
        } else {
          status := Accepted;
        }
      } else if left == 0 {
        status := Filled;
      } else {
        status := PartiallyFilled;
      }
      result := ExecutionResult(status, trades);
    }
  }
}
