/** When a match fits, by what can be looked up in the book beforehand. */
module Admission {
  import opened Base
  import opened BookSpec
  import opened MatchSpec
  import opened MatchingEngines
  import opened PriceTime
  import MatchLaws
  import Runs

  /** The rest of a match that fits has what it takes to enter the book. */
  lemma TakenEnters(e: MatchingEngine, b: Book, next: u64, a: OrderAction)
    requires WellFormed(b) && e.Takes(b, next, a)
    ensures Enterable(b, a, e.risk(a), next)
  {
    hide Core, Lively, Sweep, ScanFinds;
  }

  lemma {:induction false} FewFills(fills: seq<Fill>)
    requires forall i :: 0 <= i < |fills| ==> fills[i].qty > 0
    ensures |fills| <= SumFills(fills)
  {
    if fills != [] {
      FewFills(fills[1..]);
    }
  }

  /** A sweep makes at most one fill per unit, and at most one per opposite order. */
  lemma FillsBounded(b: Book, a: OrderAction, left: u32, next: u64)
    requires WellFormed(b)
    ensures |Sweep(b, a, left, next).fills| <= Min(left, |Line(b, a.side.Opposite())|)
    ensures Sweep(b, a, left, next).left <= left
  {
    hide Core, Lively, Sweep, Stuck, Line;
    SweepServesLine(b, a, left, next);
    FewFills(Sweep(b, a, left, next).fills);
  }

  /** A sweep only makes room: no order and no price is new, and the own side is untouched. */
  lemma SweepMakesRoom(b: Book, a: OrderAction, left: u32, next: u64)
    requires WellFormed(b)
    ensures var c := Sweep(b, a, left, next).book;
            && c.orders.Keys <= b.orders.Keys && |c.orders| <= |b.orders|
            && c.On(a.side) == b.On(a.side) && c.Levels() <= b.Levels()
  {
    hide Core, Lively, Sweep;
    var c := Sweep(b, a, left, next).book;
    MatchLaws.SweepTakesFills(b, a, left, next);
    MatchLaws.SweepKeepsOwnSide(b, a, left, next);
    Runs.SweepPrices(b, a, left, next);
    SubsetCard(c.orders.Keys, b.orders.Keys);
    SubsetCard(c.bids.Keys, b.bids.Keys);
    SubsetCard(c.asks.Keys, b.asks.Keys);
    assert |c.orders| == |c.orders.Keys| && |b.orders| == |b.orders.Keys|;
    assert |c.bids| == |c.bids.Keys| && |b.bids| == |b.bids.Keys|;
    assert |c.asks| == |c.asks.Keys| && |b.asks| == |b.asks.Keys|;
  }

  /**
    A match fits if the action has at most 1000 units, or faces at most 1000 orders, and a limit order could be added
    to the book as it is before the match.
   */
  lemma FitsBeforehand(e: MatchingEngine, b: Book, next: u64, a: OrderAction)
    requires WellFormed(b)
    requires Min(a.qty, |Line(b, a.side.Opposite())|) <= MAX_TRADES
    requires a.kind.Limit? && a.qty > 0 ==> e.book.CanAdd(b, a.orderId, Resting(a.side, a.price, a.qty))
    ensures e.Takes(b, next, a)
  {
    hide Core, Lively, Sweep, ScanFinds, Line;
    FillsBounded(b, a, a.qty, next);
    SweepMakesRoom(b, a, a.qty, next);
  }
}
