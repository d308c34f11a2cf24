/** What the fill-or-kill pre-scan guarantees, and when the order type keeps its promise. */
module FillOrKill {
  import opened Base
  import opened PricePriority
  import opened BookSpec
  import opened MatchSpec
  import opened PriceTime
  import opened Totals

  // ---- The scan counts the side ----------------------------------------------

  /** Level sums without the 32-bit truncation. */
  ghost function FullDepth(b: Book, side: Side, prices: seq<u32>): nat {
    if prices == [] then 0
    else (if prices[0] in b.On(side) then SumQty(b.orders, b.On(side)[prices[0]]) else 0)
         + FullDepth(b, side, prices[1..])
  }

  /** No level's total quantity exceeds 32 bits. */
  ghost predicate TotalsFit(b: Book, side: Side) {
    forall p :: p in b.On(side) ==> SumQty(b.orders, b.On(side)[p]) < W32
  }

  lemma {:induction false} DepthBounds(b: Book, side: Side, prices: seq<u32>)
    ensures Depth(b, side, prices) <= FullDepth(b, side, prices)
    ensures Depth(b, side, prices) == FullDepth(b, side, prices) <==>
            forall p :: p in prices && p in b.On(side) ==> SumQty(b.orders, b.On(side)[p]) < W32
  {
    hide SumQty;
    if prices != [] {
      DepthBounds(b, side, prices[1..]);
    }
  }

  /** The quantities along the line add up to the level sums. */
  lemma {:induction false} LineSum(b: Book, side: Side, prices: seq<u32>)
    ensures SumQty(b.orders, LineOf(b.On(side), prices)) == FullDepth(b, side, prices)
  {
    if prices != [] {
      LineSum(b, side, prices[1..]);
      var q := if prices[0] in b.On(side) then b.On(side)[prices[0]] else [];
      SumConcat(b.orders, q, LineOf(b.On(side), prices[1..]));
    }
  }

  /** The line at the given prices lists exactly the orders resting there, each once. */
  lemma {:induction false} LineLists(b: Book, side: Side, prices: seq<u32>)
    requires Core(b) && NoDup(prices)
    ensures NoDup(LineOf(b.On(side), prices))
    ensures forall id :: id in LineOf(b.On(side), prices) <==>
              id in b.orders && b.orders[id].side == side && b.orders[id].price in prices
  {
    if prices != [] {
      var p, rest := prices[0], prices[1..];
      LineLists(b, side, rest);
      var q := if p in b.On(side) then b.On(side)[p] else [];
      assert p !in rest;
      assert p in b.On(side) ==> QueueOk(b, side, p, q);
      forall id ensures id in q <==> id in b.orders && b.orders[id].side == side && b.orders[id].price == p {
        assert id in b.orders ==> Queued(b, id);
      }
      NoDupConcat(q, LineOf(b.On(side), rest));
    }
  }

  lemma NoDupConcat(q: seq<u64>, r: seq<u64>)
    requires NoDup(q) && NoDup(r) && forall x :: x in q ==> x !in r
    ensures NoDup(q + r)
  {
    var s := q + r;
    forall i, j | 0 <= i < j < |s| ensures s[i] != s[j] {
      if i < |q| <= j {
        assert s[i] in q && s[j] in r;
      }
    }
  }

  /** Summing over a duplicate-free listing of a selection gives its total. */
  lemma {:induction false} TotalIsSum(orders: map<u64, Resting>, sel: Selection, q: seq<u64>)
    requires NoDup(q) && forall id :: id in q <==> id in orders && sel(orders[id])
    ensures Total(orders, sel) == SumQty(orders, q)
  {
    if q == [] {
      TotalNone(orders, sel);
    } else {
      var x, r := q[|q| - 1], q[..|q| - 1];
      TotalRemove(orders, sel, x);
      assert forall id :: id in q <==> id in r || id == x;
      TotalIsSum(orders - {x}, sel, r);
      assert forall k :: 0 <= k < |r| ==> r[k] in r && r[k] != x;
      SumFrame(orders - {x}, orders, r);
    }
  }

  /** The scan sees at most what rests on the opposite side, and all of it exactly when no level total overflows. */
  lemma ScanCounts(b: Book, side: Side)
    requires Core(b)
    ensures Seen(b, side) <= Total(b.orders, OnSide(side))
    ensures Seen(b, side) == Total(b.orders, OnSide(side)) <==> TotalsFit(b, side)
  {
    var prices := Ranked(side, b.On(side).Keys);
    RankedSound(side, b.On(side).Keys);
    assert NoDup(prices);
    DepthBounds(b, side, prices);
    LineSum(b, side, prices);
    LineLists(b, side, prices);
    var line := LineOf(b.On(side), prices);
    forall id ensures id in line <==> id in b.orders && OnSide(side)(b.orders[id]) {
      if id in b.orders && b.orders[id].side == side {
        assert Queued(b, id);
      }
    }
    TotalIsSum(b.orders, OnSide(side), line);
  }

  /** What a scan without a cap would add up. */
  ghost function Seen(b: Book, side: Side): nat {
    Depth(b, side, Ranked(side, b.On(side).Keys))
  }

  /** The scan succeeds exactly when the quantity is seen, and for nothing at all when there is any level. */
  lemma ScanIsSeen(b: Book, a: OrderAction)
    ensures a.qty > 0 ==> (ScanFinds(b, a) <==> Seen(b, a.side.Opposite()) >= a.qty)
    ensures a.qty == 0 ==> (ScanFinds(b, a) <==> if a.side == Buy then b.asks != map[] else b.bids != map[])
  {
    var opp := a.side.Opposite();
    if b.On(opp) == map[] {
      RankedSound(opp, b.On(opp).Keys);
      assert Ranked(opp, b.On(opp).Keys) == [];
    }
  }

  /** Whatever positive quantity is asked for, the scan succeeds exactly when the side holds that much. */
  ghost predicate ScansRight(b: Book, side: Side) {
    forall a: OrderAction :: a.side.Opposite() == side && a.qty > 0 ==>
      (ScanFinds(b, a) <==> Total(b.orders, OnSide(side)) >= a.qty)
  }

  /** The scan is right exactly when no level total overflows, or so much is seen that no 32-bit quantity exceeds it. */
  lemma ScanIsExact(b: Book, side: Side)
    requires WellFormed(b)
    ensures ScansRight(b, side) <==> TotalsFit(b, side) || Seen(b, side) >= W32 - 1
  {
    hide Core, Lively, Depth, TotalsFit, ScanFinds;
    ScanCounts(b, side);
    var seen := Seen(b, side);
    forall a: OrderAction | a.side.Opposite() == side && a.qty > 0 ensures ScanFinds(b, a) <==> seen >= a.qty {
      ScanIsSeen(b, a);
    }
    if !TotalsFit(b, side) && seen < W32 - 1 {
      var missed := OrderAction(0, 0, 0, seen + 1, side.Opposite(), FOK);
      assert !ScanFinds(b, missed) && Total(b.orders, OnSide(side)) >= missed.qty;
    }
  }

  /** Two asks at one price whose quantities sum to 2^32. */
  const WRAPPED_ASKS :=
    Book(map[1 := Resting(Sell, 10, 0xFFFF_FFFF), 2 := Resting(Sell, 10, 1)], map[], map[10 := [1, 2]])

  /** A wrapped level total hides quantity: 2^32 resting at one price, and a scan for a single unit fails. */
  lemma ScanMissesWrappedLevel()
    ensures WellFormed(WRAPPED_ASKS) && Total(WRAPPED_ASKS.orders, OnSide(Sell)) == W32
    ensures !ScanFinds(WRAPPED_ASKS, OrderAction(3, 0, 10, 1, Buy, FOK))
  {
    var b := WRAPPED_ASKS;
    assert b.On(Sell)[10][0] == 1 && b.On(Sell)[10][1] == 2;
    assert Queued(b, 1) && Queued(b, 2);
    assert b.On(Sell).Keys == {10};
    assert Ranked(Sell, {10}) == [10] by {
      RankedUnique(Sell, [10], {10});
    }
    assert [10][1..] == [];
    assert [1, 2][..1] == [1] && [1][..0] == [];
    assert SumQty(b.orders, [1, 2]) == W32;
    LineSum(b, Sell, [10]);
    var line := LineOf(b.On(Sell), [10]);
    assert line == [1, 2];
    TotalIsSum(b.orders, OnSide(Sell), line);
  }

  // ---- All or nothing --------------------------------------------------------

  /** Nothing traded and the book untouched, or everything filled. */
  ghost predicate AllOrNothing(b: Book, o: Outcome) {
    (o.fills == [] && o.book == b) || o.left == 0
  }

  /**
    A fill-or-kill order is all-or-nothing exactly unless the scan, which ignores prices, lets through an order
    that can reach something at its limit but not enough.
   */
  lemma FokAllOrNothing(b: Book, a: OrderAction, next: u64)
    requires WellFormed(b) && a.kind.FOK?
    ensures AllOrNothing(b, MatchSpec.Match(b, a, true, next)) <==>
            !(ScanFinds(b, a) && 0 < Total(b.orders, Reachable(a)) < a.qty)
  {
    TradesAll(b, a, a.qty, next);
    var s := Sweep(b, a, a.qty, next);
    if ScanFinds(b, a) {
      if s.fills == [] {
        SweepServesLine(b, a, a.qty, next);
        if !Stuck(b, a, a.qty) {
          SweepStep(b, a, a.qty, next);
        } else {
          SweepStuck(b, a, a.qty, next);
        }
      } else {
        SweepServesLine(b, a, a.qty, next);
        assert s.fills[0].qty > 0;
      }
    }
  }

  /**
    With a limit that admits every opposite order: filled completely or not at all, by the verdict of the scan. A passed
    scan is never wrong about the quantity, and neither is a failed one under the condition of ScanIsExact.
   */
  lemma FokAdmittingAll(b: Book, a: OrderAction, next: u64)
    requires WellFormed(b) && a.kind.FOK? && a.qty > 0
    requires forall p :: p in b.On(a.side.Opposite()) ==> Admits(a, p)
    ensures var o, side := MatchSpec.Match(b, a, true, next), a.side.Opposite();
            && (if ScanFinds(b, a) then o.left == 0 && o.status == Filled
                else o.book == b && o.fills == [] && o.status == RejectedInvalid)
            && (o.status == Filled ==> Total(b.orders, OnSide(side)) >= a.qty)
            && (TotalsFit(b, side) || Seen(b, side) >= W32 - 1 ==>
                  (o.status == Filled <==> Total(b.orders, OnSide(side)) >= a.qty))
  {
    hide Core, Lively, TotalsFit, Total, Depth;
    var side := a.side.Opposite();
    ScanCounts(b, side);
    ScanIsSeen(b, a);
    ScanIsExact(b, side);
    TradesAll(b, a, a.qty, next);
    SameTotal(b, a);
  }

  lemma SameTotal(b: Book, a: OrderAction)
    requires WellFormed(b) && forall p :: p in b.On(a.side.Opposite()) ==> Admits(a, p)
    ensures Total(b.orders, Reachable(a)) == Total(b.orders, OnSide(a.side.Opposite()))
  {
    forall id | id in b.orders ensures Reachable(a)(b.orders[id]) <==> OnSide(a.side.Opposite())(b.orders[id]) {
      assert Queued(b, id);
    }
    TotalSame(b.orders, Reachable(a), OnSide(a.side.Opposite()));
  }

  lemma {:induction false} TotalSame(orders: map<u64, Resting>, sel: Selection, sel': Selection)
    requires forall id :: id in orders ==> (sel(orders[id]) <==> sel'(orders[id]))
    ensures Total(orders, sel) == Total(orders, sel')
    decreases |orders|
  {
    if orders != map[] {
      var id :| id in orders;
      assert |orders - {id}| < |orders|;
      TotalRemove(orders, sel, id);
      TotalRemove(orders, sel', id);
      TotalSame(orders - {id}, sel, sel');
    }
  }

  /** Two asks of five, at 100 and at 200. */
  const TWO_ASKS :=
    Book(map[1 := Resting(Sell, 100, 5), 2 := Resting(Sell, 200, 5)], map[], map[100 := [1], 200 := [2]])

  lemma TwoAsks()
    ensures WellFormed(TWO_ASKS) && TotalsFit(TWO_ASKS, Sell)
    ensures SumQty(TWO_ASKS.orders, [1]) == 5 && SumQty(TWO_ASKS.orders, [1, 2]) == 10
  {
    var b := TWO_ASKS;
    assert b.On(Sell)[100][0] == 1 && b.On(Sell)[200][0] == 2;
    assert Queued(b, 1) && Queued(b, 2);
    assert SumQty(b.orders, [1]) == 5 && SumQty(b.orders, [2]) == 5;
    assert [1, 2][..1] == [1];
  }

  /** A buy of 10 at limit 100: the scan counts the ask at 200, the sweep may not touch it, five units trade. */
  lemma FokCanFillInPart()
    ensures var a := OrderAction(3, 0, 100, 10, Buy, FOK);
            WellFormed(TWO_ASKS) && !AllOrNothing(TWO_ASKS, MatchSpec.Match(TWO_ASKS, a, true, 1))
  {
    hide WellFormed, TotalsFit, SumQty, Total, Seen;
    var a := OrderAction(3, 0, 100, 10, Buy, FOK);
    TwoAsks();
    TotalIsSum(TWO_ASKS.orders, Reachable(a), [1]);
    TotalIsSum(TWO_ASKS.orders, OnSide(Sell), [1, 2]);
    ScanIsExact(TWO_ASKS, Sell);
    FokAllOrNothing(TWO_ASKS, a, 1);
  }
}
