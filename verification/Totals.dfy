/** Total resting quantity of the orders a selection picks, and how book operations change it. */
module Totals {
  import opened Base
  import opened PricePriority
  import opened BookSpec
  import opened MatchSpec
  import opened PriceTime

  /** A selection by side and price. */
  type Selection = Resting -> bool

  ghost predicate ByPlace(sel: Selection) {
    forall s: Side, p: u32, q: u32, r: u32 :: sel(Resting(s, p, q)) == sel(Resting(s, p, r))
  }

  function Everything(): Selection {
    (r: Resting) => true
  }

  function OnSide(side: Side): Selection {
    (r: Resting) => r.side == side
  }

  /** The orders an action may trade with: those of the other side, up to its limit unless it is a market order. */
  function Reachable(a: OrderAction): Selection {
    (r: Resting) =>
      && r.side != a.side
      && (a.kind == Market || (if a.side == Buy then r.price <= a.price else r.price >= a.price))
  }

  function Part(o: Resting, sel: Selection): nat {
    if sel(o) then o.qty else 0
  }

  ghost function Total(orders: map<u64, Resting>, sel: Selection): nat
    decreases |orders|
  {
    if orders == map[] then 0
    else
      var id :| id in orders;
      assert |orders - {id}| < |orders|;
      Part(orders[id], sel) + Total(orders - {id}, sel)
  }

  /** Any order can be taken out of the total. */
  lemma {:induction false} TotalRemove(orders: map<u64, Resting>, sel: Selection, id: u64)
    requires id in orders
    ensures Total(orders, sel) == Part(orders[id], sel) + Total(orders - {id}, sel)
    decreases |orders|
  {
    var x: u64 :| x in orders && Total(orders, sel) == Part(orders[x], sel) + Total(orders - {x}, sel);
    if x != id {
      assert |orders - {x}| < |orders|;
      assert |orders - {id}| < |orders|;
      TotalRemove(orders - {x}, sel, id);
      TotalRemove(orders - {id}, sel, x);
      assert orders - {x} - {id} == orders - {id} - {x};
    }
  }

  lemma TotalPut(orders: map<u64, Resting>, sel: Selection, id: u64, o: Resting)
    ensures Total(orders[id := o], sel) ==
            Total(orders, sel) + Part(o, sel) - (if id in orders then Part(orders[id], sel) else 0)
  {
    TotalRemove(orders[id := o], sel, id);
    assert orders[id := o] - {id} == orders - {id};
    if id in orders {
      TotalRemove(orders, sel, id);
    } else {
      assert orders - {id} == orders;
    }
  }

  lemma {:induction false} TotalNone(orders: map<u64, Resting>, sel: Selection)
    requires forall id :: id in orders ==> !sel(orders[id])
    ensures Total(orders, sel) == 0
    decreases |orders|
  {
    if orders != map[] {
      var id :| id in orders;
      TotalRemove(orders, sel, id);
      assert |orders - {id}| < |orders|;
      TotalNone(orders - {id}, sel);
    }
  }

  // ---- Operations ------------------------------------------------------------

  lemma AddTotal(b: Book, id: u64, o: Resting, sel: Selection)
    requires id !in b.orders
    ensures Total(Add(b, id, o).orders, sel) == Total(b.orders, sel) + Part(o, sel)
  {
    TotalPut(b.orders, sel, id, o);
  }

  lemma DropTotal(b: Book, id: u64, sel: Selection)
    requires id in b.orders && Queued(b, id)
    ensures Total(Drop(b, id).orders, sel) == Total(b.orders, sel) - Part(b.orders[id], sel)
    ensures Drop(b, id).orders == b.orders - {id}
  {
    TotalRemove(b.orders, sel, id);
  }

  lemma ReduceTotal(b: Book, id: u64, qty: u32, sel: Selection)
    requires id in b.orders && Queued(b, id) && qty <= b.orders[id].qty && ByPlace(sel)
    ensures Total(Reduce(b, id, qty).orders, sel) == Total(b.orders, sel) - (if sel(b.orders[id]) then qty else 0)
  {
    var o := b.orders[id];
    if qty < o.qty {
      TotalPut(b.orders, sel, id, o.(qty := o.qty - qty));
      assert sel(Resting(o.side, o.price, o.qty - qty)) == sel(Resting(o.side, o.price, o.qty));
    } else {
      DropTotal(b, id, sel);
    }
  }

  lemma ModifyTotal(b: Book, id: u64, qty: u32, sel: Selection)
    requires WellFormed(b) && id in b.orders && ByPlace(sel)
    ensures Total(Modify(b, id, qty).orders, sel) ==
            Total(b.orders, sel) + (if sel(b.orders[id]) then qty - b.orders[id].qty else 0)
  {
    hide Core, Lively, Queued, Total, Drop, Add, Reduce;
    IsQueued(b, id);
    var o := b.orders[id];
    assert sel(Resting(o.side, o.price, qty)) == sel(Resting(o.side, o.price, o.qty));
    if qty < o.qty {
      ReduceTotal(b, id, o.qty - qty, sel);
    } else if qty > o.qty {
      DropTotal(b, id, sel);
      AddTotal(Drop(b, id), id, o.(qty := qty), sel);
    }
  }

  /** A sweep takes its fills off any selection that contains all it may trade with, and nothing off the others. */
  lemma {:induction false} SweepTotal(b: Book, a: OrderAction, left: u32, next: u64, sel: Selection, taken: bool)
    requires WellFormed(b) && ByPlace(sel)
    requires forall r: Resting :: Reachable(a)(r) ==> sel(r) == taken
    ensures var s := Sweep(b, a, left, next);
            Total(s.book.orders, sel) == Total(b.orders, sel) - (if taken then SumFills(s.fills) else 0)
    decreases left
  {
    hide Sweep, Core, Lively, Queued, Reduce, Total;
    if Stuck(b, a, left) {
      SweepStuck(b, a, left, next);
    } else {
      SweepStep(b, a, left, next);
      var id := First(b, a.side.Opposite());
      var qty := Min(left, b.orders[id].qty);
      assert Reachable(a)(b.orders[id]);
      ReduceTotal(b, id, qty, sel);
      var b' := Reduce(b, id, qty);
      SweepTotal(b', a, left - qty, Succ64(next), sel, taken);
      var rest := Sweep(b', a, left - qty, Succ64(next));
      SumCons(Fill(next, a.orderId, id, b.orders[id].price, qty), rest.fills);
    }
  }

  lemma SumCons(f: Fill, fills: seq<Fill>)
    ensures SumFills([f] + fills) == f.qty + SumFills(fills)
  {
    assert ([f] + fills)[1..] == fills;
  }

  /** A stuck action with quantity left can reach no order any more. */
  lemma StuckReachesNothing(b: Book, a: OrderAction, left: u32)
    requires WellFormed(b) && Stuck(b, a, left) && left > 0
    ensures Total(b.orders, Reachable(a)) == 0
  {
    var opp := a.side.Opposite();
    forall id | id in b.orders ensures !Reachable(a)(b.orders[id]) {
      assert Queued(b, id);
      var o := b.orders[id];
      if o.side == opp {
        var p := Best(opp, b.On(opp).Keys);
        assert !Better(opp, o.price, p);
      }
    }
    TotalNone(b.orders, Reachable(a));
  }

  /** An action trades as much as it can: the smaller of its quantity and what it can reach. */
  lemma TradesAll(b: Book, a: OrderAction, qty: u32, next: u64)
    requires WellFormed(b)
    ensures var s := Sweep(b, a, qty, next);
            && SumFills(s.fills) == Min(qty, Total(b.orders, Reachable(a)))
            && s.left == qty - SumFills(s.fills)
  {
    hide Sweep, Core, Lively, Total;
    var s := Sweep(b, a, qty, next);
    SweepServesLine(b, a, qty, next);
    SweepTotal(b, a, qty, next, Reachable(a), true);
    if s.left > 0 {
      StuckReachesNothing(s.book, a, s.left);
    }
  }
}
