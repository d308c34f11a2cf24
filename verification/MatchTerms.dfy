/** The terms of a match in plain prices: limits, amounts, who may not be overtaken, and how trades are numbered. */
module MatchTerms {
  import opened Base
  import opened PricePriority
  import opened BookSpec
  import opened MatchSpec
  import opened PriceTime
  import opened BookLaws
  import opened Totals
  import opened FillOrKill
  import opened MatchLaws

  // ---- The limit -------------------------------------------------------------

  /** What the sweep admits is the limit, compared as prices are. */
  lemma LimitIsPrice(a: OrderAction, price: u32)
    ensures Admits(a, price) <==> a.kind == Market || (if a.side == Buy then price <= a.price else price >= a.price)
  {
  }

  /** A sweep that is stuck with quantity left has nothing on the other side that its limit allows. */
  lemma NothingWithinLimit(b: Book, a: OrderAction, left: u32)
    requires Stuck(b, a, left) && left > 0
    ensures forall p :: p in b.On(a.side.Opposite()) ==>
              a.kind != Market && if a.side == Buy then p > a.price else p < a.price
  {
    var opp := a.side.Opposite();
    forall p | p in b.On(opp) ensures a.kind != Market && if a.side == Buy then p > a.price else p < a.price {
      assert !Better(opp, p, Best(opp, b.On(opp).Keys));
    }
  }

  /**
    No trade is beyond the limit of a non-market action; and if an action that went ahead has quantity left, every price
    still on the other side is beyond its limit, and none is left for a market order.
   */
  lemma LimitHolds(b: Book, a: OrderAction, riskOk: bool, next: u64)
    requires WellFormed(b)
    ensures var o := Match(b, a, riskOk, next);
            && (forall i :: 0 <= i < |o.fills| && a.kind != Market ==>
                  if a.side == Buy then o.fills[i].price <= a.price else o.fills[i].price >= a.price)
            && (riskOk && (a.kind == FOK ==> o.fills != []) && o.left > 0 ==>
                  if a.side == Buy then
                    forall p :: p in o.book.asks ==> a.kind != Market && p > a.price
                  else
                    forall p :: p in o.book.bids ==> a.kind != Market && p < a.price)
  {
    hide Core, Lively, Sweep, Stuck, ScanFinds, Line, Admits;
    var s := Sweep(b, a, a.qty, next);
    SweepServesLine(b, a, a.qty, next);
    forall p: u32 ensures Admits(a, p) <==> a.kind == Market || (if a.side == Buy then p <= a.price else p >= a.price) {
      LimitIsPrice(a, p);
    }
    if s.left > 0 {
      NothingWithinLimit(s.book, a, s.left);
      var added := Add(s.book, a.orderId, Resting(a.side, a.price, s.left));
      assert added.On(a.side.Opposite()) == s.book.On(a.side.Opposite());
    }
  }

  // ---- Amounts ---------------------------------------------------------------

  /**
    An action that passes the risk rules trades all it can: the smaller of its quantity and everything on the other side
    within its limit. A fill-or-kill order does so if the scan finds its quantity, and nothing otherwise.
   */
  lemma MatchTradesAll(b: Book, a: OrderAction, riskOk: bool, next: u64)
    requires WellFormed(b)
    ensures var o := Match(b, a, riskOk, next);
            && SumFills(o.fills) ==
               (if riskOk && (a.kind == FOK ==> ScanFinds(b, a)) then Min(a.qty, Total(b.orders, Reachable(a))) else 0)
            && o.left == a.qty - SumFills(o.fills)
  {
    hide Core, Lively, Sweep, ScanFinds, Total, Reachable;
    TradesAll(b, a, a.qty, next);
  }

  // ---- Numbers ---------------------------------------------------------------

  lemma {:induction false} SweepNumbers(b: Book, a: OrderAction, left: u32, next: u64)
    requires WellFormed(b)
    ensures var s := Sweep(b, a, left, next);
            && s.nextId == (next + |s.fills|) % W64
            && forall i :: 0 <= i < |s.fills| ==> s.fills[i].tradeId == (next + i) % W64
    decreases left
  {
    hide Core, Lively, Sweep, Stuck, Queued, Reduce;
    if Stuck(b, a, left) {
      SweepStuck(b, a, left, next);
    } else {
      SweepStep(b, a, left, next);
      var id := First(b, a.side.Opposite());
      var qty := Min(left, b.orders[id].qty);
      NonemptySide(b, a, left);
      SweepNumbers(Reduce(b, id, qty), a, left - qty, Succ64(next));
      var s, rest := Sweep(b, a, left, next), Sweep(Reduce(b, id, qty), a, left - qty, Succ64(next));
      SuccAdd(next, |rest.fills|);
      forall i | 0 <= i < |s.fills| ensures s.fills[i].tradeId == (next + i) % W64 {
        if i > 0 {
          assert s.fills[i] == rest.fills[i - 1];
          SuccAdd(next, i - 1);
        }
      }
    }
  }

  /** Trades are numbered one by one from the counter on, and the counter ends behind the last. */
  lemma MatchNumbers(b: Book, a: OrderAction, riskOk: bool, next: u64)
    requires WellFormed(b)
    ensures var o := Match(b, a, riskOk, next);
            && o.nextId == (next + |o.fills|) % W64
            && forall i :: 0 <= i < |o.fills| ==>
                 o.fills[i].tradeId == (next + i) % W64 && o.fills[i].aggressor == a.orderId
  {
    hide Core, Lively, Sweep, ScanFinds, Line;
    SweepNumbers(b, a, a.qty, next);
    SweepServesLine(b, a, a.qty, next);
  }

  // ---- Nobody is overtaken ---------------------------------------------------

  /** x waits before y: at a better price, or earlier in the queue at the same price. */
  ghost predicate Ahead(b: Book, side: Side, x: u64, y: u64)
    requires x in b.orders && y in b.orders
  {
    var p, q := b.orders[x].price, b.orders[y].price;
    var line := Queue(b, side, p);
    || (if side == Buy then p > q else p < q)
    || (p == q && exists k, l :: 0 <= k < l < |line| && line[k] == x && line[l] == y)
  }

  lemma LineHead(b: Book, side: Side, prices: seq<u32>)
    ensures prices != [] ==>
              LineOf(b.On(side), prices) == Queue(b, side, prices[0]) + LineOf(b.On(side), prices[1..])
    ensures prices == [] ==> LineOf(b.On(side), prices) == []
  {
  }

  /** The line of a side is in that order. */
  lemma {:induction false} LineInOrder(b: Book, side: Side, prices: seq<u32>, i: nat, j: nat)
    requires Core(b) && StrictlyRanked(side, prices) && i < j < |LineOf(b.On(side), prices)|
    ensures var l := LineOf(b.On(side), prices);
            && l[i] in b.orders && l[j] in b.orders && b.orders[l[i]].side == b.orders[l[j]].side == side
            && b.orders[l[i]].price in prices && b.orders[l[j]].price in prices
            && Ahead(b, side, l[i], l[j])
  {
    hide Core, LineOf, Queue;
    LineHead(b, side, prices);
    var p, rest := prices[0], prices[1..];
    var q, l := Queue(b, side, p), LineOf(b.On(side), prices);
    QueueMembers(b, side, p);
    if i >= |q| {
      LineInOrder(b, side, rest, i - |q|, j - |q|);
    } else if j < |q| {
      assert q[i] == l[i] && q[j] == l[j];
    } else {
      LineMember(b, side, rest, j - |q|);
      var k :| 0 <= k < |rest| && rest[k] == b.orders[l[j]].price;
      assert Better(side, prices[0], prices[k + 1]);
    }
  }

  lemma {:induction false} LineMember(b: Book, side: Side, prices: seq<u32>, i: nat)
    requires Core(b) && i < |LineOf(b.On(side), prices)|
    ensures var l := LineOf(b.On(side), prices);
            l[i] in b.orders && b.orders[l[i]].side == side && b.orders[l[i]].price in prices
  {
    hide Core, LineOf, Queue;
    LineHead(b, side, prices);
    var q := Queue(b, side, prices[0]);
    QueueMembers(b, side, prices[0]);
    if i >= |q| {
      LineMember(b, side, prices[1..], i - |q|);
    }
  }

  /** x keeps its turn: whatever waits ahead of an order that trades is filled completely before it. */
  lemma NobodyOvertaken(b: Book, a: OrderAction, riskOk: bool, next: u64, i: nat, x: u64)
    requires WellFormed(b)
    requires var o := Match(b, a, riskOk, next);
             && i < |o.fills| && x in b.orders && b.orders[x].side != a.side && o.fills[i].resting in b.orders
             && Ahead(b, b.orders[x].side, x, o.fills[i].resting)
    ensures var o := Match(b, a, riskOk, next);
            exists j :: 0 <= j < i && o.fills[j].resting == x && o.fills[j].qty == b.orders[x].qty
  {
    hide Core, Lively, Sweep, ScanFinds, Line, Ahead;
    var side, s := a.side.Opposite(), Sweep(b, a, a.qty, next);
    SweepServesLine(b, a, a.qty, next);
    var j := InLine(b, side, x);
    var line := Line(b, side);
    if j >= i {
      AheadIsStrict(b, side, x, line[i]);
      if j > i {
        LineAhead(b, side, i, j);
      }
      assert false;
    }
    assert s.fills[j].resting == x && s.fills[j].qty == b.orders[x].qty;
  }

  /** Fills come in the order of the line. */
  lemma FillsInOrder(b: Book, a: OrderAction, riskOk: bool, next: u64, i: nat, j: nat)
    requires WellFormed(b) && i < j < |Match(b, a, riskOk, next).fills|
    ensures var o := Match(b, a, riskOk, next);
            && o.fills[i].resting in b.orders && o.fills[j].resting in b.orders
            && b.orders[o.fills[i].resting].side != a.side
            && o.fills[i].price == b.orders[o.fills[i].resting].price
            && Ahead(b, a.side.Opposite(), o.fills[i].resting, o.fills[j].resting)
  {
    hide Core, Lively, Sweep, ScanFinds, Line, Ahead;
    SweepServesLine(b, a, a.qty, next);
    LineAhead(b, a.side.Opposite(), i, j);
  }

  lemma LineAhead(b: Book, side: Side, i: nat, j: nat)
    requires Core(b) && i < j < |Line(b, side)|
    ensures var l := Line(b, side);
            && l[i] in b.orders && l[j] in b.orders && b.orders[l[i]].side == b.orders[l[j]].side == side
            && Ahead(b, side, l[i], l[j])
  {
    RankedSound(side, b.On(side).Keys);
    LineInOrder(b, side, Ranked(side, b.On(side).Keys), i, j);
  }

  /** Every order of a side has its place in the line. */
  lemma InLine(b: Book, side: Side, x: u64) returns (j: nat)
    requires Core(b) && x in b.orders && b.orders[x].side == side
    ensures j < |Line(b, side)| && Line(b, side)[j] == x
  {
    var prices := Ranked(side, b.On(side).Keys);
    RankedSound(side, b.On(side).Keys);
    assert NoDup(prices);
    LineLists(b, side, prices);
    IsQueued(b, x);
    j :| 0 <= j < |Line(b, side)| && Line(b, side)[j] == x;
  }

  lemma AheadIsStrict(b: Book, side: Side, x: u64, y: u64)
    requires Core(b) && x in b.orders && y in b.orders && Ahead(b, side, x, y)
    ensures x != y && !Ahead(b, side, y, x)
  {
    QueueMembers(b, side, b.orders[x].price);
  }
}
