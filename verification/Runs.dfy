/** Whole runs of the engine: matched actions interleaved with direct book updates. */
module Runs {
  import opened Base
  import opened PricePriority
  import opened BookSpec
  import opened BookUpdates
  import opened MatchSpec
  import opened PriceTime
  import opened Totals

  datatype Event =
    | Act(action: OrderAction, riskOk: bool)
    | Update(update: BookUpdate)

  datatype State = State(book: Book, nextId: u64)

  /** What the engine and the book assert about an event; pool capacities aside. */
  ghost predicate Legal(s: State, e: Event)
    requires WellFormed(s.book)
  {
    match e
    case Act(a, ok) => Enterable(s.book, a, ok, s.nextId)
    case Update(u) =>
      && Refers(s.book, u)
      && (u.kind.AddOrder? ==> Fresh(s.book, u.orderId, u))
      && (u.kind.ReplaceOrder? ==> Queued(s.book, u.orderId) && Fresh(Drop(s.book, u.orderId), u.matchId, u))
  }

  ghost predicate Fresh(b: Book, id: u64, u: BookUpdate) {
    id != 0 && id !in b.orders && u.qty > 0 && u.price > 0
  }

  ghost function Step(s: State, e: Event): State
    requires WellFormed(s.book) && Legal(s, e)
  {
    match e
    case Act(a, ok) => var o := MatchSpec.Match(s.book, a, ok, s.nextId); State(o.book, o.nextId)
    case Update(u) => State(Apply(s.book, u), s.nextId)
  }

  lemma StepWellFormed(s: State, e: Event)
    requires WellFormed(s.book) && Legal(s, e)
    ensures WellFormed(Step(s, e).book)
  {
    match e
    case Act(a, ok) => MatchWellFormed(s.book, a, ok, s.nextId);
    case Update(u) => ApplyWellFormed(s, u);
  }

  lemma MatchWellFormed(b: Book, a: OrderAction, ok: bool, next: u64)
    requires WellFormed(b) && Enterable(b, a, ok, next)
    ensures WellFormed(MatchSpec.Match(b, a, ok, next).book)
  {
    hide Core, Lively, ScanFinds, Add;
    var s := Sweep(b, a, a.qty, next);
    if Proceeds(b, a, ok) && Rests(a, s.left) {
      AddWellFormed(s.book, a.orderId, Resting(a.side, a.price, s.left));
    }
  }

  lemma ApplyWellFormed(s: State, u: BookUpdate)
    requires WellFormed(s.book) && Legal(s, Update(u))
    ensures WellFormed(Apply(s.book, u))
  {
    hide Core, Lively, Queued, Add, Drop, Reduce, Modify;
    match u.kind
    case AddOrder => AddWellFormed(s.book, u.orderId, Resting(u.side, u.price, u.qty));
    case CancelOrder => ReduceWellFormed(s.book, u.orderId, u.qty);
    case ExecuteOrder => ReduceWellFormed(s.book, u.orderId, u.qty);
    case DeleteOrder => DropWellFormed(s.book, u.orderId);
    case ModifyOrder => ModifyWellFormed(s.book, u.orderId, u.qty);
    case ReplaceOrder =>
      DropWellFormed(s.book, u.orderId);
      AddWellFormed(Drop(s.book, u.orderId), u.matchId, Resting(u.side, u.price, u.qty));
    case _ =>
  }

  /** Every event of the run is legal when its turn comes. */
  ghost predicate LegalRun(s: State, es: seq<Event>)
    requires WellFormed(s.book)
    decreases |es|
  {
    es == [] || (Legal(s, es[0]) && (StepWellFormed(s, es[0]); LegalRun(Step(s, es[0]), es[1..])))
  }

  ghost function Run(s: State, es: seq<Event>): (r: State)
    requires WellFormed(s.book) && LegalRun(s, es)
    ensures WellFormed(r.book)
    decreases |es|
  {
    if es == [] then s else StepWellFormed(s, es[0]); Run(Step(s, es[0]), es[1..])
  }

  const START := State(EMPTY_BOOK, 1)

  lemma EmptyWellFormed()
    ensures WellFormed(START.book)
  {
    assert forall s: Side :: EMPTY_BOOK.On(s) == map[];
  }

  /** A legal run of a new engine. */
  ghost predicate LegalFromStart(es: seq<Event>) {
    EmptyWellFormed();
    LegalRun(START, es)
  }

  // ---- The book is never crossed ---------------------------------------------

  /** Every bid is strictly below every ask. */
  ghost predicate Uncrossed(b: Book) {
    forall p, q :: p in b.bids && q in b.asks ==> p < q
  }

  /** Equivalently: best bid strictly below best ask. */
  lemma UncrossedIsBest(b: Book)
    ensures Uncrossed(b) <==> b.bids == map[] || b.asks == map[] || Best(Buy, b.bids.Keys) < Best(Sell, b.asks.Keys)
  {
    if b.bids != map[] && b.asks != map[] {
      var p, q := Best(Buy, b.bids.Keys), Best(Sell, b.asks.Keys);
      assert p in b.bids && q in b.asks;
      if p < q {
        forall x, y | x in b.bids && y in b.asks ensures x < y {
          assert !Better(Buy, x, p) && !Better(Sell, y, q);
        }
      }
    }
  }

  /** No price appears that was not there before. */
  ghost predicate NoNewPrices(b: Book, b': Book) {
    b'.bids.Keys <= b.bids.Keys && b'.asks.Keys <= b.asks.Keys
  }

  lemma DropPrices(b: Book, id: u64)
    requires id in b.orders && Queued(b, id)
    ensures NoNewPrices(b, Drop(b, id))
  {
  }

  lemma ReducePrices(b: Book, id: u64, qty: u32)
    requires id in b.orders && Queued(b, id) && qty <= b.orders[id].qty
    ensures NoNewPrices(b, Reduce(b, id, qty))
  {
    if qty == b.orders[id].qty {
      DropPrices(b, id);
    }
  }

  lemma ModifyPrices(b: Book, id: u64, qty: u32)
    requires id in b.orders && Queued(b, id)
    ensures NoNewPrices(b, Modify(b, id, qty))
  {
    var o := b.orders[id];
    if qty < o.qty {
      ReducePrices(b, id, o.qty - qty);
    } else if qty > o.qty {
      DropPrices(b, id);
      assert o.price in b.On(o.side);
    }
  }

  lemma {:induction false} SweepPrices(b: Book, a: OrderAction, left: u32, next: u64)
    requires WellFormed(b)
    ensures NoNewPrices(b, Sweep(b, a, left, next).book)
    decreases left
  {
    hide Sweep, Core, Lively, Queued, Reduce;
    if Stuck(b, a, left) {
      SweepStuck(b, a, left, next);
    } else {
      SweepStep(b, a, left, next);
      var id := First(b, a.side.Opposite());
      var qty := Min(left, b.orders[id].qty);
      ReducePrices(b, id, qty);
      SweepPrices(Reduce(b, id, qty), a, left - qty, Succ64(next));
    }
  }

  /** A new order at a price keeps the book uncrossed exactly when that price crosses nothing opposite. */
  lemma AddUncrossed(b: Book, id: u64, o: Resting)
    requires Uncrossed(b)
    ensures Uncrossed(Add(b, id, o)) <==>
            forall p :: p in b.On(o.side.Opposite()) ==> if o.side.Buy? then o.price < p else p < o.price
  {
    var b' := Add(b, id, o);
    assert b'.On(o.side).Keys == b.On(o.side).Keys + {o.price};
    assert b'.On(o.side.Opposite()) == b.On(o.side.Opposite());
  }

  /** Matching never leaves the book crossed: what rests is what found nothing more to trade with. */
  lemma MatchUncrossed(b: Book, a: OrderAction, ok: bool, next: u64)
    requires WellFormed(b) && Uncrossed(b)
    ensures Uncrossed(MatchSpec.Match(b, a, ok, next).book)
  {
    hide Sweep, Core, Lively, ScanFinds, Add;
    if Proceeds(b, a, ok) {
      var s := Sweep(b, a, a.qty, next);
      SweepPrices(b, a, a.qty, next);
      if Rests(a, s.left) {
        SweepServesLine(b, a, a.qty, next);
        AddUncrossed(s.book, a.orderId, Resting(a.side, a.price, s.left));
        RestDoesNotCross(s.book, a, s.left);
      }
    }
  }

  lemma RestDoesNotCross(b: Book, a: OrderAction, left: u32)
    requires Stuck(b, a, left) && Rests(a, left)
    ensures forall p :: p in b.On(a.side.Opposite()) ==> if a.side.Buy? then a.price < p else p < a.price
  {
    var opp := a.side.Opposite();
    forall p | p in b.On(opp) ensures if a.side.Buy? then a.price < p else p < a.price {
      assert !Better(opp, p, Best(opp, b.On(opp).Keys));
    }
  }

  /** An update that bypasses the matcher must not bring in a crossing price. */
  ghost predicate Passive(s: State, e: Event)
    requires WellFormed(s.book)
  {
    match e
    case Act(_, _) => true
    case Update(u) =>
      && (u.kind.AddOrder? ==> Behind(s.book, u))
      && (u.kind.ReplaceOrder? ==>
            u.orderId in s.book.orders && Queued(s.book, u.orderId) && Behind(Drop(s.book, u.orderId), u))
  }

  /** The update's price crosses nothing on the other side. */
  ghost predicate Behind(b: Book, u: BookUpdate) {
    forall p :: p in b.On(u.side.Opposite()) ==> if u.side.Buy? then u.price < p else p < u.price
  }

  /** One event keeps an uncrossed book uncrossed exactly when it is passive. */
  lemma StepUncrossed(s: State, e: Event)
    requires WellFormed(s.book) && Legal(s, e) && Uncrossed(s.book)
    ensures Uncrossed(Step(s, e).book) <==> Passive(s, e)
  {
    hide Core, Lively, Add, Drop, Reduce, Modify, MatchSpec.Match;
    match e
    case Act(a, ok) => MatchUncrossed(s.book, a, ok, s.nextId);
    case Update(u) =>
      if u.orderId in s.book.orders {
        IsQueued(s.book, u.orderId);
      }
      match u.kind {
        case AddOrder => AddUncrossed(s.book, u.orderId, Resting(u.side, u.price, u.qty));
        case CancelOrder => ReducePrices(s.book, u.orderId, u.qty);
        case ExecuteOrder => ReducePrices(s.book, u.orderId, u.qty);
        case DeleteOrder => DropPrices(s.book, u.orderId);
        case ModifyOrder => ModifyPrices(s.book, u.orderId, u.qty);
        case ReplaceOrder =>
          DropPrices(s.book, u.orderId);
          AddUncrossed(Drop(s.book, u.orderId), u.matchId, Resting(u.side, u.price, u.qty));
        case _ =>
      }
  }

  ghost predicate PassiveRun(s: State, es: seq<Event>)
    requires WellFormed(s.book) && LegalRun(s, es)
    decreases |es|
  {
    es == [] || (Passive(s, es[0]) && (StepWellFormed(s, es[0]); PassiveRun(Step(s, es[0]), es[1..])))
  }

  /** Over any run of actions and passive updates the book stays uncrossed. */
  lemma {:induction false} RunUncrossed(s: State, es: seq<Event>)
    requires WellFormed(s.book) && LegalRun(s, es) && PassiveRun(s, es) && Uncrossed(s.book)
    ensures Uncrossed(Run(s, es).book)
    decreases |es|
  {
    hide Step, Legal, Core, Lively, Passive, Uncrossed;
    if es != [] {
      StepUncrossed(s, es[0]);
      StepWellFormed(s, es[0]);
      RunUncrossed(Step(s, es[0]), es[1..]);
    }
  }

  /** One bid at 100, one ask at 200. */
  const SPREAD_BOOK :=
    Book(map[1 := Resting(Buy, 100, 5), 2 := Resting(Sell, 200, 5)], map[100 := [1]], map[200 := [2]])

  lemma SpreadWellFormed()
    ensures WellFormed(SPREAD_BOOK) && Queued(SPREAD_BOOK, 2)
    ensures var d := Drop(SPREAD_BOOK, 2); 100 in d.On(Buy) && 3 !in d.orders
  {
    var b := SPREAD_BOOK;
    assert b.On(Buy)[100][0] == 1 && b.On(Sell)[200][0] == 2;
    assert Queued(b, 1) && Queued(b, 2);
  }

  /** A replacement bypasses the matcher: moving an ask below the best bid crosses the book. */
  lemma ReplaceCanCross()
    ensures var b, u := SPREAD_BOOK, BookUpdate(ReplaceOrder, Sell, 90, 5, 0, 2, 3);
            && WellFormed(b) && Uncrossed(b) && Legal(State(b, 1), Update(u))
            && !Uncrossed(Step(State(b, 1), Update(u)).book)
  {
    hide WellFormed, Queued, Drop, Add;
    SpreadWellFormed();
    var d := Drop(SPREAD_BOOK, 2);
    DropPrices(SPREAD_BOOK, 2);
    AddUncrossed(d, 3, Resting(Sell, 90, 5));
    assert 100 in d.On(Sell.Opposite());
    assert Uncrossed(d);
  }

  // ---- Quantity is conserved -------------------------------------------------

  /** Quantity brought in, traded (counted once per trade), and taken out without a trade. */
  datatype Ledger = Ledger(submitted: nat, traded: nat, removed: nat)

  ghost function Post(s: State, e: Event, l: Ledger): Ledger
    requires WellFormed(s.book) && Legal(s, e)
  {
    match e
    case Act(a, ok) =>
      var o := MatchSpec.Match(s.book, a, ok, s.nextId);
      Ledger(l.submitted + a.qty,
             l.traded + SumFills(o.fills),
             l.removed + if ok && a.kind == Limit then 0 else o.left)
    case Update(u) =>
      match u.kind
      case AddOrder => l.(submitted := l.submitted + u.qty)
      case CancelOrder => l.(removed := l.removed + u.qty)
      case ExecuteOrder => l.(removed := l.removed + u.qty)
      case DeleteOrder => l.(removed := l.removed + s.book.orders[u.orderId].qty)
      case ModifyOrder => l.(submitted := l.submitted + Max(0, u.qty - s.book.orders[u.orderId].qty),
                             removed := l.removed + Max(0, s.book.orders[u.orderId].qty - u.qty))
      case ReplaceOrder => l.(submitted := l.submitted + u.qty,
                              removed := l.removed + s.book.orders[u.orderId].qty)
      case _ => l
  }

  /** The balance of a book and a ledger. */
  ghost predicate Balanced(b: Book, l: Ledger) {
    l.submitted == Total(b.orders, Everything()) + 2 * l.traded + l.removed
  }

  /**
    One match: fills and rest make up the quantity, the opposite side shrinks by the fills, the own side grows by what
    comes to rest.
   */
  lemma MatchConserves(b: Book, a: OrderAction, ok: bool, next: u64)
    requires WellFormed(b) && Enterable(b, a, ok, next)
    ensures var o := MatchSpec.Match(b, a, ok, next);
            var rest := if ok && a.kind == Limit then o.left else 0;
            && SumFills(o.fills) + o.left == a.qty
            && Total(o.book.orders, OnSide(a.side.Opposite())) ==
               Total(b.orders, OnSide(a.side.Opposite())) - SumFills(o.fills)
            && Total(o.book.orders, OnSide(a.side)) == Total(b.orders, OnSide(a.side)) + rest
            && Total(o.book.orders, Everything()) == Total(b.orders, Everything()) - SumFills(o.fills) + rest
  {
    hide Sweep, Core, Lively, ScanFinds, Add, Total;
    if Proceeds(b, a, ok) {
      var s := Sweep(b, a, a.qty, next);
      var opp := a.side.Opposite();
      SweepServesLine(b, a, a.qty, next);
      SweepTotal(b, a, a.qty, next, OnSide(opp), true);
      SweepTotal(b, a, a.qty, next, OnSide(a.side), false);
      SweepTotal(b, a, a.qty, next, Everything(), true);
      if Rests(a, s.left) {
        var o := Resting(a.side, a.price, s.left);
        AddTotal(s.book, a.orderId, o, OnSide(opp));
        AddTotal(s.book, a.orderId, o, OnSide(a.side));
        AddTotal(s.book, a.orderId, o, Everything());
      }
    }
  }

  lemma StepBalanced(s: State, e: Event, l: Ledger)
    requires WellFormed(s.book) && Legal(s, e) && Balanced(s.book, l)
    ensures Balanced(Step(s, e).book, Post(s, e, l))
  {
    hide Core, Lively, Add, Drop, Reduce, Modify, MatchSpec.Match, Total;
    var sel := Everything();
    match e
    case Act(a, ok) => MatchConserves(s.book, a, ok, s.nextId);
    case Update(u) =>
      if u.orderId in s.book.orders {
        IsQueued(s.book, u.orderId);
      }
      match u.kind {
        case AddOrder => AddTotal(s.book, u.orderId, Resting(u.side, u.price, u.qty), sel);
        case CancelOrder => ReduceTotal(s.book, u.orderId, u.qty, sel);
        case ExecuteOrder => ReduceTotal(s.book, u.orderId, u.qty, sel);
        case DeleteOrder => DropTotal(s.book, u.orderId, sel);
        case ModifyOrder => ModifyTotal(s.book, u.orderId, u.qty, sel);
        case ReplaceOrder =>
          DropTotal(s.book, u.orderId, sel);
          AddTotal(Drop(s.book, u.orderId), u.matchId, Resting(u.side, u.price, u.qty), sel);
        case _ =>
      }
  }

  ghost function RunLedger(s: State, es: seq<Event>, l: Ledger): Ledger
    requires WellFormed(s.book) && LegalRun(s, es)
    decreases |es|
  {
    if es == [] then l
    else StepWellFormed(s, es[0]); RunLedger(Step(s, es[0]), es[1..], Post(s, es[0], l))
  }

  /** Over any run: submitted is resting plus twice traded plus cancelled, discarded or rejected. */
  lemma {:induction false} RunBalanced(s: State, es: seq<Event>, l: Ledger)
    requires WellFormed(s.book) && LegalRun(s, es) && Balanced(s.book, l)
    ensures Balanced(Run(s, es).book, RunLedger(s, es, l))
    decreases |es|
  {
    hide Step, Legal, Core, Lively, Balanced, Post;
    if es != [] {
      StepBalanced(s, es[0], l);
      StepWellFormed(s, es[0]);
      RunBalanced(Step(s, es[0]), es[1..], Post(s, es[0], l));
    }
  }

  lemma StartBalanced()
    ensures Uncrossed(START.book) && Balanced(START.book, Ledger(0, 0, 0))
  {
  }

  /** A new engine: never crossed on passive runs, and balanced on every run. */
  lemma FromStart(es: seq<Event>)
    requires LegalFromStart(es)
    ensures WellFormed(START.book)
    ensures PassiveRun(START, es) ==> Uncrossed(Run(START, es).book)
    ensures Balanced(Run(START, es).book, RunLedger(START, es, Ledger(0, 0, 0)))
  {
    hide Core, Lively, Run, LegalRun, PassiveRun, RunLedger, Balanced, Uncrossed;
    EmptyWellFormed();
    StartBalanced();
    if PassiveRun(START, es) {
      RunUncrossed(START, es);
    }
    RunBalanced(START, es, Ledger(0, 0, 0));
  }
}
