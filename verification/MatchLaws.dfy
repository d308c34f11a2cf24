/** What a match does to each single order: its loss is its fills, and the residual queues up behind its own side. */
module MatchLaws {
  import opened Base
  import opened BookSpec
  import opened MatchSpec
  import opened PriceTime
  import opened BookLaws

  /** What the fills took from one resting order. */
  function FilledOf(fills: seq<Fill>, id: u64): nat {
    if fills == [] then 0 else (if fills[0].resting == id then fills[0].qty else 0) + FilledOf(fills[1..], id)
  }

  /** An order's quantity; none once it is gone. */
  function QtyOf(b: Book, id: u64): nat {
    if id in b.orders then b.orders[id].qty else 0
  }

  /** No order of c is new, or has changed side or price. */
  ghost predicate SamePlaces(b: Book, c: Book) {
    forall id :: id in c.orders ==>
      id in b.orders && c.orders[id].side == b.orders[id].side && c.orders[id].price == b.orders[id].price
  }

  lemma ReduceOne(b: Book, id: u64, qty: u32)
    requires id in b.orders && Queued(b, id) && qty <= b.orders[id].qty
    ensures var c := Reduce(b, id, qty);
            SamePlaces(b, c) && forall x :: QtyOf(c, x) == QtyOf(b, x) - if x == id then qty else 0
  {
    hide Position, Without;
  }

  lemma FilledFirst(f: Fill, fills: seq<Fill>, id: u64)
    ensures FilledOf([f] + fills, id) == (if f.resting == id then f.qty else 0) + FilledOf(fills, id)
  {
    assert ([f] + fills)[1..] == fills;
  }

  /** Every resting order loses exactly its fills; nothing else about any order changes. */
  lemma {:induction false} SweepTakesFills(b: Book, a: OrderAction, left: u32, next: u64)
    requires WellFormed(b)
    ensures var s := Sweep(b, a, left, next);
            SamePlaces(b, s.book) && forall id :: QtyOf(s.book, id) + FilledOf(s.fills, id) == QtyOf(b, id)
    decreases left
  {
    hide Sweep, Core, Lively, Queued, Reduce, Stuck;
    if Stuck(b, a, left) {
      SweepStuck(b, a, left, next);
    } else {
      SweepStep(b, a, left, next);
      var id := First(b, a.side.Opposite());
      var qty := Min(left, b.orders[id].qty);
      var b' := Reduce(b, id, qty);
      ReduceOne(b, id, qty);
      NonemptySide(b, a, left);
      SweepTakesFills(b', a, left - qty, Succ64(next));
      var f, rest := Fill(next, a.orderId, id, b.orders[id].price, qty), Sweep(b', a, left - qty, Succ64(next));
      forall x ensures QtyOf(rest.book, x) + FilledOf([f] + rest.fills, x) == QtyOf(b, x) {
        FilledFirst(f, rest.fills, x);
      }
    }
  }

  /** A sweep leaves the queues of the action's own side alone. */
  lemma {:induction false} SweepKeepsOwnSide(b: Book, a: OrderAction, left: u32, next: u64)
    requires WellFormed(b)
    ensures Sweep(b, a, left, next).book.On(a.side) == b.On(a.side)
    decreases left
  {
    hide Sweep, Core, Lively, Queued, Reduce, Stuck, Line;
    if Stuck(b, a, left) {
      SweepStuck(b, a, left, next);
    } else {
      SweepStep(b, a, left, next);
      var id := First(b, a.side.Opposite());
      var qty := Min(left, b.orders[id].qty);
      NonemptySide(b, a, left);
      ServeFirst(b, a.side.Opposite(), qty);
      SweepKeepsOwnSide(Reduce(b, id, qty), a, left - qty, Succ64(next));
    }
  }

  lemma NonemptySide(b: Book, a: OrderAction, left: u32)
    requires !Stuck(b, a, left)
    ensures left > 0 && b.On(a.side.Opposite()) != map[]
  {
  }

  /**
    After a match every old order has its quantity less its fills; the only possible newcomer is the action itself, with
    the unfilled rest of a limit order, behind everyone at its limit on its own side, where nobody else moves.
   */
  lemma MatchTakesFills(b: Book, a: OrderAction, riskOk: bool, next: u64)
    requires WellFormed(b) && Enterable(b, a, riskOk, next)
    ensures var o := Match(b, a, riskOk, next);
            var rests := riskOk && a.kind == Limit && o.left > 0;
            && (forall id :: !(rests && id == a.orderId) ==> QtyOf(o.book, id) + FilledOf(o.fills, id) == QtyOf(b, id))
            && (rests ==> a.orderId in o.book.orders && o.book.orders[a.orderId] == Resting(a.side, a.price, o.left))
            && (forall p :: Queue(o.book, a.side, p) ==
                            Queue(b, a.side, p) + if rests && p == a.price then [a.orderId] else [])
  {
    hide Sweep, Core, Lively, ScanFinds, Add, Stuck;
    SweepTakesFills(b, a, a.qty, next);
    SweepKeepsOwnSide(b, a, a.qty, next);
    var s := Sweep(b, a, a.qty, next);
    AddPlacement(s.book, a.orderId, Resting(a.side, a.price, s.left));
  }
}
