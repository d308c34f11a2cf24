/** What the mutations mean for who waits where: laws relating several of them. */
module BookLaws {
  import opened Base
  import opened BookSpec

  /** The ids waiting at a price, oldest first; nobody waits at an absent level. */
  function Queue(b: Book, side: Side, price: u32): seq<u64> {
    if price in b.On(side) then b.On(side)[price] else []
  }

  /** q without any mention of id, the others in their old order. */
  function Removed(q: seq<u64>, id: u64): seq<u64> {
    if q == [] then [] else Removed(q[..|q| - 1], id) + (if q[|q| - 1] == id then [] else [q[|q| - 1]])
  }

  /** Without empty levels, the orders and the queues determine the book. */
  lemma SameBook(a: Book, b: Book)
    requires Lively(a) && Lively(b) && a.orders == b.orders
    requires forall side: Side, p :: Queue(a, side, p) == Queue(b, side, p)
    ensures a == b
  {
    forall side: Side ensures a.On(side) == b.On(side) {
      forall p ensures p in a.On(side) <==> p in b.On(side) {
        assert Queue(a, side, p) == Queue(b, side, p);
      }
      forall p | p in a.On(side) ensures a.On(side)[p] == b.On(side)[p] {
        assert Queue(a, side, p) == Queue(b, side, p);
      }
    }
    assert a.On(Buy) == b.On(Buy) && a.On(Sell) == b.On(Sell);
  }

  // ---- Queues ----------------------------------------------------------------

  lemma {:induction false} RemovedConcat(q: seq<u64>, r: seq<u64>, id: u64)
    ensures Removed(q + r, id) == Removed(q, id) + Removed(r, id)
  {
    if r == [] {
      assert q + r == q;
    } else {
      var last := r[..|r| - 1];
      assert (q + r)[..|q + r| - 1] == q + last;
      RemovedConcat(q, last, id);
    }
  }

  lemma {:induction false} RemovedAbsent(q: seq<u64>, id: u64)
    requires id !in q
    ensures Removed(q, id) == q
  {
    if q != [] {
      RemovedAbsent(q[..|q| - 1], id);
      assert q == q[..|q| - 1] + [q[|q| - 1]];
    }
  }

  lemma {:induction false} RemovedCommutes(q: seq<u64>, i: u64, j: u64)
    ensures Removed(Removed(q, i), j) == Removed(Removed(q, j), i)
  {
    if q != [] {
      var r, x := q[..|q| - 1], [q[|q| - 1]];
      RemovedCommutes(r, i, j);
      RemovedConcat(Removed(r, i), Removed(x, i), j);
      RemovedConcat(Removed(r, j), Removed(x, j), i);
      assert Removed(x, i) == (if x[0] == i then [] else x) && Removed(x, j) == (if x[0] == j then [] else x);
    }
  }

  lemma RemovedSelf(id: u64)
    ensures Removed([id], id) == [] && Removed([], id) == []
  {
  }

  /** Removing an id from a sequence that has it in the middle only. */
  lemma RemovedAround(l: seq<u64>, id: u64, r: seq<u64>)
    requires id !in l && id !in r
    ensures Removed(l + ([id] + r), id) == l + r
  {
    hide Removed;
    RemovedConcat(l, [id] + r, id);
    RemovedConcat([id], r, id);
    RemovedAbsent(l, id);
    RemovedAbsent(r, id);
    RemovedSelf(id);
  }

  lemma WithoutIsRemoved(q: seq<u64>, k: nat)
    requires k < |q| && NoDup(q)
    ensures Without(q, k) == Removed(q, q[k])
  {
    hide Removed;
    RemovedAround(q[..k], q[k], q[k + 1..]);
    assert q == q[..k] + ([q[k]] + q[k + 1..]);
  }

  // ---- Dropping and adding ---------------------------------------------------

  lemma QueueMembers(b: Book, side: Side, price: u32)
    requires Core(b)
    ensures NoDup(Queue(b, side, price))
    ensures forall id :: id in Queue(b, side, price) ==>
              id in b.orders && b.orders[id].side == side && b.orders[id].price == price
  {
    if price in b.On(side) {
      assert QueueOk(b, side, price, b.On(side)[price]);
    }
  }

  /** Dropping an order strikes its id from every queue and changes nothing else. */
  lemma DropPlacement(b: Book, id: u64)
    requires Core(b) && id in b.orders && Queued(b, id)
    ensures Drop(b, id).orders == b.orders - {id}
    ensures forall side: Side, p :: Queue(Drop(b, id), side, p) == Removed(Queue(b, side, p), id)
  {
    var o, d := b.orders[id], Drop(b, id);
    forall side: Side, p ensures Queue(d, side, p) == Removed(Queue(b, side, p), id) {
      var q := Queue(b, side, p);
      QueueMembers(b, side, p);
      if side == o.side && p == o.price {
        WithoutIsRemoved(q, Position(q, id));
      } else {
        RemovedAbsent(q, id);
      }
    }
  }

  /** Adding an order puts its id at the tail of its price and changes nothing else. */
  lemma AddPlacement(b: Book, id: u64, o: Resting)
    ensures Add(b, id, o).orders == b.orders[id := o]
    ensures forall side: Side, p ::
              Queue(Add(b, id, o), side, p) ==
              Queue(b, side, p) + if side == o.side && p == o.price then [id] else []
  {
  }

  /** Dropping an order just added restores the book, level by level. */
  lemma AddThenDrop(b: Book, id: u64, o: Resting)
    requires WellFormed(b) && id !in b.orders && id != 0 && o.qty > 0 && o.price > 0
    ensures Queued(Add(b, id, o), id) && Drop(Add(b, id, o), id) == b
  {
    hide Core, Add, Drop, Queued, Queue, Removed;
    var a := Add(b, id, o);
    AddWellFormed(b, id, o);
    AddPlacement(b, id, o);
    IsQueued(a, id);
    DropWellFormed(a, id);
    DropPlacement(a, id);
    forall side: Side, p ensures Queue(Drop(a, id), side, p) == Queue(b, side, p) {
      var tail := if side == o.side && p == o.price then [id] else [];
      QueueMembers(b, side, p);
      RemovedConcat(Queue(b, side, p), tail, id);
      RemovedAbsent(Queue(b, side, p), id);
      RemovedSelf(id);
    }
    SameBook(Drop(a, id), b);
  }

  /** Two orders may leave in either order. */
  lemma DropsCommute(b: Book, i: u64, j: u64)
    requires WellFormed(b) && i in b.orders && j in b.orders && i != j
    requires Queued(b, i) && Queued(b, j)
    ensures Queued(Drop(b, i), j) && Queued(Drop(b, j), i)
    ensures Drop(Drop(b, i), j) == Drop(Drop(b, j), i)
  {
    hide Core, Drop, Queued, Queue, Removed;
    var bi, bj := Drop(b, i), Drop(b, j);
    DropWellFormed(b, i);
    DropWellFormed(b, j);
    DropPlacement(b, i);
    DropPlacement(b, j);
    IsQueued(bi, j);
    IsQueued(bj, i);
    DropWellFormed(bi, j);
    DropWellFormed(bj, i);
    DropPlacement(bi, j);
    DropPlacement(bj, i);
    forall side: Side, p ensures Queue(Drop(bi, j), side, p) == Queue(Drop(bj, i), side, p) {
      RemovedCommutes(Queue(b, side, p), i, j);
    }
    SameBook(Drop(bi, j), Drop(bj, i));
  }

  // ---- Reducing and modifying ------------------------------------------------

  /** What an order has left does not matter once it leaves. */
  lemma SetThenDrop(b: Book, id: u64, qty: u32)
    requires WellFormed(b) && id in b.orders && 0 < qty && Queued(b, id)
    ensures var a := SetQty(b, id, qty); WellFormed(a) && Queued(a, id) && Drop(a, id) == Drop(b, id)
  {
    hide Core, Queued, Drop, Removed;
    var a := SetQty(b, id, qty);
    SetQtyCore(b, id, qty);
    IsQueued(a, id);
    assert Lively(a) by {
      forall side: Side ensures a.On(side) == b.On(side) {
      }
    }
    DropWellFormed(a, id);
    DropWellFormed(b, id);
    DropPlacement(a, id);
    DropPlacement(b, id);
    assert a.orders - {id} == b.orders - {id};
    assert forall side: Side, p :: Queue(a, side, p) == Queue(b, side, p);
    SameBook(Drop(a, id), Drop(b, id));
  }

  /** Two reductions, the first of them partial, amount to one of their sum. */
  lemma ReducesCompose(b: Book, id: u64, x: u32, y: u32)
    requires WellFormed(b) && id in b.orders && Queued(b, id)
    requires x < b.orders[id].qty && x + y <= b.orders[id].qty
    ensures Queued(Reduce(b, id, x), id) && y <= Reduce(b, id, x).orders[id].qty
    ensures Reduce(Reduce(b, id, x), id, y) == Reduce(b, id, x + y)
  {
    hide WellFormed, Queued, Drop;
    SetThenDrop(b, id, b.orders[id].qty - x);
  }

  /**
    Modifying an order to nothing strikes it from its queue. Otherwise it gets that quantity and keeps its place unless
    the quantity grows, in which case it goes behind everyone at its own price. Nobody else changes or moves.
   */
  lemma ModifyPlacement(b: Book, id: u64, qty: u32)
    requires WellFormed(b) && id in b.orders && Queued(b, id)
    ensures Modify(b, id, qty).orders ==
            if qty == 0 then b.orders - {id} else b.orders[id := b.orders[id].(qty := qty)]
    ensures forall side: Side, p ::
              Queue(Modify(b, id, qty), side, p) ==
              if qty == 0 then Removed(Queue(b, side, p), id)
              else if qty > b.orders[id].qty && side == b.orders[id].side && p == b.orders[id].price
              then Removed(Queue(b, side, p), id) + [id] else Queue(b, side, p)
  {
    hide Core, Queued, Drop, Add, Removed;
    HeldIsQueued(b, id);
    var o := b.orders[id];
    DropPlacement(b, id);
    if qty > o.qty {
      AddPlacement(Drop(b, id), id, o.(qty := qty));
      forall side: Side, p | !(side == o.side && p == o.price)
        ensures Removed(Queue(b, side, p), id) == Queue(b, side, p)
      {
        QueueMembers(b, side, p);
        RemovedAbsent(Queue(b, side, p), id);
      }
    }
  }

  /** A replacement strikes the old id and puts the new one at the tail of its price; nobody else moves. */
  lemma ReplacePlacement(b: Book, id: u64, newId: u64, o: Resting)
    requires WellFormed(b) && id in b.orders && Queued(b, id)
    ensures Replace(b, id, newId, o).orders == (b.orders - {id})[newId := o]
    ensures forall side: Side, p ::
              Queue(Replace(b, id, newId, o), side, p) ==
              Removed(Queue(b, side, p), id) + if side == o.side && p == o.price then [newId] else []
  {
    hide Core, Queued, Drop, Add;
    DropPlacement(b, id);
    AddPlacement(Drop(b, id), newId, o);
  }

  lemma HeldIsQueued(b: Book, id: u64)
    requires WellFormed(b) && id in b.orders
    ensures Queued(b, id) && b.orders[id].qty > 0
  {
  }

  /** Growing an order and shrinking it back costs it its place and nothing more. */
  lemma GrowThenShrink(b: Book, id: u64, qty: u32)
    requires WellFormed(b) && id in b.orders && Queued(b, id) && qty > b.orders[id].qty
    ensures Queued(Modify(b, id, qty), id)
    ensures var o, m := b.orders[id], Modify(Modify(b, id, qty), id, b.orders[id].qty);
            && m.orders == b.orders
            && Queue(m, o.side, o.price) == Removed(Queue(b, o.side, o.price), id) + [id]
  {
    hide WellFormed, Modify, Queued, Queue, Removed;
    var o, a := b.orders[id], Modify(b, id, qty);
    ModifyWellFormed(b, id, qty);
    ModifyPlacement(b, id, qty);
    HeldIsQueued(a, id);
    HeldIsQueued(b, id);
    ModifyPlacement(a, id, o.qty);
  }
}
