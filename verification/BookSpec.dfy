/** The order book as a value: live orders, and for each side the FIFO of order ids at each price. */
module BookSpec {
  import opened Base

  datatype Resting = Resting(side: Side, price: u32, qty: u32)

  datatype Book = Book(orders: map<u64, Resting>, bids: map<u32, seq<u64>>, asks: map<u32, seq<u64>>) {
    function On(side: Side): map<u32, seq<u64>> {
      if side.Buy? then bids else asks
    }

    function With(side: Side, queues: map<u32, seq<u64>>): Book {
      if side.Buy? then this.(bids := queues) else this.(asks := queues)
    }

    function Levels(): nat {
      |bids| + |asks|
    }
  }

  const EMPTY_BOOK := Book(map[], map[], map[])

  // ---- Well-formedness -------------------------------------------------------

  /** Queue q at a price of a side lists distinct live orders of that side and price. */
  ghost predicate QueueOk(b: Book, side: Side, price: u32, q: seq<u64>) {
    && NoDup(q)
    && forall k :: 0 <= k < |q| ==>
         q[k] in b.orders && b.orders[q[k]].side == side && b.orders[q[k]].price == price
  }

  /** Every live order waits in the queue of its side and price. */
  ghost predicate Queued(b: Book, id: u64)
    requires id in b.orders
  {
    var o := b.orders[id];
    id != 0 && o.price > 0 && o.price in b.On(o.side) && id in b.On(o.side)[o.price]
  }

  ghost predicate Core(b: Book) {
    && (forall side: Side, p :: p in b.On(side) ==> QueueOk(b, side, p, b.On(side)[p]))
    && (forall id :: id in b.orders ==> Queued(b, id))
  }

  /** No price level is left without orders, and no order without quantity. */
  ghost predicate Lively(b: Book) {
    && (forall side: Side, p :: p in b.On(side) ==> b.On(side)[p] != [])
    && (forall id :: id in b.orders ==> b.orders[id].qty > 0)
  }

  ghost predicate WellFormed(b: Book) {
    Core(b) && Lively(b)
  }

  /** Total quantity of the orders listed in q. */
  function SumQty(orders: map<u64, Resting>, q: seq<u64>): nat {
    if q == [] then 0
    else SumQty(orders, q[..|q| - 1]) + (if q[|q| - 1] in orders then orders[q[|q| - 1]].qty else 0)
  }

  /** q without the entry at position k. */
  function Without(q: seq<u64>, k: nat): seq<u64>
    requires k < |q|
  {
    q[..k] + q[k + 1..]
  }

  ghost function Position(q: seq<u64>, id: u64): (k: nat)
    requires id in q
    ensures k < |q| && q[k] == id
  {
    var k: nat :| k < |q| && q[k] == id;
    k
  }

  // ---- Operations ------------------------------------------------------------

  /** Makes sure a queue exists at the price. */
  function Open(b: Book, side: Side, price: u32): Book {
    if price in b.On(side) then b else b.With(side, b.On(side)[price := []])
  }

  /** Removes the queue at the price if it is empty. */
  function Close(b: Book, side: Side, price: u32): Book {
    if price in b.On(side) && b.On(side)[price] == [] then b.With(side, b.On(side) - {price}) else b
  }

  /** Joins an existing queue at the tail. */
  function Append(b: Book, id: u64, o: Resting): Book
    requires o.price in b.On(o.side)
  {
    b.(orders := b.orders[id := o]).With(o.side, b.On(o.side)[o.price := b.On(o.side)[o.price] + [id]])
  }

  function Add(b: Book, id: u64, o: Resting): Book {
    Append(Open(b, o.side, o.price), id, o)
  }

  function SetQty(b: Book, id: u64, qty: u32): Book
    requires id in b.orders
  {
    b.(orders := b.orders[id := b.orders[id].(qty := qty)])
  }

  /** Takes an order out of its queue; the queue itself stays. */
  ghost function Detach(b: Book, id: u64): Book
    requires id in b.orders && Queued(b, id)
  {
    var o := b.orders[id];
    var q := b.On(o.side)[o.price];
    b.(orders := b.orders - {id}).With(o.side, b.On(o.side)[o.price := Without(q, Position(q, id))])
  }

  /** Removes an order, and its level when it was the last one there. */
  ghost function Drop(b: Book, id: u64): Book
    requires id in b.orders && Queued(b, id)
  {
    Close(Detach(b, id), b.orders[id].side, b.orders[id].price)
  }

  /** Cancels or executes part of an order; the last unit removes it. */
  ghost function Reduce(b: Book, id: u64, qty: u32): Book
    requires id in b.orders && Queued(b, id) && qty <= b.orders[id].qty
  {
    if qty < b.orders[id].qty then SetQty(b, id, b.orders[id].qty - qty) else Drop(b, id)
  }

  /** A smaller quantity keeps the queue position, a larger one moves the order to the tail of its price. */
  ghost function Modify(b: Book, id: u64, qty: u32): Book
    requires id in b.orders && Queued(b, id)
  {
    var o := b.orders[id];
    if qty < o.qty then Reduce(b, id, o.qty - qty)
    else if qty > o.qty then Add(Drop(b, id), id, o.(qty := qty))
    else b
  }

  ghost function Replace(b: Book, id: u64, newId: u64, o: Resting): Book
    requires id in b.orders && Queued(b, id)
  {
    Add(Drop(b, id), newId, o)
  }

  // ---- Queues ----------------------------------------------------------------

  lemma WithoutIndex(q: seq<u64>, k: nat)
    requires k < |q| && NoDup(q)
    ensures NoDup(Without(q, k))
    ensures forall x :: x in Without(q, k) <==> x in q && x != q[k]
  {
    var r := Without(q, k);
    assert forall j :: 0 <= j < |r| ==> r[j] == q[if j < k then j else j + 1];
    forall x | x in q && x != q[k] ensures x in r {
      var j :| 0 <= j < |q| && q[j] == x;
      assert r[if j < k then j else j - 1] == x;
    }
  }

  lemma {:induction false} SumFrame(orders: map<u64, Resting>, orders': map<u64, Resting>, q: seq<u64>)
    requires forall k :: 0 <= k < |q| ==>
               q[k] in orders && q[k] in orders' && orders[q[k]].qty == orders'[q[k]].qty
    ensures SumQty(orders', q) == SumQty(orders, q)
  {
    if q != [] {
      SumFrame(orders, orders', q[..|q| - 1]);
    }
  }

  lemma {:induction false} SumConcat(orders: map<u64, Resting>, q: seq<u64>, r: seq<u64>)
    ensures SumQty(orders, q + r) == SumQty(orders, q) + SumQty(orders, r)
  {
    if r == [] {
      assert q + r == q;
    } else {
      SumConcat(orders, q, r[..|r| - 1]);
      assert (q + r)[..|q + r| - 1] == q + r[..|r| - 1];
    }
  }

  lemma SumAppend(orders: map<u64, Resting>, q: seq<u64>, id: u64)
    requires id in orders
    ensures SumQty(orders, q + [id]) == SumQty(orders, q) + orders[id].qty
  {
    assert (q + [id])[..|q|] == q;
  }

  /** An entry contributes its own quantity to the sum. */
  lemma SumWithout(orders: map<u64, Resting>, q: seq<u64>, k: nat)
    requires k < |q| && q[k] in orders
    ensures SumQty(orders, q) == SumQty(orders, Without(q, k)) + orders[q[k]].qty
  {
    assert q == q[..k] + [q[k]] + q[k + 1..];
    SumConcat(orders, q[..k] + [q[k]], q[k + 1..]);
    SumAppend(orders, q[..k], q[k]);
    SumConcat(orders, q[..k], q[k + 1..]);
  }

  /** Changing one order's quantity changes the sum of its queue by the difference. */
  lemma SumSetQty(b: Book, id: u64, qty: u32, q: seq<u64>)
    requires id in q && NoDup(q) && id in b.orders
    requires forall k :: 0 <= k < |q| ==> q[k] in b.orders
    ensures SumQty(SetQty(b, id, qty).orders, q) == SumQty(b.orders, q) - b.orders[id].qty + qty
  {
    var k := Position(q, id);
    var b' := SetQty(b, id, qty);
    WithoutIndex(q, k);
    SumWithout(b.orders, q, k);
    SumWithout(b'.orders, q, k);
    var r := Without(q, k);
    assert forall j :: 0 <= j < |r| ==> r[j] in q;
    SumFrame(b.orders, b'.orders, r);
  }

  // ---- Operations keep the book well formed ----------------------------------

  lemma QueueFrame(b: Book, b': Book, side: Side, price: u32, q: seq<u64>)
    requires QueueOk(b, side, price, q)
    requires forall id :: id in b.orders && b.orders[id].side == side && b.orders[id].price == price && id in q ==>
               id in b'.orders && b'.orders[id].side == side && b'.orders[id].price == price
    ensures QueueOk(b', side, price, q)
  {
  }

  lemma OpenCore(b: Book, side: Side, price: u32)
    requires Core(b)
    ensures Core(Open(b, side, price))
  {
    var b' := Open(b, side, price);
    forall s: Side, p | p in b'.On(s) ensures QueueOk(b', s, p, b'.On(s)[p]) {
      if p in b.On(s) {
        QueueFrame(b, b', s, p, b.On(s)[p]);
      }
    }
    forall id | id in b'.orders ensures Queued(b', id) {
      assert Queued(b, id);
    }
  }

  lemma CloseCore(b: Book, side: Side, price: u32)
    requires Core(b)
    ensures Core(Close(b, side, price))
  {
    var b' := Close(b, side, price);
    forall s: Side, p | p in b'.On(s) ensures QueueOk(b', s, p, b'.On(s)[p]) {
      QueueFrame(b, b', s, p, b.On(s)[p]);
    }
    forall id | id in b'.orders ensures Queued(b', id) {
      assert Queued(b, id);
    }
  }

  lemma AppendCore(b: Book, id: u64, o: Resting)
    requires Core(b) && o.price in b.On(o.side) && id !in b.orders && id != 0 && o.price > 0
    ensures Core(Append(b, id, o))
  {
    var b' := Append(b, id, o);
    forall s: Side, p | p in b'.On(s) ensures QueueOk(b', s, p, b'.On(s)[p]) {
      assert QueueOk(b, s, p, b.On(s)[p]);
      QueueFrame(b, b', s, p, b.On(s)[p]);
    }
    forall x | x in b'.orders ensures Queued(b', x) {
      if x == id {
        var q := b.On(o.side)[o.price];
        assert (q + [id])[|q|] == id;
      } else {
        assert Queued(b, x);
      }
    }
  }

  lemma SetQtyCore(b: Book, id: u64, qty: u32)
    requires Core(b) && id in b.orders
    ensures Core(SetQty(b, id, qty))
  {
    var b' := SetQty(b, id, qty);
    forall s: Side, p | p in b'.On(s) ensures QueueOk(b', s, p, b'.On(s)[p]) {
      QueueFrame(b, b', s, p, b.On(s)[p]);
    }
    forall x | x in b'.orders ensures Queued(b', x) {
      assert Queued(b, x);
    }
  }

  lemma DetachCore(b: Book, id: u64)
    requires Core(b) && id in b.orders
    ensures Core(Detach(b, id))
  {
    assert Queued(b, id);
    var b', o := Detach(b, id), b.orders[id];
    var q := b.On(o.side)[o.price];
    assert QueueOk(b, o.side, o.price, q);
    WithoutIndex(q, Position(q, id));
    forall s: Side, p | p in b'.On(s) ensures QueueOk(b', s, p, b'.On(s)[p]) {
      assert QueueOk(b, s, p, b.On(s)[p]);
      if s == o.side && p == o.price {
        var r := Without(q, Position(q, id));
        forall k | 0 <= k < |r| ensures r[k] in b'.orders && b'.orders[r[k]].side == s && b'.orders[r[k]].price == p {
          assert r[k] in r;
        }
      } else {
        QueueFrame(b, b', s, p, b.On(s)[p]);
      }
    }
    forall x | x in b'.orders ensures Queued(b', x) {
      assert Queued(b, x);
    }
  }

  /** Adding a fresh order, levels created on demand. */
  lemma AddWellFormed(b: Book, id: u64, o: Resting)
    requires WellFormed(b) && id !in b.orders && id != 0 && o.qty > 0 && o.price > 0
    ensures WellFormed(Add(b, id, o))
  {
    hide Core, Queued;
    OpenCore(b, o.side, o.price);
    AppendCore(Open(b, o.side, o.price), id, o);
    var b' := Add(b, id, o);
    forall s: Side, p | p in b'.On(s) ensures b'.On(s)[p] != [] {
      if !(s == o.side && p == o.price) {
        assert b'.On(s)[p] == b.On(s)[p];
      }
    }
  }

  lemma DropWellFormed(b: Book, id: u64)
    requires WellFormed(b) && id in b.orders
    ensures WellFormed(Drop(b, id))
  {
    DetachCore(b, id);
    CloseCore(Detach(b, id), b.orders[id].side, b.orders[id].price);
    assert Queued(b, id);
    var o, b' := b.orders[id], Drop(b, id);
    forall s: Side, p | p in b'.On(s) ensures b'.On(s)[p] != [] {
      if !(s == o.side && p == o.price) {
        assert b'.On(s)[p] == b.On(s)[p];
      }
    }
  }

  lemma IsQueued(b: Book, id: u64)
    requires Core(b) && id in b.orders
    ensures Queued(b, id)
  {
  }

  lemma ReduceWellFormed(b: Book, id: u64, qty: u32)
    requires WellFormed(b) && id in b.orders && qty <= b.orders[id].qty
    ensures WellFormed(Reduce(b, id, qty))
  {
    hide Core, Queued, Drop;
    if qty < b.orders[id].qty {
      var b' := SetQty(b, id, b.orders[id].qty - qty);
      SetQtyCore(b, id, b.orders[id].qty - qty);
      forall s: Side, p | p in b'.On(s) ensures b'.On(s)[p] != [] {
        assert b'.On(s) == b.On(s);
      }
    } else {
      DropWellFormed(b, id);
    }
  }

  lemma ModifyWellFormed(b: Book, id: u64, qty: u32)
    requires WellFormed(b) && id in b.orders
    ensures WellFormed(Modify(b, id, qty))
  {
    var o := b.orders[id];
    if qty < o.qty {
      ReduceWellFormed(b, id, o.qty - qty);
    } else if qty > o.qty {
      DropWellFormed(b, id);
      AddWellFormed(Drop(b, id), id, o.(qty := qty));
    }
  }

  // ---- Sizes -----------------------------------------------------------------

  /** Dropping an order frees one order entry, and one level when its price disappears. */
  lemma DropCounts(b: Book, id: u64)
    requires Core(b) && id in b.orders && Queued(b, id)
    ensures id !in Drop(b, id).orders && |Drop(b, id).orders| == |b.orders| - 1
    ensures Drop(b, id).Levels() <= b.Levels()
    ensures b.orders[id].price !in Drop(b, id).On(b.orders[id].side) ==> Drop(b, id).Levels() < b.Levels()
  {
    hide Core, Position, Without;
    var o, d := b.orders[id], Detach(b, id);
    assert d.On(o.side).Keys == b.On(o.side).Keys;
    assert |d.On(o.side)| == |d.On(o.side).Keys| && |b.On(o.side)| == |b.On(o.side).Keys|;
    assert d.On(o.side.Opposite()) == b.On(o.side.Opposite());
  }
}
