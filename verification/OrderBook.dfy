/** The order book: pools, id map, two sides and the FIFO lists threaded through the order slots. */
module OrderBooks {
  import opened Base
  import opened ObjectPools
  import opened PriceLevels
  import opened Orders
  import opened AvlStats
  import opened FlatHashMaps
  import opened BookSides
  import opened BookSpec
  import opened BookRep
  import opened BookUpdates
  import opened PricePriority
  import Avl = AvlTree
  import S = AvlSpec

  class OrderBook {
    const orderPool: ObjectPool<Order>
    const levelPool: ObjectPool<PriceLevel>
    const orderMap: FlatHashMap
    const bids: BookSide
    const asks: BookSide
    const stats: AvlStatistics
    ghost var book: Book

    /** The memory of the components. */
    ghost function Store(): set<object> {
      {stats} + orderPool.Repr() + levelPool.Repr() + orderMap.Repr() + bids.Repr() + asks.Repr()
    }

    ghost function Repr(): set<object> {
      {this} + Store()
    }

    lemma MemoryExists()
      ensures allocated(Repr())
    {
    }

    /** The components share no memory. */
    ghost predicate Separate() {
      && bids.side == Buy && asks.side == Sell
      && {stats as object} !! orderPool.Repr() !! levelPool.Repr() !! orderMap.Repr() !! bids.Repr() !! asks.Repr()
      && this !in Store()
    }

    ghost predicate Parts()
      reads Store()
    {
      && orderPool.Valid() && levelPool.Valid() && orderMap.Valid()
      && bids.Valid(levelPool.slots[..]) && asks.Valid(levelPool.slots[..])
    }

    /** The components together represent b. */
    ghost predicate Shows(b: Book)
      reads Store()
    {
      && Separate() && Parts()
      && Rep(levelPool.slots[..], orderPool.slots[..], orderMap.contents, bids.dir, asks.dir, b)
    }

    ghost predicate Valid()
      reads Repr()
    {
      Shows(book) && Lively(book)
    }

    function SideOf(side: Side): BookSide {
      if side.Buy? then bids else asks
    }

    constructor (maxOrders: nat, maxLevels: nat, hash: Hash)
      requires 1 <= maxOrders <= INVALID && 1 <= maxLevels <= INVALID
      ensures Valid() && fresh(Repr()) && book == EMPTY_BOOK
      ensures orderPool.slots.Length == maxOrders && levelPool.slots.Length == maxLevels
      ensures orderMap.capacity == NextPowerOfTwo(maxOrders)
    {
      hide *;
      stats := new AvlStatistics();
      orderPool := new ObjectPool<Order>(maxOrders);
      levelPool := new ObjectPool<PriceLevel>(maxLevels);
      orderMap := new FlatHashMap(maxOrders, hash);
      bids := new BookSide(Buy);
      asks := new BookSide(Sell);
      book := EMPTY_BOOK;
      new;
      EmptyRep(levelPool.slots[..], orderPool.slots[..]);
      Assembled();
    }

    lemma Assembled()
      requires orderPool.Valid() && levelPool.Valid() && orderMap.Valid()
      requires bids.Valid(levelPool.slots[..]) && asks.Valid(levelPool.slots[..])
      requires Rep(levelPool.slots[..], orderPool.slots[..], orderMap.contents, bids.dir, asks.dir, EMPTY_BOOK)
      requires {this as object} !! {stats as object} !! orderPool.Repr() !! levelPool.Repr() !! orderMap.Repr()
                                !! bids.Repr() !! asks.Repr()
      requires bids.side == Buy && asks.side == Sell && book == EMPTY_BOOK
      ensures Valid()
      ensures Repr() == {this as object, stats} + orderPool.Repr() + levelPool.Repr() + orderMap.Repr() + bids.Repr()
                        + asks.Repr()
    {
    }

    // ---- Levels --------------------------------------------------------------

    lemma ShownCore()
      requires Shows(book)
      ensures Core(book)
    {
    }

    lemma SideFacts(side: Side, price: u32)
      requires Shows(book)
      ensures SideOf(side).Valid(levelPool.slots[..])
      ensures price in SideOf(side).dir <==> price in book.On(side)
    {
      PricesAgree(levelPool.slots[..], orderPool.slots[..], orderMap.contents, bids.dir, asks.dir, book, side, price);
    }

    /** Looks a level up, creating and linking it when the price has none. */
    method FindOrCreateLevel(side: Side, price: u32) returns (idx: Index)
      requires Shows(book) && price < WINDOW
      requires price in book.On(side) || book.Levels() < levelPool.slots.Length
      modifies this`book, levelPool, levelPool.slots, SideOf(side).Repr(), stats
      ensures Shows(book) && book == Open(old(book), side, price)
      ensures price in SideOf(side).dir && idx == SideOf(side).dir[price]
    {
      hide Rep, BookSide.Valid, ObjectPool.Valid, FlatHashMap.Valid;
      SideFacts(side, price);
      idx := SideOf(side).FindByPrice(levelPool, price);
      if idx == INVALID {
        idx := NewLevel(side, price);
      }
    }

    /** Creates and links a level of a side; the other side's directory and all orders stay. */
    method LinkNewLevel(side: Side, price: u32) returns (idx: Index)
      requires Separate() && Parts() && price < WINDOW
      requires price !in SideOf(side).dir && |LiveSet(levelPool.slots[..])| < levelPool.slots.Length
      modifies levelPool, levelPool.slots, SideOf(side).Repr(), stats
      ensures Parts() && SideOf(side.Opposite()).dir == old(SideOf(side.Opposite()).dir)
      ensures orderPool.slots[..] == old(orderPool.slots[..]) && orderMap.contents == old(orderMap.contents)
      ensures SideOf(side).dir == old(SideOf(side).dir)[price := idx]
      ensures var ls, ls' := old(levelPool.slots[..]), levelPool.slots[..];
              && idx < |ls| && ls[idx].Free? && LevelsKept(ls, ls', idx)
              && IsLevel(ls', idx) && SameLevel(ls'[idx].obj, PriceLevels.NewLevel(price, side))
    {
      hide Rep, BookSide.Valid, ObjectPool.Valid, FlatHashMap.Valid, LevelsKept, SameLevel;
      ghost var os := orderPool.slots[..];
      idx := SideOf(side).OpenLevel(SideOf(side.Opposite()), price, levelPool, stats);
      assert orderPool.slots[..] == os;
    }

    method NewLevel(side: Side, price: u32) returns (idx: Index)
      requires Shows(book) && price < WINDOW
      requires price !in book.On(side) && book.Levels() < levelPool.slots.Length
      modifies this`book, levelPool, levelPool.slots, SideOf(side).Repr(), stats
      ensures Shows(book) && book == Open(old(book), side, price)
      ensures price in SideOf(side).dir && idx == SideOf(side).dir[price]
    {
      hide Rep, OrderBook.Parts, LevelsKept, SameLevel, Open, LiveSet;
      ghost var ls, os, m, db, da := levelPool.slots[..], orderPool.slots[..], orderMap.contents, bids.dir, asks.dir;
      PricesAgree(ls, os, m, db, da, book, side, price);
      LiveCounts(ls, os, m, db, da, book);
      idx := LinkNewLevel(side, price);
      OpenRep(ls, levelPool.slots[..], os, m, db, da, bids.dir, asks.dir, book, side, price, idx);
      assert Shows(Open(book, side, price));
      book := Open(book, side, price);
    }

    /** The list of a level starts at the slot of its first order, and goes on to the second. */
    lemma HeadFacts(side: Side, price: u32)
      requires Valid() && price in book.On(side)
      ensures price in SideOf(side).dir && IsLevel(levelPool.slots[..], SideOf(side).dir[price])
      ensures book.On(side)[price] != []
      ensures var q, m, lvl := book.On(side)[price], orderMap.contents, levelPool.slots[SideOf(side).dir[price]].obj;
              && lvl.price == price
              && q[0] in book.orders && q[0] in m && lvl.headOrder == m[q[0]] < INVALID
              && book.orders[q[0]].side == side && book.orders[q[0]].price == price && book.orders[q[0]].qty > 0
              && HoldsOrder(orderPool.slots[..], m[q[0]], q[0], book.orders[q[0]])
              && orderPool.slots[m[q[0]]].obj.nextInLevel == SlotAt(m, q, 1)
              && (|q| > 1 ==> q[1] in m && m[q[1]] < INVALID && q[1] != q[0])
    {
      hide Core, LevelsRep, OrdersRep, BookSide.Valid, FreeChain, FlatHashMap.Valid, SumQty;
      ghost var ls, os, m, db, da := levelPool.slots[..], orderPool.slots[..], orderMap.contents, bids.dir, asks.dir;
      LevelAt(ls, os, m, db, da, book, side, price);
      var q := book.On(side)[price];
      OrderPlace(ls, os, m, db, da, book, q[0]);
      if |q| > 1 {
        OrderPlace(ls, os, m, db, da, book, q[1]);
      }
    }

    /** The cached best level is that of the best price, absent exactly when the side is empty. */
    lemma BestFacts(side: Side)
      requires Valid()
      ensures SideOf(side).bboIdx == INVALID <==> book.On(side) == map[]
      ensures book.On(side) != map[] ==>
                var p := Best(side, book.On(side).Keys);
                p in SideOf(side).dir && SideOf(side).bboIdx == SideOf(side).dir[p]
    {
      ghost var s := SideOf(side);
      assert DirOf(bids.dir, asks.dir, side).Keys == book.On(side).Keys;
      assert s.dir == map[] <==> s.dir.Keys == {};
      assert book.On(side) == map[] <==> book.On(side).Keys == {};
      if s.dir != map[] {
        s.InWindow(levelPool.slots[..], Best(side, s.dir.Keys));
      }
    }

    /** The list of a level runs through its queue's orders. */
    lemma ListFacts(side: Side, price: u32)
      requires Valid() && price in book.On(side)
      ensures var q, m := book.On(side)[price], orderMap.contents;
              forall k :: 0 <= k < |q| ==>
                && q[k] in book.orders && q[k] in m && m[q[k]] < INVALID
                && HoldsOrder(orderPool.slots[..], m[q[k]], q[k], book.orders[q[k]])
                && orderPool.slots[m[q[k]]].obj.nextInLevel == SlotAt(m, q, k + 1)
    {
      hide BookSide.Valid, FreeChain, FlatHashMap.Valid, LevelsRep, OrdersRep, LevelRep;
      ghost var ls, os, m, db, da := levelPool.slots[..], orderPool.slots[..], orderMap.contents, bids.dir, asks.dir;
      LevelAt(ls, os, m, db, da, book, side, price);
      var q := book.On(side)[price];
      forall k | 0 <= k < |q|
        ensures q[k] in book.orders && q[k] in m && m[q[k]] < INVALID
        ensures HoldsOrder(os, m[q[k]], q[k], book.orders[q[k]])
        ensures os[m[q[k]]].obj.nextInLevel == SlotAt(m, q, k + 1)
      {
        OrderAt(os, m, book, q[k]);
      }
    }

    /** The tree of a side holds exactly the side's levels, and each level shows its queue. */
    lemma TreeFacts(side: Side)
      requires Valid()
      ensures var s := SideOf(side);
              && S.Avl(s.tree) && Holds(s.tree, s.dir) && Avl.Rep(levelPool.slots[..], INVALID, s.tree)
              && s.avlRoot == Avl.Root(s.tree) && s.dir.Keys == book.On(side).Keys
              && (s.avlRoot == INVALID <==> book.On(side) == map[])
      ensures forall e :: e in S.Entries(SideOf(side).tree) ==>
                && e.price in book.On(side) && IsLevel(levelPool.slots[..], e.idx)
                && LevelRep(levelPool.slots[e.idx].obj, side, e.price, book.On(side)[e.price],
                            orderMap.contents, book.orders)
                && Linked(orderPool.slots[..], orderMap.contents, book.On(side)[e.price])
    {
      hide Rep, BookSide.Valid, FreeChain, FlatHashMap.Valid, LevelRep, Linked, S.Avl, Avl.Rep;
      ghost var ls, os, m, db, da := levelPool.slots[..], orderPool.slots[..], orderMap.contents, bids.dir, asks.dir;
      SideOf(side).TreeFacts(ls);
      forall p: u32 ensures p in SideOf(side).dir <==> p in book.On(side) {
        PricesAgree(ls, os, m, db, da, book, side, p);
      }
      assert SideOf(side).dir.Keys == book.On(side).Keys;
      assert book.On(side) == map[] <==> book.On(side).Keys == {};
      assert SideOf(side).dir == map[] <==> SideOf(side).dir.Keys == {};
      forall e | e in S.Entries(SideOf(side).tree)
        ensures e.price in book.On(side) && IsLevel(ls, e.idx)
        ensures LevelRep(ls[e.idx].obj, side, e.price, book.On(side)[e.price], m, book.orders)
        ensures Linked(os, m, book.On(side)[e.price])
      {
        RepLevel(ls, os, m, db, da, book, side, e.price);
      }
    }

    // ---- Adding ----------------------------------------------------------------

    /** There is room for one more order, and for its level if the price has none. */
    ghost predicate Room(b: Book, side: Side, price: u32) {
      && |b.orders| < orderPool.slots.Length
      && 4 * (|b.orders| + 1) < 3 * orderMap.capacity
      && (price in b.On(side) || b.Levels() < levelPool.slots.Length)
    }

    /** What add_order asserts of its caller. */
    ghost predicate CanAdd(b: Book, id: u64, o: Resting) {
      && id != 0 && id !in b.orders
      && o.qty > 0 && 0 < o.price < WINDOW
      && Room(b, o.side, o.price)
    }

    /** Gives an order a slot and enters it in the id map. */
    method StoreOrder(o: Order) returns (oi: Index)
      requires Separate() && Parts()
      requires |LiveSet(orderPool.slots[..])| < orderPool.slots.Length
      requires o.orderId != 0 && 4 * (|orderMap.contents| + 1) < 3 * orderMap.capacity
      modifies orderPool.Repr(), orderMap.Repr()
      ensures Parts()
      ensures oi < orderPool.slots.Length && old(orderPool.slots[..])[oi].Free?
      ensures orderPool.slots[..] == old(orderPool.slots[..])[oi := Live(o)]
      ensures orderMap.contents == old(orderMap.contents)[o.orderId := oi]
    {
      hide FreeChain, FlatHashMap.Valid, BookSide.Valid;
      oi := orderPool.Allocate(o);
      ghost var os := orderPool.slots[..];
      var inserted := orderMap.Insert(o.orderId, oi);
      assert inserted;
      assert orderPool.slots[..] == os;
    }

    /** Threads slot oi behind the tail of level li and updates the level's ends, total and count. */
    method LinkTail(oi: Index, li: Index, qty: u32)
      requires Separate() && Parts()
      requires IsLevel(levelPool.slots[..], li)
      requires var tail := levelPool.slots[li].obj.tailOrder;
               tail != INVALID ==> tail < orderPool.slots.Length && orderPool.slots[tail].Live?
      modifies orderPool.slots, levelPool.slots
      ensures Parts()
      ensures var lvl := old(levelPool.slots[li].obj);
              && levelPool.slots[..] ==
                 old(levelPool.slots[..])[li := Live(Grown(lvl, lvl.tailOrder == INVALID, oi, qty))]
              && orderPool.slots[..] ==
                 if lvl.tailOrder == INVALID then old(orderPool.slots[..])
                 else old(orderPool.slots[..])[lvl.tailOrder :=
                        Live(old(orderPool.slots[lvl.tailOrder].obj).(nextInLevel := oi))]
    {
      hide FreeChain, BookSide.Valid, FlatHashMap.Valid;
      ghost var ls := levelPool.slots[..];
      var lvl := levelPool.slots[li].obj;
      if lvl.tailOrder != INVALID {
        orderPool.Put(lvl.tailOrder, orderPool.slots[lvl.tailOrder].obj.(nextInLevel := oi));
      }
      ghost var os := orderPool.slots[..];
      assert levelPool.slots[..] == ls;
      levelPool.Put(li, Grown(lvl, lvl.tailOrder == INVALID, oi, qty));
      assert orderPool.slots[..] == os;
      bids.KeptByPayload(ls, levelPool.slots[..], li);
      asks.KeptByPayload(ls, levelPool.slots[..], li);
    }

    lemma Bounded()
      requires Parts()
      ensures orderPool.slots.Length <= INVALID && levelPool.slots.Length <= INVALID
    {
    }

    /** Gives an order a slot and threads it behind the tail of level li. */
    method StoreAtTail(o: Order, li: Index, ghost q: seq<u64>) returns (oi: Index)
      requires Separate() && Parts() && IsLevel(levelPool.slots[..], li)
      requires |LiveSet(orderPool.slots[..])| < orderPool.slots.Length
      requires o.orderId != 0 && 4 * (|orderMap.contents| + 1) < 3 * orderMap.capacity
      requires TailReady(orderPool.slots[..], orderMap.contents, q)
      requires var tail := levelPool.slots[li].obj.tailOrder;
               && tail == (if q == [] then INVALID else orderMap.contents[q[|q| - 1]])
               && (q == [] <==> tail == INVALID)
      modifies orderPool.Repr(), orderMap.Repr(), levelPool.slots
      ensures Parts()
      ensures oi < orderPool.slots.Length && old(orderPool.slots[..])[oi].Free?
      ensures TailReady(old(orderPool.slots[..]), old(orderMap.contents), q)
      ensures orderPool.slots[..] == Appended(old(orderPool.slots[..]), old(orderMap.contents), q, oi, o)
      ensures orderMap.contents == old(orderMap.contents)[o.orderId := oi]
      ensures Stored(orderPool.slots[..], orderMap.contents, o)
      ensures levelPool.slots[..] ==
              old(levelPool.slots[..])[li := Live(Grown(old(levelPool.slots[li].obj), q == [], oi, o.remainingQty))]
    {
      hide OrderBook.Parts, LiveSet, Wrap32, Appended;
      ghost var ls, os, m := levelPool.slots[..], orderPool.slots[..], orderMap.contents;
      oi := StoreOrder(o);
      assert levelPool.slots[..] == ls && orderPool.slots[..] == os[oi := Live(o)];
      LinkTail(oi, li, o.remainingQty);
      AppendedInSteps(os, m, q, oi, o, ls[li].obj.tailOrder);
    }

    /** Stores an order and links it at the tail of its level. */
    method AppendOrder(o: Order, li: Index)
      requires Shows(book) && o.price in book.On(o.side) && o.nextInLevel == INVALID
      requires o.price in SideOf(o.side).dir && li == SideOf(o.side).dir[o.price]
      requires o.orderId != 0 && o.orderId !in book.orders && o.price > 0
      requires |book.orders| < orderPool.slots.Length && 4 * (|book.orders| + 1) < 3 * orderMap.capacity
      modifies this`book, orderPool.Repr(), orderMap.Repr(), levelPool.slots
      ensures Shows(book) && book == Append(old(book), o.orderId, AsResting(o))
      ensures Stored(orderPool.slots[..], orderMap.contents, o)
    {
      hide Rep, OrderBook.Parts, LiveSet, Append, Appended, TailReady, Stored;
      ghost var ls, os, m, db, da := levelPool.slots[..], orderPool.slots[..], orderMap.contents, bids.dir, asks.dir;
      ghost var q := book.On(o.side)[o.price];
      LiveCounts(ls, os, m, db, da, book);
      Bounded();
      TailAt(ls, os, m, db, da, book, o.side, o.price);
      var oi := StoreAtTail(o, li, q);
      assert bids.dir == db && asks.dir == da;
      AppendRep(ls, levelPool.slots[..], os, m, db, da, book, oi, o, li, q);
      assert Shows(Append(book, o.orderId, AsResting(o)));
      book := Append(book, o.orderId, AsResting(o));
    }

    /** Adds a resting order at the tail of its price level. */
    method AddOrder(u: BookUpdate)
      requires Valid() && CanAdd(book, u.orderId, Resting(u.side, u.price, u.qty))
      modifies Repr()
      ensures Valid() && book == Add(old(book), u.orderId, Resting(u.side, u.price, u.qty))
      ensures Stored(orderPool.slots[..], orderMap.contents,
                     Order(u.orderId, u.timestampNs, u.price, u.qty, INVALID, u.side))
    {
      hide Rep, OrderBook.Parts, Core;
      ShownCore();
      AddWellFormed(book, u.orderId, Resting(u.side, u.price, u.qty));
      var li := FindOrCreateLevel(u.side, u.price);
      AppendOrder(Order(u.orderId, u.timestampNs, u.price, u.qty, INVALID, u.side), li);
    }

    // ---- Removing --------------------------------------------------------------

    /** Walks the list from head to the order in front of slot oi. */
    method Predecessor(head: Index, oi: Index, ghost m: IdMap, ghost q: seq<u64>, ghost k: nat) returns (pred: Index)
      requires Threaded(orderPool.slots[..], m, q) && head == SlotAt(m, q, 0)
      requires 0 < k < |q| && m[q[k]] == oi
      ensures pred == m[q[k - 1]]
    {
      hide Threaded, Linked;
      ghost var os := orderPool.slots[..];
      SpotAt(os, m, q, 0);
      SpotAt(os, m, q, k);
      pred := head;
      ghost var j := 0;
      while orderPool.slots[pred].obj.nextInLevel != oi
        invariant 0 <= j < k && SpotReady(os, m, q, j) && pred == m[q[j]]
        invariant os[pred].obj.nextInLevel == SlotAt(m, q, j + 1)
        decreases k - j
      {
        SpotAt(os, m, q, j + 1);
        pred := orderPool.slots[pred].obj.nextInLevel;
        j := j + 1;
      }
      SpotAt(os, m, q, j + 1);
    }

    /** Takes slot oi out of the list of level li and frees it; the level's total is already adjusted. */
    method UnlinkOrder(oi: Index, li: Index, ghost m: IdMap, ghost q: seq<u64>, ghost k: nat)
      requires Separate() && orderPool.Valid() && levelPool.Valid()
      requires bids.Valid(levelPool.slots[..]) && asks.Valid(levelPool.slots[..])
      requires Threaded(orderPool.slots[..], m, q) && k < |q| && oi == m[q[k]]
      requires IsLevel(levelPool.slots[..], li)
      requires levelPool.slots[li].obj.headOrder == SlotAt(m, q, 0) && levelPool.slots[li].obj.orderCount == |q|
      modifies orderPool.Repr(), levelPool.slots
      ensures orderPool.Valid() && levelPool.Valid()
      ensures bids.Valid(levelPool.slots[..]) && asks.Valid(levelPool.slots[..])
      ensures SpotReady(old(orderPool.slots[..]), m, q, k)
      ensures orderPool.slots[..] == Unlinked(old(orderPool.slots[..]), m, q, k, old(orderPool.freeHead))
      ensures levelPool.slots[..] == old(levelPool.slots[..])[li :=
                Live(Bypassed(old(levelPool.slots[li].obj), SlotAt(m, q, k - 1),
                              old(orderPool.slots[oi].obj).nextInLevel))]
    {
      hide FreeChain, BookSide.Valid, Threaded, Linked, NoDup;
      SpotAt(orderPool.slots[..], m, q, k);
      ghost var ls, os := levelPool.slots[..], orderPool.slots[..];
      var lvl := levelPool.slots[li].obj;
      var next := orderPool.slots[oi].obj.nextInLevel;
      var pred := INVALID;
      if lvl.headOrder != oi {
        pred := Predecessor(lvl.headOrder, oi, m, q, k);
        orderPool.Put(pred, orderPool.slots[pred].obj.(nextInLevel := next));
      }
      assert levelPool.slots[..] == ls;
      levelPool.Put(li, Bypassed(lvl, pred, next));
      ghost var ls1 := levelPool.slots[..];
      orderPool.Deallocate(oi);
      assert levelPool.slots[..] == ls1;
      bids.KeptByPayload(ls, ls1, li);
      asks.KeptByPayload(ls, ls1, li);
    }

    /**
      The list, map and pool part of a deletion. ls0 and os0 are the slots before the caller took the order's
      quantity off its level and possibly off the order itself.
     */
    method DetachOrder(id: u64, oi: Index, li: Index, ghost ls0: LevelSlots, ghost os0: OrderSlots, ghost r: u32)
      requires Separate() && Parts()
      requires Rep(ls0, os0, orderMap.contents, bids.dir, asks.dir, book)
      requires id in book.orders && id in orderMap.contents && oi == orderMap.contents[id]
      requires var o := book.orders[id];
               && o.price in SideOf(o.side).dir && li == SideOf(o.side).dir[o.price]
               && IsLevel(ls0, li) && oi < |os0| && os0[oi].Live?
               && levelPool.slots[..] == ls0[li := Live(LessQty(ls0[li].obj, o.qty))]
               && orderPool.slots[..] == os0[oi := Live(os0[oi].obj.(remainingQty := r))]
      modifies this`book, orderPool.Repr(), orderMap.Repr(), levelPool.slots
      ensures Queued(old(book), id)
      ensures Shows(book) && book == Detach(old(book), id)
      ensures orderMap.contents == old(orderMap.contents) - {id}
    {
      hide Rep, BookSide.Valid, FreeChain, FlatHashMap.Valid, Threaded, Linked, NoDup, Unlinked;
      ghost var m, db, da, o := orderMap.contents, bids.dir, asks.dir, book.orders[id];
      OrderPlace(ls0, os0, m, db, da, book, id);
      ghost var q := book.On(o.side)[o.price];
      ghost var k, f := Position(q, id), orderPool.freeHead;
      UnlinkedSame(os0, orderPool.slots[..], m, q, k, f, r);
      ghost var ls1, os1 := levelPool.slots[..], orderPool.slots[..];
      var found := orderMap.Erase(id);
      assert orderPool.slots[..] == os1 && levelPool.slots[..] == ls1;
      UnlinkOrder(oi, li, m, q, k);
      assert bids.dir == db && asks.dir == da && orderMap.contents == m - {id};
      DetachRep(ls0, levelPool.slots[..], os0, m, db, da, book, id, k, li, q, f);
      assert Shows(Detach(book, id));
      book := Detach(book, id);
    }

    /** Removes and frees a level whose last order has gone. */
    method CloseIfEmpty(side: Side, price: u32, li: Index)
      requires Shows(book) && price in book.On(side)
      requires price in SideOf(side).dir && li == SideOf(side).dir[price]
      modifies this`book, levelPool.Repr(), SideOf(side).Repr(), stats
      ensures Shows(book) && book == Close(old(book), side, price)
    {
      hide Rep, BookSide.Valid, ObjectPool.Valid, FlatHashMap.Valid, LevelsKept, SameLevel;
      ghost var ls, os, m, db, da := levelPool.slots[..], orderPool.slots[..], orderMap.contents, bids.dir, asks.dir;
      EmptyLevel(ls, os, m, db, da, book, side, price);
      if levelPool.slots[li].obj.orderCount == 0 {
        SideOf(side).CloseLevel(SideOf(side.Opposite()), li, levelPool, stats);
        assert orderPool.slots[..] == os && orderMap.contents == m;
        CloseRep(ls, levelPool.slots[..], os, m, db, da, bids.dir, asks.dir, book, side, price, li);
        book := Close(book, side, price);
      }
    }

    /** Unlinks and frees an order, and its level when that was its last order. */
    method DeleteOrderInternal(id: u64, oi: Index, li: Index, ghost ls0: LevelSlots, ghost os0: OrderSlots,
                               ghost r: u32)
      requires Separate() && Parts() && Lively(book)
      requires Rep(ls0, os0, orderMap.contents, bids.dir, asks.dir, book)
      requires id in book.orders && id in orderMap.contents && oi == orderMap.contents[id]
      requires var o := book.orders[id];
               && o.price in SideOf(o.side).dir && li == SideOf(o.side).dir[o.price]
               && IsLevel(ls0, li) && oi < |os0| && os0[oi].Live?
               && os0[oi].obj.side == o.side && os0[oi].obj.price == o.price
               && levelPool.slots[..] == ls0[li := Live(LessQty(ls0[li].obj, o.qty))]
               && orderPool.slots[..] == os0[oi := Live(os0[oi].obj.(remainingQty := r))]
      modifies Repr()
      ensures Queued(old(book), id)
      ensures Valid() && book == Drop(old(book), id)
      ensures orderMap.contents == old(orderMap.contents) - {id}
    {
      hide Rep, OrderBook.Parts, Core;
      var order := orderPool.slots[oi].obj;
      RepCore(ls0, os0, orderMap.contents, bids.dir, asks.dir, book);
      DropWellFormed(book, id);
      DetachOrder(id, oi, li, ls0, os0, r);
      CloseIfEmpty(order.side, order.price, li);
    }

    /** Finds the slots of a live order and of its level. */
    method Locate(id: u64) returns (oi: Index, li: Index)
      requires Shows(book) && id in book.orders
      ensures id in orderMap.contents && oi == orderMap.contents[id]
      ensures Queued(book, id) && HoldsOrder(orderPool.slots[..], oi, id, book.orders[id])
      ensures var o := book.orders[id];
              o.price in SideOf(o.side).dir && li == SideOf(o.side).dir[o.price] && IsLevel(levelPool.slots[..], li)
    {
      hide Rep, BookSide.Valid, FreeChain, FlatHashMap.Valid;
      OrderPlace(levelPool.slots[..], orderPool.slots[..], orderMap.contents, bids.dir, asks.dir, book, id);
      oi := orderMap.Find(id);
      var order := orderPool.slots[oi].obj;
      li := SideOf(order.side).FindByPrice(levelPool, order.price);
    }

    /** Takes quantity off an order and off its level. */
    method TakeQty(oi: Index, li: Index, remaining: u32, qty: u32)
      requires Separate() && Parts()
      requires oi < orderPool.slots.Length && orderPool.slots[oi].Live? && IsLevel(levelPool.slots[..], li)
      modifies orderPool.slots, levelPool.slots
      ensures Parts()
      ensures orderPool.slots[..] ==
              old(orderPool.slots[..])[oi := Live(old(orderPool.slots[oi].obj).(remainingQty := remaining))]
      ensures levelPool.slots[..] == old(levelPool.slots[..])[li := Live(LessQty(old(levelPool.slots[li].obj), qty))]
    {
      hide BookSide.Valid, FreeChain, FlatHashMap.Valid;
      ghost var ls := levelPool.slots[..];
      orderPool.Put(oi, orderPool.slots[oi].obj.(remainingQty := remaining));
      ghost var os := orderPool.slots[..];
      assert levelPool.slots[..] == ls;
      levelPool.Put(li, LessQty(levelPool.slots[li].obj, qty));
      assert orderPool.slots[..] == os;
      bids.KeptByPayload(ls, levelPool.slots[..], li);
      asks.KeptByPayload(ls, levelPool.slots[..], li);
    }

    /** Finds an order and takes quantity off it and off its level. */
    method TakeOff(id: u64, qty: u32) returns (oi: Index, li: Index, remaining: u32)
      requires Shows(book) && id in book.orders && qty <= book.orders[id].qty
      modifies orderPool.slots, levelPool.slots
      ensures Parts() && remaining == book.orders[id].qty - qty
      ensures TakenOff(old(levelPool.slots[..]), levelPool.slots[..], old(orderPool.slots[..]), orderPool.slots[..],
                       orderMap.contents, bids.dir, asks.dir, book, id, oi, li, qty, remaining)
    {
      hide Rep, OrderBook.Parts, Core, Lively;
      oi, li := Locate(id);
      remaining := orderPool.slots[oi].obj.remainingQty - qty;
      TakeQty(oi, li, remaining, qty);
    }

    /** Cancels part or all of an order. */
    method CancelOrder(u: BookUpdate)
      requires Valid() && u.orderId in book.orders && u.qty <= book.orders[u.orderId].qty
      modifies Repr()
      ensures Queued(old(book), u.orderId)
      ensures Valid() && book == Reduce(old(book), u.orderId, u.qty)
      ensures orderMap.contents ==
              if u.qty < old(book.orders[u.orderId].qty) then old(orderMap.contents)
              else old(orderMap.contents) - {u.orderId}
    {
      hide Rep, OrderBook.Parts, Core, Lively;
      ShownCore();
      ReduceWellFormed(book, u.orderId, u.qty);
      ghost var ls, os, m, db, da := levelPool.slots[..], orderPool.slots[..], orderMap.contents, bids.dir, asks.dir;
      var oi, li, remaining := TakeOff(u.orderId, u.qty);
      if remaining == 0 {
        DeleteOrderInternal(u.orderId, oi, li, ls, os, 0);
        return;
      }
      SetQtyRep(ls, levelPool.slots[..], os, orderPool.slots[..], m, db, da, book, u.orderId, remaining, li);
      assert Shows(SetQty(book, u.orderId, remaining));
      book := SetQty(book, u.orderId, remaining);
    }

    /** For the book, an execution is a cancellation of the filled quantity. */
    method ExecuteOrder(u: BookUpdate)
      requires Valid() && u.orderId in book.orders && u.qty <= book.orders[u.orderId].qty
      modifies Repr()
      ensures Queued(old(book), u.orderId)
      ensures Valid() && book == Reduce(old(book), u.orderId, u.qty)
      ensures orderMap.contents ==
              if u.qty < old(book.orders[u.orderId].qty) then old(orderMap.contents)
              else old(orderMap.contents) - {u.orderId}
    {
      CancelOrder(u);
    }

    /** Removes an order outright. */
    method DeleteOrder(u: BookUpdate)
      requires Valid() && u.orderId in book.orders
      modifies Repr()
      ensures Queued(old(book), u.orderId)
      ensures Valid() && book == Drop(old(book), u.orderId)
    {
      hide Rep, BookSide.Valid, FreeChain, FlatHashMap.Valid, Core, Lively;
      var oi, li := Locate(u.orderId);
      ghost var ls, os, m, db, da := levelPool.slots[..], orderPool.slots[..], orderMap.contents, bids.dir, asks.dir;
      var order := orderPool.slots[oi].obj;
      TakeQty(oi, li, order.remainingQty, order.remainingQty);
      assert bids.dir == db && asks.dir == da && orderMap.contents == m;
      DeleteOrderInternal(u.orderId, oi, li, ls, os, order.remainingQty);
    }

    /** Deletes the old order and adds the new one under its own id, side, price and quantity. */
    method ReplaceOrder(u: BookUpdate)
      requires Valid() && u.orderId in book.orders
      requires Queued(book, u.orderId) && CanAdd(Drop(book, u.orderId), u.matchId, Resting(u.side, u.price, u.qty))
      modifies Repr()
      ensures Queued(old(book), u.orderId)
      ensures Valid() && book == Replace(old(book), u.orderId, u.matchId, Resting(u.side, u.price, u.qty))
      ensures Stored(orderPool.slots[..], orderMap.contents,
                     Order(u.matchId, u.timestampNs, u.price, u.qty, INVALID, u.side))
    {
      hide OrderBook.Shows, Lively, OrderBook.Room, Stored;
      DeleteOrder(u);
      AddOrder(u.(orderId := u.matchId));
    }

    /** Whatever was taken out can be put back: same side and price, even if the level has to be rebuilt. */
    lemma RoomAfterDrop(id: u64)
      requires Valid() && id in book.orders
      ensures Queued(book, id)
      ensures var o, b := book.orders[id], Drop(book, id);
              id !in b.orders && 0 < o.price < WINDOW && Room(b, o.side, o.price)
    {
      hide Rep, BookSide.Valid, FreeChain, FlatHashMap.Valid, Lively, Drop, Threaded;
      ghost var ls, os, m, db, da := levelPool.slots[..], orderPool.slots[..], orderMap.contents, bids.dir, asks.dir;
      var o := book.orders[id];
      LiveCounts(ls, os, m, db, da, book);
      OrderPlace(ls, os, m, db, da, book, id);
      RepCore(ls, os, m, db, da, book);
      DropCounts(book, id);
      SideOf(o.side).InWindow(ls, o.price);
      orderMap.LoadBelowLimit();
    }

    /** Sets a new quantity: smaller in place, larger by deleting and adding again at the tail. Needs no room. */
    method ModifyOrder(u: BookUpdate)
      requires Valid() && u.orderId in book.orders
      modifies Repr()
      ensures Queued(old(book), u.orderId)
      ensures Valid() && book == Modify(old(book), u.orderId, u.qty)
      ensures u.qty > old(book).orders[u.orderId].qty ==>
                var o := old(book).orders[u.orderId];
                Stored(orderPool.slots[..], orderMap.contents,
                       Order(u.orderId, u.timestampNs, o.price, u.qty, INVALID, o.side))
    {
      hide Rep, OrderBook.Parts, OrderBook.Room, Core, Lively, Stored;
      ghost var o := book.orders[u.orderId];
      var oi, li := Locate(u.orderId);
      var order := orderPool.slots[oi].obj;
      if u.qty < order.remainingQty {
        CancelOrder(u.(qty := order.remainingQty - u.qty));
      } else if u.qty > order.remainingQty {
        RoomAfterDrop(u.orderId);
        DeleteOrder(u);
        AddOrder(u.(price := order.price, side := order.side));
      }
    }

    /** What the handler of an update asserts of its caller. */
    ghost predicate Accepts(b: Book, u: BookUpdate)
      requires Core(b)
    {
      && Refers(b, u)
      && (u.kind.AddOrder? ==> CanAdd(b, u.orderId, Resting(u.side, u.price, u.qty)))
      && (u.kind.ReplaceOrder? ==>
            Queued(b, u.orderId) && CanAdd(Drop(b, u.orderId), u.matchId, Resting(u.side, u.price, u.qty)))
    }

    /** Routes an update to its handler; kinds without one are ignored. */
    method Dispatch(u: BookUpdate)
      requires Valid() && Accepts(book, u)
      modifies Repr()
      ensures Core(old(book)) && Valid() && book == Apply(old(book), u)
    {
      hide Rep, OrderBook.Parts, OrderBook.CanAdd, Lively;
      ShownCore();
      match u.kind {
        case AddOrder => AddOrder(u);
        case CancelOrder => CancelOrder(u);
        case ExecuteOrder => ExecuteOrder(u);
        case DeleteOrder => DeleteOrder(u);
        case ModifyOrder => ModifyOrder(u);
        case ReplaceOrder => ReplaceOrder(u);
        case _ =>
      }
    }
  }
}
