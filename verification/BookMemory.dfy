/** The pool slots determine the book: directories, id map and abstract contents can be read off them. */
module BookMemory {
  import opened Base
  import opened ObjectPools
  import opened PriceLevels
  import opened Orders
  import opened PricePriority
  import opened BookSpec
  import opened BookRep
  import opened FlatHashMaps
  import opened BookSides
  import opened OrderBooks

  lemma SameOrders(os: OrderSlots, m: IdMap, m': IdMap, b: Book, c: Book)
    requires OrdersRep(os, m, b.orders) && OrdersRep(os, m', c.orders)
    ensures m == m' && b.orders == c.orders
  {
    forall id | id in m ensures id in m' && m'[id] == m[id] && c.orders[id] == b.orders[id] {
      assert HoldsOrder(os, m[id], id, b.orders[id]);
      assert HoldsOrder(os, m'[id], id, c.orders[id]);
    }
    forall id | id in m' ensures id in m {
      assert HoldsOrder(os, m'[id], id, c.orders[id]);
    }
  }

  lemma DirectoryIncluded(ls: LevelSlots, os: OrderSlots, m: IdMap, db: Directory, da: Directory, b: Book,
                          db': Directory, da': Directory, c: Book, side: Side, price: u32)
    requires LevelsRep(ls, os, m, db, da, b) && LevelsRep(ls, os, m, db', da', c) && price in DirOf(db, da, side)
    ensures price in DirOf(db', da', side) && DirOf(db', da', side)[price] == DirOf(db, da, side)[price]
  {
    hide LevelShows, Linked;
    KeysAt(ls, os, m, db, da, b, side);
    ShownAt(ls, os, m, db, da, b, side, price);
    ShownFields(ls, DirOf(db, da, side)[price], os, m, side, price, b.On(side)[price], b.orders);
  }

  /** A list determines the queue it represents, order by order from the head on. */
  lemma {:induction false} SameUpTo(os: OrderSlots, m: IdMap, b: Book, q: seq<u64>, r: seq<u64>, k: nat)
    requires OrdersRep(os, m, b.orders) && Linked(os, m, q) && Linked(os, m, r)
    requires |q| == |r| && k <= |q| && SlotAt(m, q, 0) == SlotAt(m, r, 0)
    ensures q[..k] == r[..k]
  {
    hide Linked, OrdersRep;
    if k > 0 {
      SameUpTo(os, m, b, q, r, k - 1);
      if k > 1 {
        assert q[k - 2] == q[..k - 1][k - 2] == r[..k - 1][k - 2] == r[k - 2];
        ListedAt(os, m, q, k - 2);
        ListedAt(os, m, r, k - 2);
      }
      SlotHolds(os, m, b, q, k - 1);
      SlotHolds(os, m, b, r, k - 1);
    }
  }

  /** The slot of a listed order says whose it is. */
  lemma SlotHolds(os: OrderSlots, m: IdMap, b: Book, q: seq<u64>, k: nat)
    requires OrdersRep(os, m, b.orders) && Linked(os, m, q) && k < |q|
    ensures q[k] in m && SlotAt(m, q, k) == m[q[k]] < |os| && os[m[q[k]]].Live? && os[m[q[k]]].obj.orderId == q[k]
  {
    hide Linked;
    ListedAt(os, m, q, k);
    assert HoldsOrder(os, m[q[k]], q[k], b.orders[q[k]]);
  }

  lemma SameQueue(ls: LevelSlots, i: Index, os: OrderSlots, m: IdMap, b: Book,
                  side: Side, price: u32, q: seq<u64>, r: seq<u64>)
    requires OrdersRep(os, m, b.orders)
    requires LevelShows(ls, i, os, m, side, price, q, b.orders) && LevelShows(ls, i, os, m, side, price, r, b.orders)
    ensures q == r
  {
    hide Linked, OrdersRep, SumQty;
    SameUpTo(os, m, b, q, r, |q|);
  }

  /** The same slots cannot represent two books, nor one book in two ways. */
  lemma SlotsDetermine(ls: LevelSlots, os: OrderSlots, m: IdMap, db: Directory, da: Directory, b: Book,
                       m': IdMap, db': Directory, da': Directory, c: Book)
    requires Rep(ls, os, m, db, da, b) && Rep(ls, os, m', db', da', c)
    ensures b == c && m == m' && db == db' && da == da'
  {
    hide Core, OrdersRep, LevelsRep, LevelShows;
    SameOrders(os, m, m', b, c);
    forall side: Side ensures DirOf(db, da, side) == DirOf(db', da', side) && b.On(side) == c.On(side) {
      KeysAt(ls, os, m, db, da, b, side);
      KeysAt(ls, os, m, db', da', c, side);
      forall p: u32 ensures p in DirOf(db, da, side) <==> p in DirOf(db', da', side)
                    ensures p in DirOf(db, da, side) ==> DirOf(db, da, side)[p] == DirOf(db', da', side)[p] {
        if p in DirOf(db, da, side) {
          DirectoryIncluded(ls, os, m, db, da, b, db', da', c, side, p);
        } else if p in DirOf(db', da', side) {
          DirectoryIncluded(ls, os, m, db', da', c, db, da, b, side, p);
        }
      }
      forall p | p in b.On(side) ensures p in c.On(side) && b.On(side)[p] == c.On(side)[p] {
        ShownAt(ls, os, m, db, da, b, side, p);
        ShownAt(ls, os, m, db', da', c, side, p);
        SameQueue(ls, DirOf(db, da, side)[p], os, m, b, side, p, b.On(side)[p], c.On(side)[p]);
      }
    }
    assert b.On(Buy) == c.On(Buy) && b.On(Sell) == c.On(Sell);
    assert DirOf(db, da, Buy) == DirOf(db', da', Buy) && DirOf(db, da, Sell) == DirOf(db', da', Sell);
  }

  /** Two valid books whose pools hold the same slots have the same contents. */
  lemma SameMemory(x: OrderBook, y: OrderBook)
    requires x.Valid() && y.Valid()
    requires x.levelPool.slots[..] == y.levelPool.slots[..] && x.orderPool.slots[..] == y.orderPool.slots[..]
    ensures x.book == y.book
  {
    hide Rep, OrderBook.Parts, OrderBook.Separate, Lively;
    SlotsDetermine(x.levelPool.slots[..], x.orderPool.slots[..], x.orderMap.contents, x.bids.dir, x.asks.dir, x.book,
                   y.orderMap.contents, y.bids.dir, y.asks.dir, y.book);
  }

  /** A side's tree visits exactly the live level slots of that side. */
  lemma TreeIsSide(ls: LevelSlots, os: OrderSlots, m: IdMap, db: Directory, da: Directory, b: Book, side: Side,
                   tree: S.Tree)
    requires LevelsRep(ls, os, m, db, da, b) && Holds(tree, DirOf(db, da, side))
    ensures forall i :: i in S.Ids(tree) <==> i in LiveSet(ls) && ls[i].obj.side == side
  {
    hide LevelsRep, Holds;
    SlotsOfDir(tree, DirOf(db, da, side));
    LevelsInSlots(ls, os, m, db, da, b);
    KeysAt(ls, os, m, db, da, b, side);
  }

  /** Every slot of the level pool is on the free list, in the bid tree or in the ask tree, and in one of them only. */
  lemma LevelSlotsSplit(x: OrderBook)
    requires x.Valid()
    ensures var free, bids, asks := FreeSet(x.levelPool.free), S.Ids(x.bids.tree), S.Ids(x.asks.tree);
            Range(x.levelPool.slots.Length) == free + bids + asks && free !! bids !! asks
  {
    hide Core, LevelsRep, OrdersRep, BookSide.Valid, FreeChain, FlatHashMap.Valid, Lively, Holds, LiveSet,
         FreeSet, S.Ids;
    x.TreeFacts(Buy);
    x.TreeFacts(Sell);
    SidesSplit(x.levelPool.slots[..], x.orderPool.slots[..], x.orderMap.contents, x.bids.dir, x.asks.dir, x.book,
               x.bids.tree, x.asks.tree);
    FreeChainSplits(x.levelPool.slots[..], x.levelPool.freeHead, x.levelPool.free);
  }

  lemma SidesSplit(ls: LevelSlots, os: OrderSlots, m: IdMap, db: Directory, da: Directory, b: Book, bids: S.Tree,
                   asks: S.Tree)
    requires LevelsRep(ls, os, m, db, da, b) && Holds(bids, db) && Holds(asks, da)
    ensures LiveSet(ls) == S.Ids(bids) + S.Ids(asks) && S.Ids(bids) !! S.Ids(asks)
  {
    hide LevelsRep, Holds;
    TreeIsSide(ls, os, m, db, da, b, Buy, bids);
    TreeIsSide(ls, os, m, db, da, b, Sell, asks);
  }

  /** Every slot of the order pool is either on the free list or the slot of exactly one live order. */
  lemma OrderSlotsSplit(x: OrderBook)
    requires x.Valid()
    ensures var m, slots := x.orderMap.contents, x.orderPool.slots[..];
            && m.Keys == x.book.orders.Keys
            && (forall id :: id in m ==> m[id] < |slots| && slots[m[id]].Live? && slots[m[id]].obj.orderId == id)
            && (forall i: Index :: i < |slots| ==>
                  (i in FreeSet(x.orderPool.free) <==> !exists id :: id in m && m[id] == i))
  {
    hide Core, LevelsRep, BookSide.Valid, FreeChain, FlatHashMap.Valid, Lively;
    FreeChainSplits(x.orderPool.slots[..], x.orderPool.freeHead, x.orderPool.free);
    OrdersInSlots(x.orderPool.slots[..], x.orderMap.contents, x.book);
  }

  // ---- What a reader of the memory finds -------------------------------------

  /** The slot the id map gives for a live order holds its id, side, price and quantity left. */
  lemma OrderReads(x: OrderBook, id: u64)
    requires x.Valid() && id in x.book.orders
    ensures id in x.orderMap.contents && x.orderMap.contents[id] < x.orderPool.slots.Length
    ensures var slot, o := x.orderPool.slots[x.orderMap.contents[id]], x.book.orders[id];
            && slot.Live? && slot.obj.orderId == id
            && slot.obj.side == o.side && slot.obj.price == o.price && slot.obj.remainingQty == o.qty
  {
    hide LevelsRep, BookSide.Valid, FreeChain, FlatHashMap.Valid, Lively;
    OrderAt(x.orderPool.slots[..], x.orderMap.contents, x.book, id);
  }

  /**
    The level slot at a price holds that price and side, the number of waiting orders and the sum of their quantities
    modulo 2^32; its list starts at the slot of the first of them and ends at that of the last.
   */
  lemma LevelReads(x: OrderBook, side: Side, price: u32)
    requires x.Valid() && price in x.book.On(side)
    ensures price in x.SideOf(side).dir && IsLevel(x.levelPool.slots[..], x.SideOf(side).dir[price])
    ensures var lvl := x.levelPool.slots[x.SideOf(side).dir[price]].obj;
            var q, m := x.book.On(side)[price], x.orderMap.contents;
            && lvl.price == price && lvl.side == side
            && lvl.orderCount == |q| > 0 && lvl.totalQty == SumQty(x.book.orders, q) % W32
            && q[0] in m && lvl.headOrder == m[q[0]] && q[|q| - 1] in m && lvl.tailOrder == m[q[|q| - 1]]
  {
    hide Core, LevelsRep, OrdersRep, BookSide.Valid, FreeChain, FlatHashMap.Valid, SumQty;
    LevelAt(x.levelPool.slots[..], x.orderPool.slots[..], x.orderMap.contents, x.bids.dir, x.asks.dir, x.book,
            side, price);
  }

  /** The cached best bid is the highest bid price, the cached best ask the lowest ask price; none if there is none. */
  lemma CachedBest(x: OrderBook)
    requires x.Valid()
    ensures (x.bids.bboIdx == INVALID <==> x.book.bids == map[]) && (x.asks.bboIdx == INVALID <==> x.book.asks == map[])
    ensures var s := x.levelPool.slots[..];
            && (x.bids.bboIdx != INVALID ==>
                  && IsLevel(s, x.bids.bboIdx) && s[x.bids.bboIdx].obj.price in x.book.bids
                  && forall p :: p in x.book.bids ==> p <= s[x.bids.bboIdx].obj.price)
            && (x.asks.bboIdx != INVALID ==>
                  && IsLevel(s, x.asks.bboIdx) && s[x.asks.bboIdx].obj.price in x.book.asks
                  && forall p :: p in x.book.asks ==> s[x.asks.bboIdx].obj.price <= p)
  {
    hide OrderBook.Shows, Lively;
    x.BestFacts(Buy);
    x.BestFacts(Sell);
    if x.bids.bboIdx != INVALID {
      x.HeadFacts(Buy, Best(Buy, x.book.bids.Keys));
      BestIsExtreme(Buy, x.book.bids.Keys);
    }
    if x.asks.bboIdx != INVALID {
      x.HeadFacts(Sell, Best(Sell, x.book.asks.Keys));
      BestIsExtreme(Sell, x.book.asks.Keys);
    }
  }

  lemma BestIsExtreme(side: Side, prices: set<u32>)
    requires prices != {}
    ensures Best(side, prices) in prices
    ensures forall p :: p in prices ==> if side == Buy then p <= Best(side, prices) else Best(side, prices) <= p
  {
    assert forall p :: p in prices ==> !Better(side, p, Best(side, prices));
  }
}
