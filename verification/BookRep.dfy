/** How pool slots, directories and the id map together represent an abstract book. */
module BookRep {
  import opened Base
  import opened ObjectPools
  import opened PriceLevels
  import opened Orders
  import opened BookSpec

  type IdMap = map<u64, Index>
  type Directory = map<u32, Index>

  /** The slot of the order at position k of queue q; INVALID past the end. */
  ghost function SlotAt(m: IdMap, q: seq<u64>, k: int): Index {
    if 0 <= k < |q| && q[k] in m then m[q[k]] else INVALID
  }

  /** The order slot i holds order o with the given id. */
  ghost predicate HoldsOrder(os: OrderSlots, i: Index, id: u64, o: Resting) {
    && i < |os| && os[i].Live?
    && os[i].obj.orderId == id
    && Resting(os[i].obj.side, os[i].obj.price, os[i].obj.remainingQty) == o
  }

  /** The id map names exactly the live order slots, and those hold exactly the book's orders. */
  ghost predicate OrdersRep(os: OrderSlots, m: IdMap, orders: map<u64, Resting>) {
    && m.Keys == orders.Keys
    && (forall id :: id in m ==> HoldsOrder(os, m[id], id, orders[id]))
    && (forall i :: 0 <= i < |os| && os[i].Live? ==> os[i].obj.orderId in m && m[os[i].obj.orderId] == i)
  }

  /** The FIFO list of a level runs through the slots of the queue's orders, in queue order. */
  ghost predicate Linked(os: OrderSlots, m: IdMap, q: seq<u64>) {
    forall k :: 0 <= k < |q| ==>
      && q[k] in m && m[q[k]] < |os| && os[m[q[k]]].Live?
      && os[m[q[k]]].obj.nextInLevel == SlotAt(m, q, k + 1)
  }

  /** Level fields agree with the queue: ends of the list, order count, total quantity modulo 2^32. */
  ghost predicate LevelRep(lvl: PriceLevel, side: Side, price: u32, q: seq<u64>, m: IdMap, orders: map<u64, Resting>) {
    && lvl.price == price && lvl.side == side
    && lvl.headOrder == SlotAt(m, q, 0)
    && lvl.tailOrder == SlotAt(m, q, |q| - 1)
    && lvl.orderCount == |q|
    && lvl.totalQty == Wrap32(SumQty(orders, q))
  }

  ghost function DirOf(db: Directory, da: Directory, side: Side): Directory {
    if side.Buy? then db else da
  }

  /** The directories list exactly the priced queues. */
  ghost predicate SamePrices(db: Directory, da: Directory, b: Book) {
    forall side: Side :: DirOf(db, da, side).Keys == b.On(side).Keys
  }

  /** Live level slots are exactly the levels of the two directories. */
  ghost predicate SlotsNamed(ls: LevelSlots, db: Directory, da: Directory) {
    forall i :: 0 <= i < |ls| && ls[i].Live? ==>
      var d := DirOf(db, da, ls[i].obj.side); ls[i].obj.price in d && d[ls[i].obj.price] == i
  }

  /** Slot i is a level that represents queue q at a price of a side, and the queue is threaded through its orders. */
  ghost predicate LevelShows(ls: LevelSlots, i: Index, os: OrderSlots, m: IdMap,
                             side: Side, price: u32, q: seq<u64>, orders: map<u64, Resting>) {
    IsLevel(ls, i) && LevelRep(ls[i].obj, side, price, q, m, orders) && Linked(os, m, q)
  }

  ghost predicate LevelsRep(ls: LevelSlots, os: OrderSlots, m: IdMap, db: Directory, da: Directory, b: Book) {
    && SamePrices(db, da, b)
    && (forall side: Side, p :: p in b.On(side) ==>
          LevelShows(ls, DirOf(db, da, side)[p], os, m, side, p, b.On(side)[p], b.orders))
    && SlotsNamed(ls, db, da)
  }

  ghost predicate Rep(ls: LevelSlots, os: OrderSlots, m: IdMap, db: Directory, da: Directory, b: Book) {
    && Core(b)
    && OrdersRep(os, m, b.orders)
    && LevelsRep(ls, os, m, db, da, b)
  }

  /** The level of a price, its fields and its list. */
  lemma PricesAgree(ls: LevelSlots, os: OrderSlots, m: IdMap, db: Directory, da: Directory, b: Book, side: Side,
                    price: u32)
    requires Rep(ls, os, m, db, da, b)
    ensures price in DirOf(db, da, side) <==> price in b.On(side)
  {
    assert DirOf(db, da, side).Keys == b.On(side).Keys;
  }

  lemma LevelAt(ls: LevelSlots, os: OrderSlots, m: IdMap, db: Directory, da: Directory, b: Book, side: Side, price: u32)
    requires Core(b) && LevelsRep(ls, os, m, db, da, b)
    ensures price in DirOf(db, da, side) <==> price in b.On(side)
    ensures price in b.On(side) ==>
              var i, q := DirOf(db, da, side)[price], b.On(side)[price];
              && IsLevel(ls, i) && LevelRep(ls[i].obj, side, price, q, m, b.orders) && Linked(os, m, q)
              && QueueOk(b, side, price, q)
  {
    assert DirOf(db, da, side).Keys == b.On(side).Keys;
  }

  lemma ShownAt(ls: LevelSlots, os: OrderSlots, m: IdMap, db: Directory, da: Directory, b: Book, side: Side, price: u32)
    requires LevelsRep(ls, os, m, db, da, b) && price in b.On(side)
    ensures price in DirOf(db, da, side)
    ensures LevelShows(ls, DirOf(db, da, side)[price], os, m, side, price, b.On(side)[price], b.orders)
  {
    hide LevelShows, SlotsNamed;
    assert DirOf(db, da, side).Keys == b.On(side).Keys;
  }

  /** The slot of an order. */
  lemma OrderAt(os: OrderSlots, m: IdMap, b: Book, id: u64)
    requires Core(b) && OrdersRep(os, m, b.orders) && id in b.orders
    ensures id in m && HoldsOrder(os, m[id], id, b.orders[id]) && Queued(b, id)
  {
  }

  /** Pools without live slots represent the empty book. */
  lemma EmptyRep(ls: LevelSlots, os: OrderSlots)
    requires LiveSet(ls) == {} && LiveSet(os) == {}
    ensures Rep(ls, os, map[], map[], map[], EMPTY_BOOK)
  {
    assert forall i :: 0 <= i < |ls| && ls[i].Live? ==> i in LiveSet(ls);
    assert forall i :: 0 <= i < |os| && os[i].Live? ==> i in LiveSet(os);
  }

  lemma RepLevel(ls: LevelSlots, os: OrderSlots, m: IdMap, db: Directory, da: Directory, b: Book, side: Side,
                 price: u32)
    requires Rep(ls, os, m, db, da, b) && price in b.On(side)
    ensures price in DirOf(db, da, side)
    ensures var i, q := DirOf(db, da, side)[price], b.On(side)[price];
            IsLevel(ls, i) && LevelRep(ls[i].obj, side, price, q, m, b.orders) && Linked(os, m, q)
  {
    LevelAt(ls, os, m, db, da, b, side, price);
  }

  lemma RepCore(ls: LevelSlots, os: OrderSlots, m: IdMap, db: Directory, da: Directory, b: Book)
    requires Rep(ls, os, m, db, da, b)
    ensures Core(b)
  {
  }

  // ---- Counting --------------------------------------------------------------

  /** Keys that lead to distinct slots are as many as these slots. */
  lemma {:induction false} BijectionCard<K>(m: map<K, Index>, slots: set<Index>)
    requires forall i :: i in slots <==> exists k :: k in m && m[k] == i
    requires forall k, l :: k in m && l in m && k != l ==> m[k] != m[l]
    ensures |slots| == |m|
  {
    if m == map[] {
      assert slots == {};
    } else {
      var k :| k in m;
      var m', slots' := m - {k}, slots - {m[k]};
      forall i ensures i in slots' <==> exists l :: l in m' && m'[l] == i {
        if i in slots' {
          var l :| l in m && m[l] == i;
          assert l in m';
        }
      }
      BijectionCard(m', slots');
    }
  }

  /** Live order slots and orders correspond one to one: the id map names exactly these slots. */
  lemma OrdersInSlots(os: OrderSlots, m: IdMap, b: Book)
    requires OrdersRep(os, m, b.orders)
    ensures forall id :: id in b.orders ==> id in m && m[id] in LiveSet(os) && os[m[id]].obj.orderId == id
    ensures forall i :: i in LiveSet(os) ==> os[i].obj.orderId in b.orders && m[os[i].obj.orderId] == i
    ensures |LiveSet(os)| == |b.orders| == |m|
  {
    assert forall id :: id in m ==> HoldsOrder(os, m[id], id, b.orders[id]);
    BijectionCard(m, LiveSet(os));
    assert |m| == |m.Keys| && |b.orders| == |b.orders.Keys|;
  }

  /** Live level slots and levels correspond one to one: the directories name exactly these slots. */
  lemma LevelsInSlots(ls: LevelSlots, os: OrderSlots, m: IdMap, db: Directory, da: Directory, b: Book)
    requires LevelsRep(ls, os, m, db, da, b)
    ensures forall side: Side, p :: p in b.On(side) ==>
              && p in DirOf(db, da, side) && IsLevel(ls, DirOf(db, da, side)[p])
              && ls[DirOf(db, da, side)[p]].obj.side == side && ls[DirOf(db, da, side)[p]].obj.price == p
    ensures forall i :: i in LiveSet(ls) ==>
              var o := ls[i].obj; o.price in b.On(o.side) && DirOf(db, da, o.side)[o.price] == i
    ensures |LiveSet(ls)| == b.Levels()
  {
    forall side: Side, p | p in b.On(side)
      ensures p in DirOf(db, da, side) && IsLevel(ls, DirOf(db, da, side)[p])
      ensures ls[DirOf(db, da, side)[p]].obj.side == side && ls[DirOf(db, da, side)[p]].obj.price == p
    {
      ShownAt(ls, os, m, db, da, b, side, p);
    }
    NamedSlots(ls, os, m, db, da, b);
    LevelCount(ls, os, m, db, da, b);
  }

  lemma NamedSlots(ls: LevelSlots, os: OrderSlots, m: IdMap, db: Directory, da: Directory, b: Book)
    requires LevelsRep(ls, os, m, db, da, b)
    ensures forall i :: i in LiveSet(ls) ==>
              var o := ls[i].obj; o.price in b.On(o.side) && DirOf(db, da, o.side)[o.price] == i
  {
    hide LevelShows;
    forall i | i in LiveSet(ls) ensures ls[i].obj.price in b.On(ls[i].obj.side) {
      KeysAt(ls, os, m, db, da, b, ls[i].obj.side);
    }
  }

  /** Slots found under their own side and price are as many as the keys. */
  lemma KeyedSlots(ls: LevelSlots, places: map<(Side, u32), Index>)
    requires forall k :: k in places ==>
               IsLevel(ls, places[k]) && (ls[places[k]].obj.side, ls[places[k]].obj.price) == k
    requires forall i :: i in LiveSet(ls) ==>
               var k := (ls[i].obj.side, ls[i].obj.price); k in places && places[k] == i
    ensures |LiveSet(ls)| == |places|
  {
    BijectionCard(places, LiveSet(ls));
  }

  lemma LevelCount(ls: LevelSlots, os: OrderSlots, m: IdMap, db: Directory, da: Directory, b: Book)
    requires LevelsRep(ls, os, m, db, da, b)
    ensures |LiveSet(ls)| == b.Levels()
  {
    hide LevelsRep, DirOf;
    var keys := LevelKeys(b);
    var places := PlaceOf(ls, os, m, db, da, b, keys);
    NamedSlots(ls, os, m, db, da, b);
    forall i | i in LiveSet(ls)
      ensures var k := (ls[i].obj.side, ls[i].obj.price); k in places && places[k] == i
    {
      assert (ls[i].obj.side, ls[i].obj.price) in keys;
    }
    KeyedSlots(ls, places);
    assert |places| == |places.Keys|;
  }

  /** The levels of a book by side and price. */
  ghost function LevelKeys(b: Book): (keys: set<(Side, u32)>)
    ensures forall side: Side, p: u32 :: (side, p) in keys <==> p in b.On(side)
    ensures |keys| == b.Levels()
  {
    var kb, ka := Keyed(Buy, b.bids.Keys), Keyed(Sell, b.asks.Keys);
    KeyedCard(Buy, b.bids.Keys);
    KeyedCard(Sell, b.asks.Keys);
    assert kb !! ka && |b.bids| == |b.bids.Keys| && |b.asks| == |b.asks.Keys|;
    kb + ka
  }

  /** As many live slots as orders and as levels. */
  lemma LiveCounts(ls: LevelSlots, os: OrderSlots, m: IdMap, db: Directory, da: Directory, b: Book)
    requires Rep(ls, os, m, db, da, b)
    ensures |LiveSet(os)| == |b.orders| == |m| <= |os|
    ensures |LiveSet(ls)| == b.Levels() <= |ls|
  {
    hide OrdersRep, LevelsRep, Core;
    OrdersInSlots(os, m, b);
    LevelCount(ls, os, m, db, da, b);
    LiveSetCard(os);
    LiveSetCard(ls);
  }

  /** The slot of every level, keyed by side and price. */
  ghost function PlaceOf(ls: LevelSlots, os: OrderSlots, m: IdMap, db: Directory, da: Directory, b: Book,
                         keys: set<(Side, u32)>): (places: map<(Side, u32), Index>)
    requires LevelsRep(ls, os, m, db, da, b) && forall side: Side, p: u32 :: (side, p) in keys ==> p in b.On(side)
    ensures places.Keys == keys
    ensures forall k :: k in places ==>
              && places[k] == DirOf(db, da, k.0)[k.1] && IsLevel(ls, places[k])
              && (ls[places[k]].obj.side, ls[places[k]].obj.price) == k
  {
    map k | k in keys ::
      ShownAt(ls, os, m, db, da, b, k.0, k.1);
      ShownFields(ls, DirOf(db, da, k.0)[k.1], os, m, k.0, k.1, b.On(k.0)[k.1], b.orders);
      DirOf(db, da, k.0)[k.1]
  }

  ghost function Keyed(side: Side, prices: set<u32>): set<(Side, u32)> {
    set p | p in prices :: (side, p)
  }

  lemma {:induction false} KeyedCard(side: Side, prices: set<u32>)
    ensures |Keyed(side, prices)| == |prices|
  {
    if prices != {} {
      var x :| x in prices;
      KeyedCard(side, prices - {x});
      assert Keyed(side, prices) == Keyed(side, prices - {x}) + {(side, x)};
    }
  }

  // ---- What one mutation leaves alone ----------------------------------------

  /** Orders resting elsewhere keep their slot, its contents and their entry. */
  ghost predicate Elsewhere(os: OrderSlots, os': OrderSlots, m: IdMap, m': IdMap, b: Book, b': Book, side: Side,
                            price: u32) {
    forall x :: x in b.orders && x in m && !(b.orders[x].side == side && b.orders[x].price == price) ==>
      && x in b'.orders && b'.orders[x] == b.orders[x]
      && x in m' && m'[x] == m[x]
      && m[x] < |os| == |os'| && os'[m[x]] == os[m[x]]
  }

  lemma QueueAt(b: Book, side: Side, price: u32)
    requires Core(b) && price in b.On(side)
    ensures QueueOk(b, side, price, b.On(side)[price])
  {
  }

  lemma ShownFields(ls: LevelSlots, i: Index, os: OrderSlots, m: IdMap,
                    side: Side, price: u32, q: seq<u64>, orders: map<u64, Resting>)
    requires LevelShows(ls, i, os, m, side, price, q, orders)
    ensures IsLevel(ls, i) && ls[i].obj.side == side && ls[i].obj.price == price
  {
  }

  lemma KeysAt(ls: LevelSlots, os: OrderSlots, m: IdMap, db: Directory, da: Directory, b: Book, side: Side)
    requires LevelsRep(ls, os, m, db, da, b)
    ensures DirOf(db, da, side).Keys == b.On(side).Keys
    ensures SlotsNamed(ls, db, da)
  {
  }

  lemma RepOf(ls: LevelSlots, os: OrderSlots, m: IdMap, db: Directory, da: Directory, b: Book)
    requires SamePrices(db, da, b) && SlotsNamed(ls, db, da)
    requires forall side: Side, p :: p in b.On(side) ==>
               LevelShows(ls, DirOf(db, da, side)[p], os, m, side, p, b.On(side)[p], b.orders)
    ensures LevelsRep(ls, os, m, db, da, b)
  {
  }

  /** Every other level still represents its queue. */
  lemma OtherLevel(ls: LevelSlots, ls': LevelSlots, i: Index, os: OrderSlots, os': OrderSlots, m: IdMap, m': IdMap,
                   b: Book, b': Book, side: Side, price: u32, s: Side, p: u32)
    requires Elsewhere(os, os', m, m', b, b', side, price)
    requires !(s == side && p == price) && p in b.On(s) && QueueOk(b, s, p, b.On(s)[p])
    requires LevelShows(ls, i, os, m, s, p, b.On(s)[p], b.orders)
    requires IsLevel(ls', i) && SameLevel(ls[i].obj, ls'[i].obj)
    ensures LevelShows(ls', i, os', m', s, p, b.On(s)[p], b'.orders)
  {
    var q := b.On(s)[p];
    SumFrame(b.orders, b'.orders, q);
    assert forall k :: 0 <= k < |q| ==> q[k] in b.orders && q[k] in m && q[k] in m' && m'[q[k]] == m[q[k]];
    assert forall k: int :: SlotAt(m', q, k) == SlotAt(m, q, k);
  }

  /** Rewriting the level at a price leaves every slot named, and the other slots as they were. */
  lemma NamedAfter(ls: LevelSlots, ls': LevelSlots, os: OrderSlots, m: IdMap, db: Directory, da: Directory,
                   b: Book, side: Side, price: u32)
    requires LevelsRep(ls, os, m, db, da, b) && price in b.On(side) && price in DirOf(db, da, side)
    requires var i := DirOf(db, da, side)[price];
             && |ls'| == |ls| && IsLevel(ls', i) && ls' == ls[i := ls'[i]]
             && ls'[i].obj.side == side && ls'[i].obj.price == price
    ensures SlotsNamed(ls', db, da)
    ensures forall s: Side, p :: p in b.On(s) && !(s == side && p == price) ==>
              && p in DirOf(db, da, s) && IsLevel(ls, DirOf(db, da, s)[p])
              && ls'[DirOf(db, da, s)[p]] == ls[DirOf(db, da, s)[p]]
  {
    hide Linked;
    forall s: Side, p | p in b.On(s) && !(s == side && p == price)
      ensures p in DirOf(db, da, s) && IsLevel(ls, DirOf(db, da, s)[p])
      ensures ls'[DirOf(db, da, s)[p]] == ls[DirOf(db, da, s)[p]]
    {
      ShownAt(ls, os, m, db, da, b, s, p);
      ShownAt(ls, os, m, db, da, b, side, price);
    }
  }

  /** A mutation at one level: the directories stay, the other levels stay, this level represents its new queue. */
  lemma LevelsAfter(ls: LevelSlots, ls': LevelSlots, os: OrderSlots, os': OrderSlots, m: IdMap, m': IdMap,
                    db: Directory, da: Directory, b: Book, b': Book, side: Side, price: u32)
    requires Core(b) && LevelsRep(ls, os, m, db, da, b) && price in b.On(side) && price in DirOf(db, da, side)
    requires var i := DirOf(db, da, side)[price];
             && |ls'| == |ls| && i < |ls| && ls' == ls[i := ls'[i]]
             && price in b'.On(side) && LevelShows(ls', i, os', m', side, price, b'.On(side)[price], b'.orders)
    requires b'.On(side) == b.On(side)[price := b'.On(side)[price]]
    requires b'.On(side.Opposite()) == b.On(side.Opposite())
    requires Elsewhere(os, os', m, m', b, b', side, price)
    ensures LevelsRep(ls', os', m', db, da, b')
  {
    hide Core, LevelsRep, LevelShows, QueueOk, Elsewhere, SlotsNamed;
    var i := DirOf(db, da, side)[price];
    ShownFields(ls', i, os', m', side, price, b'.On(side)[price], b'.orders);
    NamedAfter(ls, ls', os, m, db, da, b, side, price);
    forall s: Side ensures DirOf(db, da, s).Keys == b'.On(s).Keys {
      KeysAt(ls, os, m, db, da, b, s);
    }
    forall s: Side, p | p in b'.On(s)
      ensures LevelShows(ls', DirOf(db, da, s)[p], os', m', s, p, b'.On(s)[p], b'.orders)
    {
      if !(s == side && p == price) {
        assert p in b.On(s) && b'.On(s)[p] == b.On(s)[p];
        ShownAt(ls, os, m, db, da, b, s, p);
        QueueAt(b, s, p);
        OtherLevel(ls, ls', DirOf(db, da, s)[p], os, os', m, m', b, b', side, price, s, p);
      }
    }
    RepOf(ls', os', m', db, da, b');
  }

  /** Where the list of a level ends. */
  lemma TailAt(ls: LevelSlots, os: OrderSlots, m: IdMap, db: Directory, da: Directory, b: Book, side: Side, price: u32)
    requires Rep(ls, os, m, db, da, b) && price in b.On(side) && |os| <= INVALID
    ensures price in DirOf(db, da, side) && IsLevel(ls, DirOf(db, da, side)[price])
    ensures var lvl, q := ls[DirOf(db, da, side)[price]].obj, b.On(side)[price];
            && lvl.price == price && lvl.side == side && TailReady(os, m, q)
            && lvl.tailOrder == (if q == [] then INVALID else m[q[|q| - 1]])
            && (q == [] <==> lvl.tailOrder == INVALID)
            && (q != [] ==> lvl.tailOrder < |os| && os[lvl.tailOrder].Live?)
  {
    LevelAt(ls, os, m, db, da, b, side, price);
  }

  /** An emptied level has all its fields back at their initial values. */
  lemma EmptyLevel(ls: LevelSlots, os: OrderSlots, m: IdMap, db: Directory, da: Directory, b: Book, side: Side,
                   price: u32)
    requires Rep(ls, os, m, db, da, b) && price in b.On(side)
    ensures price in DirOf(db, da, side) && IsLevel(ls, DirOf(db, da, side)[price])
    ensures var lvl := ls[DirOf(db, da, side)[price]].obj;
            && lvl.price == price && lvl.side == side
            && (lvl.orderCount == 0 <==> b.On(side)[price] == [])
            && (b.On(side)[price] == [] ==> SameLevel(lvl, NewLevel(price, side)))
  {
    LevelAt(ls, os, m, db, da, b, side, price);
  }

  // ---- Appending an order ----------------------------------------------------

  ghost predicate TailReady(os: OrderSlots, m: IdMap, q: seq<u64>) {
    q != [] ==> q[|q| - 1] in m && m[q[|q| - 1]] < |os| && os[m[q[|q| - 1]]].Live?
  }

  /** The order slots after a new order took slot i and the old tail was linked to it. */
  ghost function Appended(os: OrderSlots, m: IdMap, q: seq<u64>, i: Index, o: Order): OrderSlots
    requires i < |os| && TailReady(os, m, q)
  {
    if q == [] then os[i := Live(o)]
    else
      var t := m[q[|q| - 1]];
      os[i := Live(o)][t := Live(os[t].obj.(nextInLevel := i))]
  }

  /** The id map leads to a slot with exactly this order. */
  ghost predicate Stored(os: OrderSlots, m: IdMap, o: Order) {
    o.orderId in m && m[o.orderId] < |os| && os[m[o.orderId]] == Live(o)
  }

  lemma AppendedInSteps(os: OrderSlots, m: IdMap, q: seq<u64>, i: Index, o: Order, tail: Index)
    requires i < |os| && os[i].Free? && TailReady(os, m, q)
    requires tail == if q == [] then INVALID else m[q[|q| - 1]]
    requires q != [] ==> tail != INVALID
    ensures var os1 := os[i := Live(o)];
            if tail == INVALID then Appended(os, m, q, i, o) == os1
            else
              && tail < |os| && os1[tail].Live?
              && Appended(os, m, q, i, o) == os1[tail := Live(os1[tail].obj.(nextInLevel := i))]
    ensures |Appended(os, m, q, i, o)| == |os| && Appended(os, m, q, i, o)[i] == Live(o)
  {
  }

  lemma AppendOrders(os: OrderSlots, m: IdMap, b: Book, q: seq<u64>, i: Index, o: Order)
    requires OrdersRep(os, m, b.orders) && o.orderId !in b.orders
    requires i < |os| && os[i].Free? && TailReady(os, m, q)
    requires o.price in b.On(o.side)
    ensures OrdersRep(Appended(os, m, q, i, o), m[o.orderId := i], Append(b, o.orderId, AsResting(o)).orders)
  {
  }

  lemma AppendLinked(os: OrderSlots, m: IdMap, b: Book, q: seq<u64>, i: Index, o: Order)
    requires OrdersRep(os, m, b.orders) && o.orderId !in b.orders && QueueOk(b, o.side, o.price, q) && Linked(os, m, q)
    requires i < |os| && os[i].Free? && o.nextInLevel == INVALID && TailReady(os, m, q)
    ensures Linked(Appended(os, m, q, i, o), m[o.orderId := i], q + [o.orderId])
  {
    var m', q', os' := m[o.orderId := i], q + [o.orderId], Appended(os, m, q, i, o);
    forall k | 0 <= k < |q'|
      ensures q'[k] in m' && m'[q'[k]] < |os'| && os'[m'[q'[k]]].Live?
      ensures os'[m'[q'[k]]].obj.nextInLevel == SlotAt(m', q', k + 1)
    {
      if k < |q| {
        assert HoldsOrder(os, m[q[k]], q[k], b.orders[q[k]]);
        if k < |q| - 1 {
          assert HoldsOrder(os, m[q[|q| - 1]], q[|q| - 1], b.orders[q[|q| - 1]]);
          assert q[k + 1] in m;
        }
      }
    }
  }

  /** The level fields after an append. */
  function Grown(lvl: PriceLevel, first: bool, i: Index, qty: u32): PriceLevel {
    lvl.(headOrder := if first then i else lvl.headOrder,
         tailOrder := i,
         totalQty := Wrap32(lvl.totalQty + qty),
         orderCount := lvl.orderCount + 1)
  }

  ghost function AsResting(o: Order): Resting {
    Resting(o.side, o.price, o.remainingQty)
  }

  /** Appending represents Append: new slot, old tail linked, level tail, count and total moved. */
  lemma AppendRep(ls: LevelSlots, ls': LevelSlots, os: OrderSlots, m: IdMap, db: Directory, da: Directory,
                  b: Book, i: Index, o: Order, li: Index, q: seq<u64>)
    requires Rep(ls, os, m, db, da, b) && o.price in b.On(o.side) && q == b.On(o.side)[o.price]
    requires o.orderId !in b.orders && o.orderId != 0 && o.price > 0 && i < |os| && os[i].Free?
    requires o.nextInLevel == INVALID
    requires TailReady(os, m, q)
    requires o.price in DirOf(db, da, o.side) && li == DirOf(db, da, o.side)[o.price] && IsLevel(ls, li)
    requires ls' == ls[li := Live(Grown(ls[li].obj, q == [], i, o.remainingQty))]
    ensures Rep(ls', Appended(os, m, q, i, o), m[o.orderId := i], db, da, Append(b, o.orderId, AsResting(o)))
  {
    hide Core, OrdersRep, LevelsRep, Linked, QueueOk;
    LevelAt(ls, os, m, db, da, b, o.side, o.price);
    AppendCore(b, o.orderId, AsResting(o));
    AppendOrders(os, m, b, q, i, o);
    AppendLevels(ls, ls', os, m, db, da, b, i, o, li, q);
  }

  lemma AppendLevels(ls: LevelSlots, ls': LevelSlots, os: OrderSlots, m: IdMap, db: Directory, da: Directory,
                     b: Book, i: Index, o: Order, li: Index, q: seq<u64>)
    requires Core(b) && OrdersRep(os, m, b.orders) && LevelsRep(ls, os, m, db, da, b)
    requires o.price in b.On(o.side) && q == b.On(o.side)[o.price] && QueueOk(b, o.side, o.price, q)
    requires o.orderId !in b.orders && i < |os| && os[i].Free? && o.nextInLevel == INVALID
    requires TailReady(os, m, q)
    requires o.price in DirOf(db, da, o.side) && li == DirOf(db, da, o.side)[o.price] && IsLevel(ls, li)
    requires ls' == ls[li := Live(Grown(ls[li].obj, q == [], i, o.remainingQty))]
    ensures LevelsRep(ls', Appended(os, m, q, i, o), m[o.orderId := i], db, da, Append(b, o.orderId, AsResting(o)))
  {
    hide Core, OrdersRep, LevelsRep, Linked, QueueOk, Elsewhere, Appended, SlotAt, TailReady;
    var b', m', os' := Append(b, o.orderId, AsResting(o)), m[o.orderId := i], Appended(os, m, q, i, o);
    LevelAt(ls, os, m, db, da, b, o.side, o.price);
    AppendLinked(os, m, b, q, i, o);
    AppendLevel(os, m, b, o.side, o.price, q, o.orderId, i, o.remainingQty);
    AppendElsewhere(os, m, b, i, o, q);
    LevelsAfter(ls, ls', os, os', m, m', db, da, b, b', o.side, o.price);
  }

  lemma AppendLevel(os: OrderSlots, m: IdMap, b: Book, side: Side, price: u32, q: seq<u64>, id: u64, i: Index, qty: u32)
    requires QueueOk(b, side, price, q) && id !in b.orders && OrdersRep(os, m, b.orders)
    ensures var orders' := b.orders[id := Resting(side, price, qty)];
            && Wrap32(Wrap32(SumQty(b.orders, q)) + qty) == Wrap32(SumQty(orders', q + [id]))
            && SlotAt(m[id := i], q + [id], 0) == (if q == [] then i else SlotAt(m, q, 0))
            && SlotAt(m[id := i], q + [id], |q|) == i
  {
    hide SumQty, Wrap32;
    var orders' := b.orders[id := Resting(side, price, qty)];
    SumFrame(b.orders, orders', q);
    SumAppend(orders', q, id);
    WrapAdd(SumQty(b.orders, q), qty);
  }

  lemma AppendElsewhere(os: OrderSlots, m: IdMap, b: Book, i: Index, o: Order, q: seq<u64>)
    requires OrdersRep(os, m, b.orders) && o.price in b.On(o.side) && o.orderId !in b.orders
    requires q == b.On(o.side)[o.price] && i < |os| && os[i].Free? && TailReady(os, m, q)
    requires QueueOk(b, o.side, o.price, q)
    ensures Elsewhere(os, Appended(os, m, q, i, o), m, m[o.orderId := i],
                      b, Append(b, o.orderId, AsResting(o)), o.side, o.price)
  {
    if q != [] {
      assert HoldsOrder(os, m[q[|q| - 1]], q[|q| - 1], b.orders[q[|q| - 1]]);
    }
  }

  // ---- Changing a quantity ---------------------------------------------------

  /** Writing an order's quantity and its level's total represents SetQty. */
  lemma SetQtyRep(ls: LevelSlots, ls': LevelSlots, os: OrderSlots, os': OrderSlots,
                  m: IdMap, db: Directory, da: Directory, b: Book, id: u64, qty: u32, li: Index)
    requires Rep(ls, os, m, db, da, b) && id in b.orders && id in m && HoldsOrder(os, m[id], id, b.orders[id])
    requires var o := b.orders[id]; o.price in b.On(o.side) && o.price in DirOf(db, da, o.side)
                                    && li == DirOf(db, da, o.side)[o.price] && IsLevel(ls, li)
    requires os' == os[m[id] := Live(os[m[id]].obj.(remainingQty := qty))]
    requires ls' == ls[li := Live(ls[li].obj.(totalQty := Wrap32(ls[li].obj.totalQty - b.orders[id].qty + qty)))]
    ensures Rep(ls', os', m, db, da, SetQty(b, id, qty))
  {
    hide Core, OrdersRep, LevelsRep;
    SetQtyCore(b, id, qty);
    SetQtyOrders(os, m, b, id, qty);
    SetQtyLevels(ls, ls', os, os', m, db, da, b, id, qty, li);
  }

  lemma SetQtyLevels(ls: LevelSlots, ls': LevelSlots, os: OrderSlots, os': OrderSlots,
                     m: IdMap, db: Directory, da: Directory, b: Book, id: u64, qty: u32, li: Index)
    requires Core(b) && OrdersRep(os, m, b.orders) && LevelsRep(ls, os, m, db, da, b)
    requires id in b.orders && id in m && HoldsOrder(os, m[id], id, b.orders[id])
    requires var o := b.orders[id]; o.price in b.On(o.side) && o.price in DirOf(db, da, o.side)
                                    && li == DirOf(db, da, o.side)[o.price] && IsLevel(ls, li)
    requires os' == os[m[id] := Live(os[m[id]].obj.(remainingQty := qty))]
    requires ls' == ls[li := Live(ls[li].obj.(totalQty := Wrap32(ls[li].obj.totalQty - b.orders[id].qty + qty)))]
    ensures LevelsRep(ls', os', m, db, da, SetQty(b, id, qty))
  {
    hide LevelsRep, Core, OrdersRep, Linked, Elsewhere;
    var o := b.orders[id];
    OrderAt(os, m, b, id);
    SetQtyOrders(os, m, b, id, qty);
    LevelAt(ls, os, m, db, da, b, o.side, o.price);
    SetQtyTotal(b, id, qty);
    LevelsAfter(ls, ls', os, os', m, m, db, da, b, SetQty(b, id, qty), o.side, o.price);
  }

  lemma SetQtyTotal(b: Book, id: u64, qty: u32)
    requires Core(b) && id in b.orders && Queued(b, id)
    ensures var o := b.orders[id];
            var q := b.On(o.side)[o.price];
            Wrap32(Wrap32(SumQty(b.orders, q)) - o.qty + qty) == Wrap32(SumQty(SetQty(b, id, qty).orders, q))
  {
    var o := b.orders[id];
    var q := b.On(o.side)[o.price];
    assert QueueOk(b, o.side, o.price, q);
    SumSetQty(b, id, qty, q);
    WrapAdd(SumQty(b.orders, q), qty - o.qty);
  }

  lemma SetQtyOrders(os: OrderSlots, m: IdMap, b: Book, id: u64, qty: u32)
    requires OrdersRep(os, m, b.orders) && id in b.orders && HoldsOrder(os, m[id], id, b.orders[id])
    ensures var o, b', os' := b.orders[id], SetQty(b, id, qty), os[m[id] := Live(os[m[id]].obj.(remainingQty := qty))];
            && OrdersRep(os', m, b'.orders)
            && Elsewhere(os, os', m, m, b, b', o.side, o.price)
            && forall q :: Linked(os, m, q) ==> Linked(os', m, q)
  {
  }

  /** The slots after quantity was taken off an order, r of it left, and off its level. */
  ghost predicate TakenOff(ls: LevelSlots, ls': LevelSlots, os: OrderSlots, os': OrderSlots,
                           m: IdMap, db: Directory, da: Directory, b: Book,
                           id: u64, oi: Index, li: Index, qty: u32, r: u32) {
    && id in b.orders && id in m && oi == m[id] && Queued(b, id) && HoldsOrder(os, oi, id, b.orders[id])
    && var o := b.orders[id];
       && o.price in DirOf(db, da, o.side) && li == DirOf(db, da, o.side)[o.price] && IsLevel(ls, li)
       && ls' == ls[li := Live(LessQty(ls[li].obj, qty))]
       && os' == os[oi := Live(os[oi].obj.(remainingQty := r))]
  }

  // ---- Unlinking an order ----------------------------------------------------

  lemma PositionUnique(q: seq<u64>, k: nat)
    requires NoDup(q) && k < |q|
    ensures Position(q, q[k]) == k
  {
  }

  /** Slots at position k of q and before it are usable. */
  ghost predicate SpotReady(os: OrderSlots, m: IdMap, q: seq<u64>, k: nat) {
    && k < |q| && q[k] in m && m[q[k]] < |os| && os[m[q[k]]].Live?
    && (k > 0 ==> q[k - 1] in m && m[q[k - 1]] < |os| && os[m[q[k - 1]]].Live? && m[q[k - 1]] != m[q[k]])
  }

  /** The order slots after the order at position k was bypassed and its slot freed. */
  ghost function Unlinked(os: OrderSlots, m: IdMap, q: seq<u64>, k: nat, f: Index): OrderSlots
    requires SpotReady(os, m, q, k)
  {
    var i := m[q[k]];
    if k == 0 then os[i := Free(f)]
    else
      var pred := m[q[k - 1]];
      os[pred := Live(os[pred].obj.(nextInLevel := os[i].obj.nextInLevel))][i := Free(f)]
  }

  /** Ends and count of a level after an order was bypassed; pred is INVALID for the first order. */
  function Bypassed(lvl: PriceLevel, pred: Index, next: Index): PriceLevel
    requires lvl.orderCount > 0
  {
    lvl.(headOrder := if pred == INVALID then next else lvl.headOrder,
         tailOrder := if next == INVALID then pred else lvl.tailOrder,
         orderCount := lvl.orderCount - 1)
  }

  function LessQty(lvl: PriceLevel, qty: u32): PriceLevel {
    lvl.(totalQty := Wrap32(lvl.totalQty - qty))
  }

  /** A queue whose orders occupy distinct slots below INVALID. */
  ghost predicate Threaded(os: OrderSlots, m: IdMap, q: seq<u64>) {
    && Linked(os, m, q)
    && (forall j :: 0 <= j < |q| ==> m[q[j]] < INVALID)
    && (forall i, j :: 0 <= i < j < |q| ==> m[q[i]] != m[q[j]])
  }

  /** Everything needed to find an order in its level. */
  lemma OrderPlace(ls: LevelSlots, os: OrderSlots, m: IdMap, db: Directory, da: Directory, b: Book, id: u64)
    requires Rep(ls, os, m, db, da, b) && id in b.orders && |os| <= INVALID
    ensures id != 0 && id in m && Queued(b, id) && HoldsOrder(os, m[id], id, b.orders[id]) && m[id] < INVALID
    ensures var o := b.orders[id];
            && o.price in DirOf(db, da, o.side) && IsLevel(ls, DirOf(db, da, o.side)[o.price])
            && var q, lvl := b.On(o.side)[o.price], ls[DirOf(db, da, o.side)[o.price]].obj;
            && Threaded(os, m, q) && lvl.headOrder == SlotAt(m, q, 0) && lvl.orderCount == |q|
            && lvl.price == o.price && lvl.side == o.side
            && lvl.totalQty == Wrap32(SumQty(b.orders, q))
  {
    hide Core, OrdersRep, LevelsRep, Linked;
    OrderAt(os, m, b, id);
    var o := b.orders[id];
    LevelAt(ls, os, m, db, da, b, o.side, o.price);
    QueueThreaded(os, m, b, o.side, o.price, b.On(o.side)[o.price]);
  }

  lemma QueueThreaded(os: OrderSlots, m: IdMap, b: Book, side: Side, price: u32, q: seq<u64>)
    requires Core(b) && OrdersRep(os, m, b.orders) && |os| <= INVALID
    requires QueueOk(b, side, price, q) && Linked(os, m, q)
    ensures Threaded(os, m, q)
  {
    hide Core, OrdersRep, Linked, Queued;
    forall j | 0 <= j < |q| ensures q[j] in m && m[q[j]] < INVALID {
      OrderAt(os, m, b, q[j]);
    }
    forall i, j | 0 <= i < j < |q| ensures m[q[i]] != m[q[j]] {
      OrderAt(os, m, b, q[i]);
      OrderAt(os, m, b, q[j]);
    }
  }

  /** Changing quantities does not touch the lists. */
  lemma UnlinkedSame(os: OrderSlots, os': OrderSlots, m: IdMap, q: seq<u64>, k: nat, f: Index, r: u32)
    requires Threaded(os, m, q) && k < |q|
    requires m[q[k]] < |os| && os[m[q[k]]].Live? && os' == os[m[q[k]] := Live(os[m[q[k]]].obj.(remainingQty := r))]
    ensures Threaded(os', m, q) && SpotReady(os', m, q, k) && SpotReady(os, m, q, k)
    ensures Unlinked(os', m, q, k, f) == Unlinked(os, m, q, k, f)
  {
    if k > 0 {
      assert m[q[k - 1]] != m[q[k]];
    }
  }

  lemma SpotAt(os: OrderSlots, m: IdMap, q: seq<u64>, k: nat)
    requires Threaded(os, m, q) && k < |q|
    ensures SpotReady(os, m, q, k)
    ensures os[m[q[k]]].obj.nextInLevel == SlotAt(m, q, k + 1)
    ensures SlotAt(m, q, 0) == m[q[k]] <==> k == 0
    ensures SlotAt(m, q, k - 1) == INVALID <==> k == 0
    ensures k > 0 ==> SlotAt(m, q, k - 1) == m[q[k - 1]]
    ensures forall j :: 0 <= j < |q| && j != k ==> m[q[j]] != m[q[k]]
  {
    if k > 0 {
      assert m[q[0]] != m[q[k]] && m[q[k - 1]] != m[q[k]];
      assert m[q[k - 1]] < INVALID;
    }
  }

  /** Unlinking represents Detach. */
  lemma DetachRep(ls: LevelSlots, ls': LevelSlots, os: OrderSlots, m: IdMap, db: Directory, da: Directory,
                  b: Book, id: u64, k: nat, li: Index, q: seq<u64>, f: Index)
    requires Rep(ls, os, m, db, da, b) && id in b.orders && |os| <= INVALID
    requires var o := b.orders[id]; o.price in b.On(o.side) && q == b.On(o.side)[o.price]
                                    && o.price in DirOf(db, da, o.side) && li == DirOf(db, da, o.side)[o.price]
    requires SpotReady(os, m, q, k) && q[k] == id && IsLevel(ls, li) && ls[li].obj.orderCount > 0
    requires var lvl := LessQty(ls[li].obj, b.orders[id].qty);
             ls' == ls[li := Live(Bypassed(lvl, SlotAt(m, q, k - 1), os[m[id]].obj.nextInLevel))]
    requires Queued(b, id)
    ensures Rep(ls', Unlinked(os, m, q, k, f), m - {id}, db, da, Detach(b, id))
  {
    hide Core, OrdersRep, LevelsRep, Linked, QueueOk, Unlinked;
    DetachCore(b, id);
    DetachOrders(os, m, b, id, k, q, f);
    DetachLevels(ls, ls', os, m, db, da, b, id, k, li, q, f);
  }

  lemma DetachOrders(os: OrderSlots, m: IdMap, b: Book, id: u64, k: nat, q: seq<u64>, f: Index)
    requires OrdersRep(os, m, b.orders) && id in b.orders && Queued(b, id)
    requires SpotReady(os, m, q, k) && q[k] == id
    ensures OrdersRep(Unlinked(os, m, q, k, f), m - {id}, Detach(b, id).orders)
  {
  }

  lemma DetachLevels(ls: LevelSlots, ls': LevelSlots, os: OrderSlots, m: IdMap, db: Directory, da: Directory,
                     b: Book, id: u64, k: nat, li: Index, q: seq<u64>, f: Index)
    requires Core(b) && OrdersRep(os, m, b.orders) && LevelsRep(ls, os, m, db, da, b) && id in b.orders
    requires |os| <= INVALID
    requires var o := b.orders[id]; o.price in b.On(o.side) && q == b.On(o.side)[o.price]
                                    && o.price in DirOf(db, da, o.side) && li == DirOf(db, da, o.side)[o.price]
    requires SpotReady(os, m, q, k) && q[k] == id && IsLevel(ls, li) && ls[li].obj.orderCount > 0
    requires var lvl := LessQty(ls[li].obj, b.orders[id].qty);
             ls' == ls[li := Live(Bypassed(lvl, SlotAt(m, q, k - 1), os[m[id]].obj.nextInLevel))]
    requires Queued(b, id)
    ensures LevelsRep(ls', Unlinked(os, m, q, k, f), m - {id}, db, da, Detach(b, id))
  {
    hide Core, OrdersRep, LevelsRep, Linked, QueueOk, Elsewhere, Unlinked, SlotAt;
    var o, b', m', os' := b.orders[id], Detach(b, id), m - {id}, Unlinked(os, m, q, k, f);
    LevelAt(ls, os, m, db, da, b, o.side, o.price);
    DetachQueue(b, id, k, q);
    DetachLinked(os, m, b, id, k, q, f);
    DetachLevel(os, m, b, id, k, q);
    DetachElsewhere(os, m, b, id, k, q, f);
    LevelsAfter(ls, ls', os, os', m, m', db, da, b, b', o.side, o.price);
  }

  lemma DetachQueue(b: Book, id: u64, k: nat, q: seq<u64>)
    requires id in b.orders && Queued(b, id) && q == b.On(b.orders[id].side)[b.orders[id].price]
    requires QueueOk(b, b.orders[id].side, b.orders[id].price, q) && k < |q| && q[k] == id
    ensures var o, b' := b.orders[id], Detach(b, id);
            && o.price in b'.On(o.side) && b'.On(o.side)[o.price] == Without(q, k)
            && b'.On(o.side) == b.On(o.side)[o.price := Without(q, k)]
            && b'.On(o.side.Opposite()) == b.On(o.side.Opposite())
            && b'.orders == b.orders - {id}
  {
    PositionUnique(q, k);
  }

  lemma DetachLinked(os: OrderSlots, m: IdMap, b: Book, id: u64, k: nat, q: seq<u64>, f: Index)
    requires OrdersRep(os, m, b.orders) && id in b.orders && Linked(os, m, q)
    requires QueueOk(b, b.orders[id].side, b.orders[id].price, q)
    requires SpotReady(os, m, q, k) && q[k] == id
    ensures Linked(Unlinked(os, m, q, k, f), m - {id}, Without(q, k))
  {
    hide OrdersRep, Linked, QueueOk;
    QueueSlots(os, m, b, b.orders[id].side, b.orders[id].price, q);
    UnlinkedLinks(os, m, q, k, f);
  }

  /** The orders of a queue have distinct live slots. */
  lemma QueueSlots(os: OrderSlots, m: IdMap, b: Book, side: Side, price: u32, q: seq<u64>)
    requires OrdersRep(os, m, b.orders) && QueueOk(b, side, price, q)
    ensures NoDup(q) && forall j :: 0 <= j < |q| ==> q[j] in m && m[q[j]] < |os| && os[m[q[j]]].Live?
    ensures forall i, j :: 0 <= i < j < |q| ==> m[q[i]] != m[q[j]]
  {
    forall i, j | 0 <= i < j < |q| ensures m[q[i]] != m[q[j]] {
      assert HoldsOrder(os, m[q[i]], q[i], b.orders[q[i]]) && HoldsOrder(os, m[q[j]], q[j], b.orders[q[j]]);
    }
  }

  lemma UnlinkedLinks(os: OrderSlots, m: IdMap, q: seq<u64>, k: nat, f: Index)
    requires NoDup(q) && Linked(os, m, q) && SpotReady(os, m, q, k)
    requires forall i, j :: 0 <= i < j < |q| ==> q[i] in m && q[j] in m && m[q[i]] != m[q[j]]
    ensures Linked(Unlinked(os, m, q, k, f), m - {q[k]}, Without(q, k))
  {
    var r, m', os' := Without(q, k), m - {q[k]}, Unlinked(os, m, q, k, f);
    forall j | 0 <= j < |r|
      ensures r[j] in m' && m'[r[j]] < |os'| && os'[m'[r[j]]].Live?
      ensures os'[m'[r[j]]].obj.nextInLevel == SlotAt(m', r, j + 1)
    {
      hide Linked, Unlinked, SlotAt;
      var i := if j < k then j else j + 1;
      ListedAt(os, m, q, i);
      UnlinkedAt(os, m, q, k, f, i);
      SlotAfter(m, q, k, j);
    }
  }

  lemma ListedAt(os: OrderSlots, m: IdMap, q: seq<u64>, i: nat)
    requires Linked(os, m, q) && i < |q|
    ensures q[i] in m && m[q[i]] < |os| && os[m[q[i]]].Live? && os[m[q[i]]].obj.nextInLevel == SlotAt(m, q, i + 1)
  {
  }

  /** Only the predecessor's link changes: it skips to the successor. */
  lemma UnlinkedAt(os: OrderSlots, m: IdMap, q: seq<u64>, k: nat, f: Index, i: nat)
    requires NoDup(q) && Linked(os, m, q) && SpotReady(os, m, q, k) && i < |q| && i != k
    requires forall i, j :: 0 <= i < j < |q| ==> q[i] in m && q[j] in m && m[q[i]] != m[q[j]]
    ensures var os' := Unlinked(os, m, q, k, f);
            && |os'| == |os| && q[i] in m && m[q[i]] < |os| && os'[m[q[i]]].Live?
            && os'[m[q[i]]].obj.nextInLevel == SlotAt(m, q, if i + 1 == k then k + 1 else i + 1)
  {
    hide Linked, SlotAt;
    ListedAt(os, m, q, i);
    ListedAt(os, m, q, k);
    assert m[q[i]] != m[q[k]];
    if k > 0 && i != k - 1 {
      assert m[q[i]] != m[q[k - 1]];
    }
  }

  lemma SlotAfter(m: IdMap, q: seq<u64>, k: nat, j: nat)
    requires NoDup(q) && k < |q| && j < |q| - 1
    ensures var i, r := if j < k then j else j + 1, Without(q, k);
            && r[j] == q[i] != q[k]
            && SlotAt(m - {q[k]}, r, j + 1) == SlotAt(m, q, if i + 1 == k then k + 1 else i + 1)
  {
  }

  /** Ends, count and total of the shortened queue. */
  lemma DetachLevel(os: OrderSlots, m: IdMap, b: Book, id: u64, k: nat, q: seq<u64>)
    requires OrdersRep(os, m, b.orders) && id in b.orders && Linked(os, m, q) && |os| <= INVALID
    requires QueueOk(b, b.orders[id].side, b.orders[id].price, q)
    requires SpotReady(os, m, q, k) && q[k] == id
    ensures var r, m', next, pred := Without(q, k), m - {id}, os[m[id]].obj.nextInLevel, SlotAt(m, q, k - 1);
            && SlotAt(m', r, 0) == (if pred == INVALID then next else SlotAt(m, q, 0))
            && SlotAt(m', r, |r| - 1) == (if next == INVALID then pred else SlotAt(m, q, |q| - 1))
            && |r| == |q| - 1
            && Wrap32(Wrap32(SumQty(b.orders, q)) - b.orders[id].qty) == Wrap32(SumQty(b.orders - {id}, r))
  {
    DetachTotal(b, id, k, q);
    assert os[m[id]].obj.nextInLevel == SlotAt(m, q, k + 1);
    DetachEnds(m, q, k);
  }

  lemma DetachEnds(m: IdMap, q: seq<u64>, k: nat)
    requires k < |q| && NoDup(q) && forall j :: 0 <= j < |q| ==> q[j] in m && m[q[j]] < INVALID
    ensures var r, m', next, pred := Without(q, k), m - {q[k]}, SlotAt(m, q, k + 1), SlotAt(m, q, k - 1);
            && SlotAt(m', r, 0) == (if pred == INVALID then next else SlotAt(m, q, 0))
            && SlotAt(m', r, |r| - 1) == (if next == INVALID then pred else SlotAt(m, q, |q| - 1))
  {
    var r := Without(q, k);
    if r != [] {
      assert r[0] == q[if k == 0 then 1 else 0];
      assert r[|r| - 1] == q[if k == |q| - 1 then k - 1 else |q| - 1];
    }
  }

  lemma DetachTotal(b: Book, id: u64, k: nat, q: seq<u64>)
    requires id in b.orders && QueueOk(b, b.orders[id].side, b.orders[id].price, q) && k < |q| && q[k] == id
    ensures Wrap32(Wrap32(SumQty(b.orders, q)) - b.orders[id].qty) == Wrap32(SumQty(b.orders - {id}, Without(q, k)))
  {
    hide SumQty;
    var r := Without(q, k);
    WithoutIndex(q, k);
    SumWithout(b.orders, q, k);
    assert forall j :: 0 <= j < |r| ==> r[j] in r;
    SumFrame(b.orders, b.orders - {id}, r);
    WrapAdd(SumQty(b.orders, q), b.orders[id].qty);
  }

  lemma DetachElsewhere(os: OrderSlots, m: IdMap, b: Book, id: u64, k: nat, q: seq<u64>, f: Index)
    requires OrdersRep(os, m, b.orders) && id in b.orders && Queued(b, id)
    requires QueueOk(b, b.orders[id].side, b.orders[id].price, q)
    requires SpotReady(os, m, q, k) && q[k] == id
    ensures Elsewhere(os, Unlinked(os, m, q, k, f), m, m - {id}, b, Detach(b, id),
                      b.orders[id].side, b.orders[id].price)
  {
    assert HoldsOrder(os, m[q[k]], q[k], b.orders[q[k]]);
    if k > 0 {
      assert HoldsOrder(os, m[q[k - 1]], q[k - 1], b.orders[q[k - 1]]);
    }
  }

  // ---- Creating and removing levels ------------------------------------------

  /** A fresh empty level represents Open. */
  lemma OpenRep(ls: LevelSlots, ls': LevelSlots, os: OrderSlots, m: IdMap, db: Directory, da: Directory,
                db': Directory, da': Directory, b: Book, side: Side, price: u32, i: Index)
    requires Rep(ls, os, m, db, da, b) && price !in b.On(side)
    requires i < |ls| && ls[i].Free? && LevelsKept(ls, ls', i)
    requires IsLevel(ls', i) && SameLevel(ls'[i].obj, NewLevel(price, side))
    requires DirOf(db', da', side) == DirOf(db, da, side)[price := i]
    requires DirOf(db', da', side.Opposite()) == DirOf(db, da, side.Opposite())
    ensures Rep(ls', os, m, db', da', Open(b, side, price))
  {
    hide Core, LevelsRep, OrdersRep, LevelsKept;
    OpenCore(b, side, price);
    OpenLevels(ls, ls', os, m, db, da, db', da', b, side, price, i);
  }

  lemma OpenLevels(ls: LevelSlots, ls': LevelSlots, os: OrderSlots, m: IdMap, db: Directory, da: Directory,
                   db': Directory, da': Directory, b: Book, side: Side, price: u32, i: Index)
    requires Core(b) && LevelsRep(ls, os, m, db, da, b) && price !in b.On(side)
    requires i < |ls| && ls[i].Free? && LevelsKept(ls, ls', i)
    requires IsLevel(ls', i) && LevelRep(ls'[i].obj, side, price, [], m, b.orders)
    requires DirOf(db', da', side) == DirOf(db, da, side)[price := i]
    requires DirOf(db', da', side.Opposite()) == DirOf(db, da, side.Opposite())
    ensures LevelsRep(ls', os, m, db', da', Open(b, side, price))
  {
    hide Core, LevelsRep, LevelShows, LevelsKept, SlotsNamed, Linked;
    var b' := Open(b, side, price);
    KeysAt(ls, os, m, db, da, b, side);
    ShowsEmpty(ls', i, os, m, side, price, b.orders);
    OpenSlots(ls, ls', db, da, db', da', side, price, i);
    forall s: Side ensures DirOf(db', da', s).Keys == b'.On(s).Keys {
      KeysAt(ls, os, m, db, da, b, s);
    }
    forall s: Side, p | p in b'.On(s)
      ensures LevelShows(ls', DirOf(db', da', s)[p], os, m, s, p, b'.On(s)[p], b'.orders)
    {
      if !(s == side && p == price) {
        assert p in b.On(s) && b'.On(s)[p] == b.On(s)[p];
        assert DirOf(db', da', s)[p] == DirOf(db, da, s)[p];
        ShownAt(ls, os, m, db, da, b, s, p);
        ShownKept(ls, ls', i, DirOf(db, da, s)[p], os, m, s, p, b.On(s)[p], b.orders);
      }
    }
    RepOf(ls', os, m, db', da', b');
  }

  lemma ShowsEmpty(ls: LevelSlots, i: Index, os: OrderSlots, m: IdMap, side: Side, price: u32,
                   orders: map<u64, Resting>)
    requires IsLevel(ls, i) && LevelRep(ls[i].obj, side, price, [], m, orders)
    ensures LevelShows(ls, i, os, m, side, price, [], orders)
  {
  }

  /** Metadata surgery and a change to another slot do not disturb a level. */
  lemma ShownKept(ls: LevelSlots, ls': LevelSlots, i: Index, j: Index, os: OrderSlots, m: IdMap,
                  side: Side, price: u32, q: seq<u64>, orders: map<u64, Resting>)
    requires LevelsKept(ls, ls', i) && LevelShows(ls, j, os, m, side, price, q, orders) && i < |ls|
    requires ls[i].Free? || ls[i].obj.side != side || ls[i].obj.price != price
    ensures LevelShows(ls', j, os, m, side, price, q, orders)
  {
    hide Linked, SumQty;
  }

  lemma OpenSlots(ls: LevelSlots, ls': LevelSlots, db: Directory, da: Directory, db': Directory, da': Directory,
                  side: Side, price: u32, i: Index)
    requires SlotsNamed(ls, db, da) && price !in DirOf(db, da, side)
    requires i < |ls| && ls[i].Free? && LevelsKept(ls, ls', i)
    requires IsLevel(ls', i) && ls'[i].obj.side == side && ls'[i].obj.price == price
    requires DirOf(db', da', side) == DirOf(db, da, side)[price := i]
    requires DirOf(db', da', side.Opposite()) == DirOf(db, da, side.Opposite())
    ensures SlotsNamed(ls', db', da')
  {
  }

  /** Removing an emptied level represents Close. */
  lemma CloseRep(ls: LevelSlots, ls': LevelSlots, os: OrderSlots, m: IdMap, db: Directory, da: Directory,
                 db': Directory, da': Directory, b: Book, side: Side, price: u32, i: Index)
    requires Rep(ls, os, m, db, da, b) && price in b.On(side) && b.On(side)[price] == []
    requires price in DirOf(db, da, side) && i == DirOf(db, da, side)[price] && IsLevel(ls, i)
    requires LevelsKept(ls, ls', i) && i < |ls'| && ls'[i].Free?
    requires DirOf(db', da', side) == DirOf(db, da, side) - {price}
    requires DirOf(db', da', side.Opposite()) == DirOf(db, da, side.Opposite())
    ensures Rep(ls', os, m, db', da', Close(b, side, price))
  {
    hide Core, LevelsRep, OrdersRep, LevelsKept;
    CloseCore(b, side, price);
    CloseLevels(ls, ls', os, m, db, da, db', da', b, side, price, i);
  }

  lemma CloseLevels(ls: LevelSlots, ls': LevelSlots, os: OrderSlots, m: IdMap, db: Directory, da: Directory,
                    db': Directory, da': Directory, b: Book, side: Side, price: u32, i: Index)
    requires Core(b) && LevelsRep(ls, os, m, db, da, b) && price in b.On(side) && b.On(side)[price] == []
    requires price in DirOf(db, da, side) && i == DirOf(db, da, side)[price] && IsLevel(ls, i)
    requires LevelsKept(ls, ls', i) && i < |ls'| && ls'[i].Free?
    requires DirOf(db', da', side) == DirOf(db, da, side) - {price}
    requires DirOf(db', da', side.Opposite()) == DirOf(db, da, side.Opposite())
    ensures LevelsRep(ls', os, m, db', da', Close(b, side, price))
  {
    hide Core, LevelsRep, LevelShows, LevelsKept, SlotsNamed, Linked;
    var b' := Close(b, side, price);
    KeysAt(ls, os, m, db, da, b, side);
    ShownAt(ls, os, m, db, da, b, side, price);
    ShownFields(ls, i, os, m, side, price, b.On(side)[price], b.orders);
    CloseSlots(ls, ls', db, da, db', da', side, price, i);
    forall s: Side ensures DirOf(db', da', s).Keys == b'.On(s).Keys {
      KeysAt(ls, os, m, db, da, b, s);
    }
    forall s: Side, p | p in b'.On(s)
      ensures LevelShows(ls', DirOf(db', da', s)[p], os, m, s, p, b'.On(s)[p], b'.orders)
    {
      assert p in b.On(s) && b'.On(s)[p] == b.On(s)[p];
      assert DirOf(db', da', s)[p] == DirOf(db, da, s)[p];
      ShownAt(ls, os, m, db, da, b, s, p);
      ShownKept(ls, ls', i, DirOf(db, da, s)[p], os, m, s, p, b.On(s)[p], b.orders);
    }
    RepOf(ls', os, m, db', da', b');
  }

  lemma CloseSlots(ls: LevelSlots, ls': LevelSlots, db: Directory, da: Directory, db': Directory, da': Directory,
                   side: Side, price: u32, i: Index)
    requires SlotsNamed(ls, db, da) && price in DirOf(db, da, side) && DirOf(db, da, side)[price] == i
    requires LevelsKept(ls, ls', i) && i < |ls'| && ls'[i].Free?
    requires DirOf(db', da', side) == DirOf(db, da, side) - {price}
    requires DirOf(db', da', side.Opposite()) == DirOf(db, da, side.Opposite())
    ensures SlotsNamed(ls', db', da')
  {
  }
}
