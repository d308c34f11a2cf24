/** FNV-1a style digest of the book: both sides in service order, each level with its FIFO. */
module BookDigests {
  import opened Base
  import opened ObjectPools
  import opened PriceLevels
  import opened Orders
  import opened PricePriority
  import opened BookSpec
  import opened BookRep
  import opened FlatHashMaps
  import opened BookSides
  import opened OrderBooks
  import opened TreeOrder

  const FNV_OFFSET_BASIS: bv64 := 14695981039346656037
  const FNV_PRIME: bv64 := 1099511628211

  // ---- The digest of a book as a value ---------------------------------------

  /** The bytes of a 64-bit word as they lie in memory, least significant first. */
  function LittleEndian(w: bv64): seq<bv64> {
    [w & 0xFF, (w >> 8) & 0xFF, (w >> 16) & 0xFF, (w >> 24) & 0xFF,
     (w >> 32) & 0xFF, (w >> 40) & 0xFF, (w >> 48) & 0xFF, (w >> 56) & 0xFF]
  }

  /** Mixes one byte into the hash. */
  function MixByte(h: bv64, byte: bv64): bv64 {
    (h ^ byte) * FNV_PRIME
  }

  /** FNV-1a over a list of bytes, from an intermediate hash on. */
  function Fnv(h: bv64, bytes: seq<bv64>): bv64
    decreases |bytes|
  {
    if bytes == [] then h else Fnv(MixByte(h, bytes[0]), bytes[1..])
  }

  function WordBytes(v: u64): seq<bv64> {
    LittleEndian(v as bv64)
  }

  function Combine(h: bv64, v: u64): bv64 {
    Fnv(h, WordBytes(v))
  }

  function SideCode(side: Side): u64 {
    if side.Buy? then 0 else 1
  }

  ghost function HashQueue(h: bv64, orders: map<u64, Resting>, q: seq<u64>): bv64
    requires forall k :: 0 <= k < |q| ==> q[k] in orders
    decreases |q|
  {
    if q == [] then h
    else HashQueue(Combine(Combine(h, q[0]), orders[q[0]].qty), orders, q[1..])
  }

  ghost function HashLevel(h: bv64, b: Book, side: Side, price: u32): bv64
    requires Core(b) && price in b.On(side)
  {
    assert QueueOk(b, side, price, b.On(side)[price]);
    var q := b.On(side)[price];
    HashQueue(Combine(Combine(Combine(h, price), SideCode(side)), Wrap32(SumQty(b.orders, q))), b.orders, q)
  }

  /** Every price has a level. */
  ghost predicate Priced(b: Book, side: Side, prices: seq<u32>) {
    forall k :: 0 <= k < |prices| ==> prices[k] in b.On(side)
  }

  ghost function HashLevels(h: bv64, b: Book, side: Side, prices: seq<u32>): bv64
    requires Core(b) && Priced(b, side, prices)
    decreases |prices|
  {
    if prices == [] then h else HashLevels(HashLevel(h, b, side, prices[0]), b, side, prices[1..])
  }

  ghost function HashSide(h: bv64, b: Book, side: Side): bv64
    requires Core(b)
  {
    RankedSound(side, b.On(side).Keys);
    var prices := Ranked(side, b.On(side).Keys);
    assert Priced(b, side, prices) by {
      assert forall k :: 0 <= k < |prices| ==> prices[k] in prices;
    }
    HashLevels(h, b, side, prices)
  }

  /** The digest depends on the abstract book only: not on tree shapes, slot numbers or history. */
  ghost function Digest(b: Book): bv64
    requires Core(b)
  {
    HashSide(HashSide(FNV_OFFSET_BASIS, b, Buy), b, Sell)
  }

  lemma {:induction false} HashConcat(h: bv64, b: Book, side: Side, p: seq<u32>, q: seq<u32>)
    requires Core(b) && Priced(b, side, p) && Priced(b, side, q)
    ensures HashLevels(h, b, side, p + q) == HashLevels(HashLevels(h, b, side, p), b, side, q)
    decreases |p|
  {
    hide Combine, HashLevel, Core;
    if p == [] {
      assert p + q == q;
    } else {
      HashConcat(HashLevel(h, b, side, p[0]), b, side, p[1..], q);
      assert (p + q)[1..] == p[1..] + q;
    }
  }

  lemma HashFew(h: bv64, b: Book, side: Side, p: u32)
    requires Core(b)
    ensures HashLevels(h, b, side, []) == h
    ensures p in b.On(side) ==> HashLevels(h, b, side, [p]) == HashLevel(h, b, side, p)
  {
    hide HashLevel, Core;
    if p in b.On(side) {
      assert [p][1..] == [];
    }
  }

  /** Hashing a tree's levels is hashing one subtree, the root level and the other subtree. */
  lemma HashVisit(h: bv64, b: Book, side: Side, t: S.Tree)
    requires Core(b) && t.Node? && forall e :: e in S.Entries(t) ==> e.price in b.On(side)
    ensures Priced(b, side, Visit(side, t)) && t.price in b.On(side)
    ensures var first, second := if side.Buy? then t.right else t.left, if side.Buy? then t.left else t.right;
            && Priced(b, side, Visit(side, first)) && Priced(b, side, Visit(side, second))
            && HashLevels(h, b, side, Visit(side, t)) ==
               HashLevels(HashLevel(HashLevels(h, b, side, Visit(side, first)), b, side, t.price),
                          b, side, Visit(side, second))
  {
    hide Combine, HashLevel, HashLevels, Core;
    var first, second := if side.Buy? then t.right else t.left, if side.Buy? then t.left else t.right;
    var f, g := Visit(side, first), Visit(side, second);
    assert S.Entry(t.price, t.idx) in S.Entries(t);
    forall p: u32 ensures (p in f ==> p in b.On(side)) && (p in g ==> p in b.On(side)) {
      VisitMembers(side, first, p);
      VisitMembers(side, second, p);
    }
    HashFew(HashLevels(h, b, side, f), b, side, t.price);
    HashConcat(h, b, side, f, [t.price]);
    HashConcat(h, b, side, f + [t.price], g);
  }

  // ---- The traversals --------------------------------------------------------

  method HashCombine(hash: bv64, val: u64) returns (h: bv64)
    ensures h == Combine(hash, val)
  {
    hide MixByte, WordBytes;
    EightBytes(val);
    var p := WordBytes(val);
    h := hash;
    assert p[0..] == p;
    for i := 0 to 8
      invariant Fnv(h, p[i..]) == Combine(hash, val)
    {
      assert p[i..][0] == p[i] && p[i..][1..] == p[i + 1..];
      h := MixByte(h, p[i]);
    }
    assert p[8..] == [];
  }

  lemma EightBytes(v: u64)
    ensures |WordBytes(v)| == 8
  {
  }

  /** The slots and the id map through which a book is read. */
  datatype View = View(levels: LevelSlots, orders: OrderSlots, slotOf: IdMap, book: Book)

  /** Slots of a list hold the queue's orders, in queue order. */
  ghost predicate Listed(v: View, q: seq<u64>) {
    forall k :: 0 <= k < |q| ==>
      && q[k] in v.book.orders && q[k] in v.slotOf && v.slotOf[q[k]] < INVALID
      && HoldsOrder(v.orders, v.slotOf[q[k]], q[k], v.book.orders[q[k]])
      && v.orders[v.slotOf[q[k]]].obj.nextInLevel == SlotAt(v.slotOf, q, k + 1)
  }

  /** The level slot idx shows the queue at a price. */
  ghost predicate ShowsLevel(v: View, side: Side, price: u32, idx: Index) {
    && price in v.book.On(side) && IsLevel(v.levels, idx)
    && LevelRep(v.levels[idx].obj, side, price, v.book.On(side)[price], v.slotOf, v.book.orders)
    && Listed(v, v.book.On(side)[price])
  }

  /** Hashes a FIFO list from its head on. */
  method HashList(hash: bv64, orders: array<Slot<Order>>, head: Index, ghost v: View, ghost q: seq<u64>)
    returns (h: bv64)
    requires orders[..] == v.orders && Listed(v, q) && head == SlotAt(v.slotOf, q, 0)
    ensures forall k :: 0 <= k < |q| ==> q[k] in v.book.orders
    ensures h == HashQueue(hash, v.book.orders, q)
  {
    hide Combine;
    h := hash;
    var curr := head;
    ghost var k := 0;
    assert q[0..] == q;
    while curr != INVALID
      invariant 0 <= k <= |q| && curr == SlotAt(v.slotOf, q, k)
      invariant HashQueue(h, v.book.orders, q[k..]) == HashQueue(hash, v.book.orders, q)
      decreases |q| - k
    {
      var order := orders[curr].obj;
      h := HashCombine(h, order.orderId);
      h := HashCombine(h, order.remainingQty);
      curr := order.nextInLevel;
      assert q[k..][1..] == q[k + 1..];
      k := k + 1;
    }
    assert q[k..] == [];
  }

  /** Hashes the level in slot idx: price, side, total and the orders of its list, front to back. */
  method HashLevelAt(hash: bv64, levels: array<Slot<PriceLevel>>, orders: array<Slot<Order>>, idx: Index,
                     ghost v: View, ghost side: Side, ghost price: u32) returns (h: bv64)
    requires levels[..] == v.levels && orders[..] == v.orders
    requires Core(v.book) && ShowsLevel(v, side, price, idx)
    ensures h == HashLevel(hash, v.book, side, price)
  {
    hide Core, SumQty, Combine, Listed;
    var lvl := levels[idx].obj;
    h := HashCombine(hash, lvl.price);
    h := HashCombine(h, SideCode(lvl.side));
    h := HashCombine(h, lvl.totalQty);
    h := HashList(h, orders, lvl.headOrder, v, v.book.On(side)[price]);
  }

  /** Right to left: bids from the highest price down. */
  method TraverseBids(hash: bv64, levels: array<Slot<PriceLevel>>, orders: array<Slot<Order>>, node: Index,
                      ghost v: View, ghost p: Index, ghost t: S.Tree) returns (h: bv64)
    requires levels[..] == v.levels && orders[..] == v.orders && Core(v.book)
    requires node == Avl.Root(t) && Avl.Rep(v.levels, p, t)
    requires forall e :: e in S.Entries(t) ==> ShowsLevel(v, Buy, e.price, e.idx)
    ensures Priced(v.book, Buy, Visit(Buy, t))
    ensures h == HashLevels(hash, v.book, Buy, Visit(Buy, t))
    decreases t
  {
    hide Core, HashLevel, HashLevels, LevelRep, Listed;
    Avl.RootIsInvalid(v.levels, p, t);
    HashFew(hash, v.book, Buy, 0);
    h := hash;
    if node == INVALID {
      return;
    }
    HashVisit(hash, v.book, Buy, t);
    assert S.Entry(t.price, node) in S.Entries(t);
    h := TraverseBids(h, levels, orders, levels[node].obj.node.right, v, node, t.right);
    h := HashLevelAt(h, levels, orders, node, v, Buy, t.price);
    h := TraverseBids(h, levels, orders, levels[node].obj.node.left, v, node, t.left);
  }

  /** Left to right: asks from the lowest price up. */
  method TraverseAsks(hash: bv64, levels: array<Slot<PriceLevel>>, orders: array<Slot<Order>>, node: Index,
                      ghost v: View, ghost p: Index, ghost t: S.Tree) returns (h: bv64)
    requires levels[..] == v.levels && orders[..] == v.orders && Core(v.book)
    requires node == Avl.Root(t) && Avl.Rep(v.levels, p, t)
    requires forall e :: e in S.Entries(t) ==> ShowsLevel(v, Sell, e.price, e.idx)
    ensures Priced(v.book, Sell, Visit(Sell, t))
    ensures h == HashLevels(hash, v.book, Sell, Visit(Sell, t))
    decreases t
  {
    hide Core, HashLevel, HashLevels, LevelRep, Listed;
    Avl.RootIsInvalid(v.levels, p, t);
    HashFew(hash, v.book, Sell, 0);
    h := hash;
    if node == INVALID {
      return;
    }
    HashVisit(hash, v.book, Sell, t);
    assert S.Entry(t.price, node) in S.Entries(t);
    h := TraverseAsks(h, levels, orders, levels[node].obj.node.left, v, node, t.left);
    h := HashLevelAt(h, levels, orders, node, v, Sell, t.price);
    h := TraverseAsks(h, levels, orders, levels[node].obj.node.right, v, node, t.right);
  }

  ghost function ViewOf(book: OrderBook): View
    reads book, book.Repr()
  {
    View(book.levelPool.slots[..], book.orderPool.slots[..], book.orderMap.contents, book.book)
  }

  lemma TreeShown(book: OrderBook, side: Side)
    requires book.Valid()
    ensures forall e :: e in S.Entries(book.SideOf(side).tree) ==> ShowsLevel(ViewOf(book), side, e.price, e.idx)
  {
    hide OrderBook.Shows, Lively, LevelRep;
    book.TreeFacts(side);
    forall e | e in S.Entries(book.SideOf(side).tree) ensures ShowsLevel(ViewOf(book), side, e.price, e.idx) {
      book.ListFacts(side, e.price);
    }
  }

  method HashSideOf(hash: bv64, book: OrderBook, side: Side) returns (h: bv64)
    requires book.Valid() && Core(book.book)
    ensures h == HashSide(hash, book.book, side)
  {
    hide OrderBook.Shows, Lively, Core, HashLevels, ShowsLevel;
    book.TreeFacts(side);
    TreeShown(book, side);
    ghost var s := book.SideOf(side);
    VisitIsRanked(side, s.tree, s.dir);
    var levels, orders := book.levelPool.slots, book.orderPool.slots;
    if side.Buy? {
      h := TraverseBids(hash, levels, orders, book.bids.avlRoot, ViewOf(book), INVALID, book.bids.tree);
    } else {
      h := TraverseAsks(hash, levels, orders, book.asks.avlRoot, ViewOf(book), INVALID, book.asks.tree);
    }
  }

  /** Two valid books with the same contents get the same digest, however they are laid out. */
  method Compute(book: OrderBook) returns (h: bv64)
    requires book.Valid()
    ensures Core(book.book) && h == Digest(book.book)
  {
    hide Rep, BookSide.Valid, ObjectPool.Valid, FlatHashMap.Valid, Lively, Core, HashSide;
    book.ShownCore();
    h := HashSideOf(FNV_OFFSET_BASIS, book, Buy);
    h := HashSideOf(h, book, Sell);
  }
}
