/** What the digest reads: the list of words of a book, the bytes of each word, and that the words tell the book. */
module BookWords {
  import opened Base
  import opened PricePriority
  import opened BookSpec
  import opened BookDigests
  import opened FillOrKill

  // ---- Bytes -----------------------------------------------------------------

  lemma WordFromBytes(w: bv64)
    ensures w == (w & 0xFF) | (((w >> 8) & 0xFF) << 8) | (((w >> 16) & 0xFF) << 16) | (((w >> 24) & 0xFF) << 24)
                 | (((w >> 32) & 0xFF) << 32) | (((w >> 40) & 0xFF) << 40) | (((w >> 48) & 0xFF) << 48)
                 | (((w >> 56) & 0xFF) << 56)
  {
  }

  /** The eight bytes of a word, put together, are the word. */
  lemma BytesMakeWord(w: bv64)
    ensures var s := LittleEndian(w);
            && |s| == 8
            && w == s[0] | (s[1] << 8) | (s[2] << 16) | (s[3] << 24)
                    | (s[4] << 32) | (s[5] << 40) | (s[6] << 48) | (s[7] << 56)
  {
    WordFromBytes(w);
  }

  /** The constants are those of 64-bit FNV-1a, and an empty book hashes to the offset basis. */
  lemma FnvConstants()
    ensures FNV_PRIME == (1 << 40) + (1 << 8) + 0xB3 && FNV_OFFSET_BASIS == 0xCBF2_9CE4_8422_2325
    ensures Core(EMPTY_BOOK) && Digest(EMPTY_BOOK) == FNV_OFFSET_BASIS
  {
    assert forall side: Side :: EMPTY_BOOK.On(side) == map[];
    BestFirst(EMPTY_BOOK, Buy);
    BestFirst(EMPTY_BOOK, Sell);
    assert Ranked(Buy, EMPTY_BOOK.bids.Keys) == [] && Ranked(Sell, EMPTY_BOOK.asks.Keys) == [];
  }

  lemma {:induction false} FnvConcat(h: bv64, s: seq<bv64>, t: seq<bv64>)
    ensures Fnv(h, s + t) == Fnv(Fnv(h, s), t)
    decreases |s|
  {
    hide MixByte;
    if s == [] {
      assert s + t == t;
    } else {
      FnvConcat(MixByte(h, s[0]), s[1..], t);
      assert (s + t)[1..] == s[1..] + t;
    }
  }

  /** The bytes of a list of words, word by word. */
  function Bytes(words: seq<u64>): seq<bv64> {
    if words == [] then [] else WordBytes(words[0]) + Bytes(words[1..])
  }

  lemma {:induction false} BytesConcat(v: seq<u64>, w: seq<u64>)
    ensures Bytes(v + w) == Bytes(v) + Bytes(w)
  {
    hide WordBytes;
    if v == [] {
      assert v + w == w;
    } else {
      BytesConcat(v[1..], w);
      assert (v + w)[1..] == v[1..] + w;
    }
  }

  /** Hashing words is hashing their bytes; more words go on from there. */
  function Hash(h: bv64, words: seq<u64>): bv64 {
    Fnv(h, Bytes(words))
  }

  lemma HashConcat(h: bv64, v: seq<u64>, w: seq<u64>)
    ensures Hash(h, v + w) == Hash(Hash(h, v), w)
  {
    BytesConcat(v, w);
    FnvConcat(h, Bytes(v), Bytes(w));
  }

  lemma HashWord(h: bv64, w: u64)
    ensures Hash(h, []) == h && Hash(h, [w]) == Combine(h, w)
  {
    hide WordBytes, MixByte;
    assert [w][1..] == [] && Bytes([]) == [];
    assert WordBytes(w) + [] == WordBytes(w);
  }

  // ---- Words -----------------------------------------------------------------

  /** A level as the digest sees it: price, side and the waiting ids with their quantities, oldest first. */
  datatype Shelf = Shelf(price: u32, side: Side, orders: seq<(u64, u32)>)

  function SumOf(orders: seq<(u64, u32)>): nat {
    if orders == [] then 0 else orders[0].1 + SumOf(orders[1..])
  }

  function OrderWords(orders: seq<(u64, u32)>): seq<u64> {
    if orders == [] then [] else [orders[0].0, orders[0].1] + OrderWords(orders[1..])
  }

  /** Price, side (0 for bids, 1 for asks), total modulo 2^32, then id and quantity of each order. */
  function ShelfWords(s: Shelf): seq<u64> {
    [s.price, if s.side == Buy then 0 else 1, SumOf(s.orders) % W32] + OrderWords(s.orders)
  }

  function ShelvesWords(shelves: seq<Shelf>): seq<u64> {
    if shelves == [] then [] else ShelfWords(shelves[0]) + ShelvesWords(shelves[1..])
  }

  /** The orders of a queue with their quantities. */
  ghost function Waiters(b: Book, side: Side, price: u32, q: seq<u64>): seq<(u64, u32)>
    requires QueueOk(b, side, price, q)
  {
    seq(|q|, k requires 0 <= k < |q| => (q[k], b.orders[q[k]].qty))
  }

  ghost function ShelfAt(b: Book, side: Side, price: u32): Shelf
    requires Core(b) && price in b.On(side)
  {
    assert QueueOk(b, side, price, b.On(side)[price]);
    Shelf(price, side, Waiters(b, side, price, b.On(side)[price]))
  }

  ghost function Shelves(b: Book, side: Side, prices: seq<u32>): seq<Shelf>
    requires Core(b) && Priced(b, side, prices)
  {
    seq(|prices|, k requires 0 <= k < |prices| => ShelfAt(b, side, prices[k]))
  }

  lemma BestFirst(b: Book, side: Side)
    ensures Priced(b, side, Ranked(side, b.On(side).Keys))
    ensures StrictlyRanked(side, Ranked(side, b.On(side).Keys))
    ensures forall p :: p in Ranked(side, b.On(side).Keys) <==> p in b.On(side)
  {
    var prices := Ranked(side, b.On(side).Keys);
    RankedSound(side, b.On(side).Keys);
    assert forall k :: 0 <= k < |prices| ==> prices[k] in prices;
  }

  /** All levels of a book: bids from the highest price down, then asks from the lowest up. */
  ghost function AllShelves(b: Book): seq<Shelf>
    requires Core(b)
  {
    BestFirst(b, Buy);
    BestFirst(b, Sell);
    Shelves(b, Buy, Ranked(Buy, b.bids.Keys)) + Shelves(b, Sell, Ranked(Sell, b.asks.Keys))
  }

  ghost function Words(b: Book): seq<u64>
    requires Core(b)
  {
    ShelvesWords(AllShelves(b))
  }

  // ---- The digest hashes the words -------------------------------------------

  lemma HashOne(h: bv64, w: u64, ws: seq<u64>)
    ensures Hash(h, [w] + ws) == Hash(Combine(h, w), ws)
  {
    hide Hash, Combine;
    HashConcat(h, [w], ws);
    HashWord(h, w);
  }

  lemma WaitersFirst(b: Book, side: Side, price: u32, q: seq<u64>)
    requires QueueOk(b, side, price, q) && q != []
    ensures QueueOk(b, side, price, q[1..])
    ensures Waiters(b, side, price, q) == [(q[0], b.orders[q[0]].qty)] + Waiters(b, side, price, q[1..])
  {
  }

  lemma {:induction false} QueueHash(h: bv64, b: Book, side: Side, price: u32, q: seq<u64>)
    requires QueueOk(b, side, price, q)
    ensures HashQueue(h, b.orders, q) == Hash(h, OrderWords(Waiters(b, side, price, q)))
    decreases |q|
  {
    hide Hash, Combine, Waiters;
    if q == [] {
      assert Waiters(b, side, price, q) == [] by {
        NoWaiters(b, side, price);
      }
      HashWord(h, 0);
    } else {
      var qty, rest := b.orders[q[0]].qty, Waiters(b, side, price, q[1..]);
      WaitersFirst(b, side, price, q);
      assert OrderWords(Waiters(b, side, price, q)) == [q[0]] + ([qty as u64] + OrderWords(rest)) by {
        assert ([(q[0], qty)] + rest)[1..] == rest;
      }
      HashOne(h, q[0], [qty as u64] + OrderWords(rest));
      HashOne(Combine(h, q[0]), qty, OrderWords(rest));
      QueueHash(Combine(Combine(h, q[0]), qty), b, side, price, q[1..]);
    }
  }

  lemma NoWaiters(b: Book, side: Side, price: u32)
    ensures QueueOk(b, side, price, []) && Waiters(b, side, price, []) == []
  {
  }

  /** The quantities a shelf lists add up to the sum of its queue. */
  lemma {:induction false} WaitersSum(b: Book, side: Side, price: u32, q: seq<u64>)
    requires QueueOk(b, side, price, q)
    ensures SumOf(Waiters(b, side, price, q)) == SumQty(b.orders, q)
    decreases |q|
  {
    if q != [] {
      WaitersFirst(b, side, price, q);
      WaitersSum(b, side, price, q[1..]);
      SumConcat(b.orders, [q[0]], q[1..]);
      assert [q[0]] + q[1..] == q && [q[0]][..0] == [];
    }
  }

  lemma LevelHash(h: bv64, b: Book, side: Side, price: u32)
    requires Core(b) && price in b.On(side)
    ensures HashLevel(h, b, side, price) == Hash(h, ShelfWords(ShelfAt(b, side, price)))
  {
    hide Hash, Combine, Waiters, SumQty, SumOf;
    assert QueueOk(b, side, price, b.On(side)[price]);
    var q := b.On(side)[price];
    var os := Waiters(b, side, price, q);
    WaitersSum(b, side, price, q);
    var code: u64, total: u64 := SideCode(side), Wrap32(SumQty(b.orders, q));
    assert ShelfWords(ShelfAt(b, side, price)) == [price as u64] + ([code] + ([total] + OrderWords(os)));
    HashOne(h, price, [code] + ([total] + OrderWords(os)));
    HashOne(Combine(h, price), code, [total] + OrderWords(os));
    HashOne(Combine(Combine(h, price), code), total, OrderWords(os));
    QueueHash(Combine(Combine(Combine(h, price), code), total), b, side, price, q);
  }

  lemma {:induction false} LevelsHash(h: bv64, b: Book, side: Side, prices: seq<u32>)
    requires Core(b) && Priced(b, side, prices)
    ensures HashLevels(h, b, side, prices) == Hash(h, ShelvesWords(Shelves(b, side, prices)))
    decreases |prices|
  {
    hide Hash, HashLevel, ShelfAt, ShelfWords, Core;
    var shelves := Shelves(b, side, prices);
    if prices == [] {
      HashWord(h, 0);
    } else {
      LevelHash(h, b, side, prices[0]);
      LevelsHash(HashLevel(h, b, side, prices[0]), b, side, prices[1..]);
      assert shelves[1..] == Shelves(b, side, prices[1..]);
      HashConcat(h, ShelfWords(shelves[0]), ShelvesWords(shelves[1..]));
    }
  }

  lemma {:induction false} ShelvesConcat(s: seq<Shelf>, t: seq<Shelf>)
    ensures ShelvesWords(s + t) == ShelvesWords(s) + ShelvesWords(t)
  {
    hide ShelfWords;
    if s == [] {
      assert s + t == t;
    } else {
      ShelvesConcat(s[1..], t);
      assert (s + t)[1..] == s[1..] + t;
    }
  }

  /** The digest is the FNV-1a hash of the bytes of the book's words. */
  lemma DigestHashesWords(b: Book)
    requires Core(b)
    ensures Digest(b) == Fnv(FNV_OFFSET_BASIS, Bytes(Words(b)))
  {
    hide Core, HashLevels, Shelves, ShelvesWords, Fnv, Bytes;
    BestFirst(b, Buy);
    BestFirst(b, Sell);
    var bids, asks := Shelves(b, Buy, Ranked(Buy, b.bids.Keys)), Shelves(b, Sell, Ranked(Sell, b.asks.Keys));
    LevelsHash(FNV_OFFSET_BASIS, b, Buy, Ranked(Buy, b.bids.Keys));
    LevelsHash(Hash(FNV_OFFSET_BASIS, ShelvesWords(bids)), b, Sell, Ranked(Sell, b.asks.Keys));
    ShelvesConcat(bids, asks);
    HashConcat(FNV_OFFSET_BASIS, ShelvesWords(bids), ShelvesWords(asks));
  }

  // ---- The words tell the book -----------------------------------------------

  /** Every order has a quantity, there is one, and the total is below 2^32. */
  ghost predicate Readable(s: Shelf) {
    s.orders != [] && Positive(s.orders) && SumOf(s.orders) < W32
  }

  ghost predicate Positive(orders: seq<(u64, u32)>) {
    forall k :: 0 <= k < |orders| ==> orders[k].1 > 0
  }

  /** Reading orders until the total is reached ends at the same place. */
  lemma {:induction false} OrdersDecode(o: seq<(u64, u32)>, p: seq<(u64, u32)>, v: seq<u64>, w: seq<u64>)
    requires Positive(o) && Positive(p) && SumOf(o) == SumOf(p)
    requires OrderWords(o) + v == OrderWords(p) + w
    ensures o == p && v == w
  {
    if o == [] || p == [] {
      assert o == [] && p == [];
      assert OrderWords(o) + v == v && OrderWords(p) + w == w;
    } else {
      var l, r := OrderWords(o) + v, OrderWords(p) + w;
      assert l[0] == o[0].0 && l[1] == o[0].1 && l[2..] == OrderWords(o[1..]) + v;
      assert r[0] == p[0].0 && r[1] == p[0].1 && r[2..] == OrderWords(p[1..]) + w;
      OrdersDecode(o[1..], p[1..], v, w);
      assert o == [o[0]] + o[1..] && p == [p[0]] + p[1..];
    }
  }

  lemma SameHead(x: u64, v: seq<u64>, y: u64, w: seq<u64>)
    requires [x] + v == [y] + w
    ensures x == y && v == w
  {
    assert ([x] + v)[0] == x && ([y] + w)[0] == y;
    assert ([x] + v)[1..] == v && ([y] + w)[1..] == w;
  }

  /** The words of a shelf one by one, with what follows them. */
  lemma ShelfUnrolled(s: Shelf, v: seq<u64>)
    ensures ShelfWords(s) + v ==
            [s.price as u64] + ([(if s.side == Buy then 0 else 1) as u64] +
              ([(SumOf(s.orders) % W32) as u64] + (OrderWords(s.orders) + v)))
  {
  }

  lemma ShelfDecode(s: Shelf, t: Shelf, v: seq<u64>, w: seq<u64>)
    requires Readable(s) && Readable(t) && ShelfWords(s) + v == ShelfWords(t) + w
    ensures s == t && v == w
  {
    hide ShelfWords, OrderWords, SumOf;
    ShelfUnrolled(s, v);
    ShelfUnrolled(t, w);
    var p, q := OrderWords(s.orders) + v, OrderWords(t.orders) + w;
    var i: u64, j: u64 := if s.side == Buy then 0 else 1, if t.side == Buy then 0 else 1;
    var m: u64, n: u64 := SumOf(s.orders) % W32, SumOf(t.orders) % W32;
    SameHead(s.price, [i] + ([m] + p), t.price, [j] + ([n] + q));
    SameHead(i, [m] + p, j, [n] + q);
    SameHead(m, p, n, q);
    OrdersDecode(s.orders, t.orders, v, w);
  }

  lemma {:induction false} ShelvesDecode(s: seq<Shelf>, t: seq<Shelf>)
    requires (forall k :: 0 <= k < |s| ==> Readable(s[k])) && (forall k :: 0 <= k < |t| ==> Readable(t[k]))
    requires ShelvesWords(s) == ShelvesWords(t)
    ensures s == t
  {
    hide Readable;
    if s != [] && t != [] {
      ShelfDecode(s[0], t[0], ShelvesWords(s[1..]), ShelvesWords(t[1..]));
      ShelvesDecode(s[1..], t[1..]);
      assert s == [s[0]] + s[1..] && t == [t[0]] + t[1..];
    }
  }

  /** A shelf of a book is that of its own side and price, and every level has one. */
  lemma ShelfOf(b: Book, k: nat)
    requires Core(b) && k < |AllShelves(b)|
    ensures var s := AllShelves(b)[k]; s.price in b.On(s.side) && s == ShelfAt(b, s.side, s.price)
  {
    BestFirst(b, Buy);
    BestFirst(b, Sell);
  }

  lemma ShelfFor(b: Book, side: Side, price: u32) returns (k: nat)
    requires Core(b) && price in b.On(side)
    ensures k < |AllShelves(b)| && AllShelves(b)[k] == ShelfAt(b, side, price)
  {
    BestFirst(b, Buy);
    BestFirst(b, Sell);
    var bids, asks := Ranked(Buy, b.bids.Keys), Ranked(Sell, b.asks.Keys);
    if side == Buy {
      k :| 0 <= k < |bids| && bids[k] == price;
    } else {
      var j :| 0 <= j < |asks| && asks[j] == price;
      k := |bids| + j;
    }
  }

  lemma ShelfReadable(b: Book, side: Side, price: u32)
    requires WellFormed(b) && TotalsFit(b, side) && price in b.On(side)
    ensures Readable(ShelfAt(b, side, price))
  {
    assert QueueOk(b, side, price, b.On(side)[price]);
    WaitersSum(b, side, price, b.On(side)[price]);
  }

  /** A shelf gives back its queue and the quantities in it. */
  lemma ShelfTells(b: Book, c: Book, side: Side, price: u32)
    requires Core(b) && Core(c) && price in b.On(side) && price in c.On(side)
    requires ShelfAt(b, side, price) == ShelfAt(c, side, price)
    ensures b.On(side)[price] == c.On(side)[price]
    ensures forall id :: id in b.On(side)[price] ==> id in b.orders && id in c.orders && b.orders[id] == c.orders[id]
  {
    var q, r := b.On(side)[price], c.On(side)[price];
    assert QueueOk(b, side, price, q) && QueueOk(c, side, price, r);
    var v, w := Waiters(b, side, price, q), Waiters(c, side, price, r);
    assert v == w && |q| == |v| && |r| == |w|;
    forall k | 0 <= k < |q| ensures q[k] == r[k] && b.orders[q[k]] == c.orders[q[k]] {
      assert v[k] == (q[k], b.orders[q[k]].qty) && w[k] == (r[k], c.orders[r[k]].qty);
    }
  }

  lemma ShelvesIncluded(b: Book, c: Book, side: Side, price: u32)
    requires Core(b) && Core(c) && AllShelves(b) == AllShelves(c) && price in b.On(side)
    ensures price in c.On(side) && ShelfAt(b, side, price) == ShelfAt(c, side, price)
  {
    hide Core, AllShelves;
    var k := ShelfFor(b, side, price);
    ShelfOf(c, k);
  }

  lemma ShelvesDetermine(b: Book, c: Book)
    requires Core(b) && Core(c) && AllShelves(b) == AllShelves(c)
    ensures b == c
  {
    hide Core, AllShelves, ShelfAt, Queued;
    forall side: Side ensures b.On(side) == c.On(side) {
      forall p: u32 ensures p in b.On(side) <==> p in c.On(side)
                    ensures p in b.On(side) ==> b.On(side)[p] == c.On(side)[p] {
        if p in b.On(side) {
          ShelvesIncluded(b, c, side, p);
          ShelfTells(b, c, side, p);
        } else if p in c.On(side) {
          ShelvesIncluded(c, b, side, p);
        }
      }
    }
    forall id: u64 ensures id in b.orders <==> id in c.orders
                   ensures id in b.orders ==> b.orders[id] == c.orders[id] {
      if id in b.orders {
        OrderTold(b, c, id);
      } else if id in c.orders {
        OrderTold(c, b, id);
      }
    }
    assert b.On(Buy) == c.On(Buy) && b.On(Sell) == c.On(Sell);
  }

  lemma OrderTold(b: Book, c: Book, id: u64)
    requires Core(b) && Core(c) && AllShelves(b) == AllShelves(c) && id in b.orders
    ensures id in c.orders && c.orders[id] == b.orders[id]
  {
    hide AllShelves, ShelfAt;
    assert Queued(b, id);
    var o := b.orders[id];
    ShelvesIncluded(b, c, o.side, o.price);
    ShelfTells(b, c, o.side, o.price);
  }

  /** The words determine the book, as long as no level total wraps: what the digest reads is the whole book. */
  lemma WordsDetermine(b: Book, c: Book)
    requires WellFormed(b) && WellFormed(c)
    requires TotalsFit(b, Buy) && TotalsFit(b, Sell) && TotalsFit(c, Buy) && TotalsFit(c, Sell)
    ensures Words(b) == Words(c) <==> b == c
  {
    if Words(b) == Words(c) {
      AllReadable(b);
      AllReadable(c);
      ShelvesDecode(AllShelves(b), AllShelves(c));
      ShelvesDetermine(b, c);
    }
  }

  lemma AllReadable(b: Book)
    requires WellFormed(b) && TotalsFit(b, Buy) && TotalsFit(b, Sell)
    ensures forall k :: 0 <= k < |AllShelves(b)| ==> Readable(AllShelves(b)[k])
  {
    hide Core, Lively, AllShelves, Readable, ShelfAt, TotalsFit;
    forall k | 0 <= k < |AllShelves(b)| ensures Readable(AllShelves(b)[k]) {
      ShelfOf(b, k);
      ShelfReadable(b, AllShelves(b)[k].side, AllShelves(b)[k].price);
    }
  }
}
