/** One side of the book: its level tree, cached best level and dense price table. */
module BookSides {
  import opened Base
  import opened ObjectPools
  import opened PriceLevels
  import opened PricePriority
  import opened AvlStats
  import opened FlatPriceArrays
  import S = AvlSpec
  import Avl = AvlTree
  import opened AvlHeight
  import opened Powers

  /** Size of the dense window: levels may only exist at prices below it. */
  const WINDOW: nat := 10000

  /** dir is the directory of levels that tree stands for. */
  ghost predicate Holds(tree: S.Tree, dir: map<u32, Index>) {
    && (forall e :: e in S.Entries(tree) ==> e.price in dir && dir[e.price] == e.idx)
    && (forall p :: p in dir ==> S.Entry(p, dir[p]) in S.Entries(tree))
  }

  /** The slots hold an AVL tree of this side's levels. */
  ghost predicate TreeInv(s: LevelSlots, side: Side, tree: S.Tree, dir: map<u32, Index>) {
    && S.Avl(tree) && S.Distinct(tree) && Avl.Rep(s, INVALID, tree)
    && Holds(tree, dir)
    && forall p :: p in dir ==> IsLevel(s, dir[p]) && s[dir[p]].obj.side == side && s[dir[p]].obj.price == p
  }

  /** The cached best level. */
  ghost predicate Bbo(side: Side, dir: map<u32, Index>, bbo: Index) {
    bbo == if dir == map[] then INVALID else dir[Best(side, dir.Keys)]
  }

  /** The dense table agrees with the directory inside the window. */
  ghost predicate Dense(table: seq<Index>, dir: map<u32, Index>) {
    && |table| == WINDOW
    && (forall p :: p in dir ==> p < WINDOW && table[p] == dir[p] && dir[p] < INVALID)
    && (forall p: u32 :: p < WINDOW && p !in dir ==> table[p] == INVALID)
  }

  // ---- Directory facts -------------------------------------------------------

  /** A tree visits exactly the slots its directory names, and names each once. */
  lemma SlotsOfDir(tree: S.Tree, dir: map<u32, Index>)
    requires Holds(tree, dir)
    ensures forall i :: i in S.Ids(tree) <==> exists p :: p in dir && dir[p] == i
  {
    S.EntrySlots(tree);
    forall i | i in S.Ids(tree) ensures exists p :: p in dir && dir[p] == i {
      var e :| e in S.Entries(tree) && e.idx == i;
      assert dir[e.price] == i;
    }
  }

  lemma {:induction false} EntryCount(entries: set<S.Entry>, dir: map<u32, Index>)
    requires forall e :: e in entries ==> e.price in dir && dir[e.price] == e.idx
    requires forall p :: p in dir ==> S.Entry(p, dir[p]) in entries
    ensures |entries| == |dir|
  {
    if entries == {} {
      assert forall p :: p !in dir;
    } else {
      var e :| e in entries;
      EntryCount(entries - {e}, dir - {e.price});
      assert |dir - {e.price}| == |dir| - 1;
    }
  }

  lemma HasPriceIsDir(tree: S.Tree, dir: map<u32, Index>, price: u32)
    requires Holds(tree, dir)
    ensures S.HasPrice(tree, price) <==> price in dir
  {
    if price in dir {
      assert S.Entry(price, dir[price]) in S.Entries(tree);
    }
  }

  lemma BestUnique(side: Side, p: u32, prices: set<u32>)
    requires IsBest(side, p, prices)
    ensures Best(side, prices) == p
  {
  }

  /** A new price becomes the best exactly when it beats the old best. */
  lemma BboInsert(side: Side, dir: map<u32, Index>, price: u32, idx: Index, bbo: Index)
    requires Bbo(side, dir, bbo) && price !in dir
    requires forall p :: p in dir ==> dir[p] < INVALID
    ensures bbo == INVALID <==> dir == map[]
    ensures Bbo(side, dir[price := idx],
                if dir == map[] || Better(side, price, Best(side, dir.Keys)) then idx else bbo)
  {
    var d := dir[price := idx];
    if dir == map[] {
      assert d.Keys == {price};
    } else {
      var b := Best(side, dir.Keys);
      BestUnique(side, if Better(side, price, b) then price else b, d.Keys);
    }
  }

  /** Taking away another price leaves the best in place. */
  lemma BboRemove(side: Side, dir: map<u32, Index>, price: u32, bbo: Index)
    requires Bbo(side, dir, bbo) && price in dir && dir[price] != bbo
    ensures Bbo(side, dir - {price}, bbo)
  {
    var d := dir - {price};
    assert Best(side, dir.Keys) in d;
    BestUnique(side, Best(side, dir.Keys), d.Keys);
  }

  /** The extreme node of the tree is the best level of the directory. */
  lemma ExtremeIsBest(side: Side, tree: S.Tree, dir: map<u32, Index>)
    requires S.Ordered(tree) && Holds(tree, dir)
    ensures tree.Leaf? <==> dir == map[]
    ensures tree.Node? ==>
              dir[Best(side, dir.Keys)] == (if side.Buy? then S.Rightmost(tree) else S.Leftmost(tree)).idx
  {
    if tree.Node? {
      S.RightmostIsGreatest(tree);
      S.LeftmostIsLeast(tree);
      var m := if side.Buy? then S.Rightmost(tree) else S.Leftmost(tree);
      assert m.price in dir && dir[m.price] == m.idx;
      forall q | q in dir ensures !Better(side, q, m.price) {
        assert S.Entry(q, dir[q]) in S.Entries(tree);
      }
      BestUnique(side, m.price, dir.Keys);
    } else {
      forall p ensures p !in dir {
        if p in dir {
          assert false;
        }
      }
    }
  }

  /** Changes that leave tree metadata, prices and sides of this side's levels alone keep the invariant. */
  lemma {:induction false} RepPayload(s: LevelSlots, s': LevelSlots, parent: Index, t: S.Tree)
    requires Avl.Rep(s, parent, t)
    requires forall i :: i in S.Ids(t) && IsLevel(s, i) ==>
               IsLevel(s', i) && s'[i].obj.price == s[i].obj.price && s'[i].obj.node == s[i].obj.node
    ensures Avl.Rep(s', parent, t)
    decreases t
  {
    if t.Node? {
      RepPayload(s, s', t.idx, t.left);
      RepPayload(s, s', t.idx, t.right);
    }
  }

  lemma TreeInvKept(s: LevelSlots, s': LevelSlots, side: Side, tree: S.Tree, dir: map<u32, Index>)
    requires TreeInv(s, side, tree, dir)
    requires forall p :: p in dir ==>
               && IsLevel(s', dir[p])
               && s'[dir[p]].obj.price == s[dir[p]].obj.price
               && s'[dir[p]].obj.side == s[dir[p]].obj.side
               && s'[dir[p]].obj.node == s[dir[p]].obj.node
    ensures TreeInv(s', side, tree, dir)
  {
    SlotsOfDir(tree, dir);
    RepPayload(s, s', INVALID, tree);
  }

  lemma HoldsMore(tree: S.Tree, u: S.Tree, dir: map<u32, Index>, price: u32, idx: Index)
    requires Holds(tree, dir) && price !in dir
    requires S.Entries(u) == S.Entries(tree) + {S.Entry(price, idx)}
    ensures Holds(u, dir[price := idx])
  {
  }

  /** The tree after insertion of a fresh price stands for the extended directory. */
  lemma InsertHolds(tree: S.Tree, dir: map<u32, Index>, price: u32, idx: Index)
    requires S.Avl(tree) && S.Distinct(tree) && Holds(tree, dir) && price !in dir && idx !in S.Ids(tree)
    ensures var u := S.Insert(tree, price, idx);
            S.Avl(u) && S.Distinct(u) && Holds(u, dir[price := idx])
  {
    var u := S.Insert(tree, price, idx);
    assert S.Ordered(u) && Holds(u, dir[price := idx]) by {
      HasPriceIsDir(tree, dir, price);
      S.InsertAdds(tree, price, idx);
      HoldsMore(tree, u, dir, price, idx);
    }
    assert S.Distinct(u) by { S.InsertOccupies(tree, price, idx); }
    assert S.Balanced(u) by { S.InsertBalances(tree, price, idx, S.Counts(0, 0, 0, 0)); }
  }

  lemma RemoveHolds(tree: S.Tree, dir: map<u32, Index>, price: u32)
    requires S.Avl(tree) && S.Distinct(tree) && Holds(tree, dir) && price in dir
    ensures var u := S.Remove(tree, price);
            S.Avl(u) && S.Distinct(u) && Holds(u, dir - {price})
  {
    var e := S.Entry(price, dir[price]);
    S.RemoveDrops(tree, e);
    S.RemoveReleases(tree, e);
    S.RemoveBalances(tree, price);
  }

  /** Linking level idx into the tree extends the directory and keeps the invariant. */
  lemma InsertInv(s: LevelSlots, s': LevelSlots, side: Side, tree: S.Tree, dir: map<u32, Index>, price: u32, idx: Index)
    requires TreeInv(s, side, tree, dir) && price !in dir && idx !in S.Ids(tree)
    requires IsLevel(s, idx) && s[idx].obj.price == price && s[idx].obj.side == side
    requires OnlyNodes(s, s', S.Ids(tree) + {idx})
    requires Avl.Rep(s', INVALID, S.Insert(tree, price, idx))
    ensures TreeInv(s', side, S.Insert(tree, price, idx), dir[price := idx])
  {
    InsertHolds(tree, dir, price, idx);
    SlotsOfDir(tree, dir);
  }

  lemma RemoveInv(s: LevelSlots, s': LevelSlots, side: Side, tree: S.Tree, dir: map<u32, Index>, price: u32)
    requires TreeInv(s, side, tree, dir) && price in dir
    requires OnlyNodes(s, s', S.Ids(tree))
    requires Avl.Rep(s', INVALID, S.Remove(tree, price))
    ensures TreeInv(s', side, S.Remove(tree, price), dir - {price})
  {
    RemoveHolds(tree, dir, price);
    SlotsOfDir(tree, dir);
  }

  lemma DenseInsert(table: seq<Index>, dir: map<u32, Index>, price: u32, idx: Index)
    requires Dense(table, dir) && price < WINDOW && idx < INVALID
    ensures Dense(table[price := idx], dir[price := idx])
  {
  }

  lemma DenseRemove(table: seq<Index>, dir: map<u32, Index>, price: u32)
    requires Dense(table, dir) && price < WINDOW
    ensures Dense(table[price := INVALID], dir - {price})
  {
  }

  /** The pool after tree surgery: same slots live, same free chain. */
  lemma SurgeryKeepsPool(s: LevelSlots, s': LevelSlots, ids: set<Index>, head: Index, free: seq<Index>)
    requires FreeChain(s, head, free) && OnlyNodes(s, s', ids)
    requires forall i :: i in ids ==> IsLevel(s, i)
    ensures FreeChain(s', head, free) && LiveSet(s') == LiveSet(s)
  {
    FreeChainKept(s, s', head, free);
  }

  /** Trees of different sides share no slots. */
  lemma SidesApart(s: LevelSlots, side: Side, tree: S.Tree, dir: map<u32, Index>,
                   side': Side, tree': S.Tree, dir': map<u32, Index>)
    requires TreeInv(s, side, tree, dir) && TreeInv(s, side', tree', dir') && side != side'
    ensures forall p :: p in dir' ==> dir'[p] !in S.Ids(tree)
  {
    SlotsOfDir(tree, dir);
  }

  class BookSide {
    const side: Side
    const dense: FlatPriceArray
    var avlRoot: Index
    var bboIdx: Index
    var levelCount: nat
    ghost var tree: S.Tree
    ghost var dir: map<u32, Index>

    ghost function Repr(): set<object> {
      {this, dense, dense.levelIndices}
    }

    /** Everything but best level, level count and height statistics is up to date. */
    ghost predicate Linked(s: LevelSlots)
      reads this`avlRoot, this`tree, this`dir, dense, dense.levelIndices
    {
      && dense.Valid() && dense.anchorPrice == 0 && dense.tickSize == 1
      && Dense(dense.levelIndices[..], dir)
      && TreeInv(s, side, tree, dir)
      && avlRoot == Avl.Root(tree)
    }

    /** The side is consistent with the level slots s. */
    ghost predicate Valid(s: LevelSlots)
      reads this, dense, dense.levelIndices
    {
      && Linked(s)
      && Bbo(side, dir, bboIdx)
      && levelCount == |dir|
    }

    constructor (side: Side)
      ensures this.side == side && dir == map[] && fresh(Repr()) && allocated(Repr())
      ensures forall s: LevelSlots :: Valid(s)
    {
      this.side := side;
      dense := new FlatPriceArray(WINDOW, 0, 1);
      avlRoot, bboIdx, levelCount := INVALID, INVALID, 0;
      tree, dir := S.Leaf, map[];
    }

    /** Only tree metadata, prices and sides of this side's own levels matter to it. */
    lemma ValidKept(s: LevelSlots, s': LevelSlots)
      requires Valid(s)
      requires forall p :: p in dir ==>
                 && IsLevel(s', dir[p])
                 && s'[dir[p]].obj.price == s[dir[p]].obj.price
                 && s'[dir[p]].obj.side == s[dir[p]].obj.side
                 && s'[dir[p]].obj.node == s[dir[p]].obj.node
      ensures Valid(s')
    {
      TreeInvKept(s, s', side, tree, dir);
    }

    /** A change of one slot outside this side. */
    lemma KeptBySlot(s: LevelSlots, s': LevelSlots, idx: Index)
      requires Valid(s) && idx < |s| == |s'| && s' == s[idx := s'[idx]] && forall p :: p in dir ==> dir[p] != idx
      ensures Valid(s')
    {
      ValidKept(s, s');
    }

    /** Writing order fields of a level. */
    lemma KeptByPayload(s: LevelSlots, s': LevelSlots, idx: Index)
      requires Valid(s) && IsLevel(s, idx) && IsLevel(s', idx) && |s'| == |s| && s' == s[idx := s'[idx]]
      requires var a, b := s[idx].obj, s'[idx].obj; a.price == b.price && a.side == b.side && a.node == b.node
      ensures Valid(s')
    {
      ValidKept(s, s');
    }

    /** The two sides occupy different slots. */
    lemma Apart(s: LevelSlots, other: BookSide)
      requires Valid(s) && other.Valid(s) && side != other.side
      ensures forall p :: p in other.dir ==> other.dir[p] !in S.Ids(tree)
    {
      SidesApart(s, side, tree, dir, other.side, other.tree, other.dir);
    }

    /** Surgery on tree metadata of slots outside this side. */
    lemma KeptBySurgery(s: LevelSlots, s': LevelSlots, ids: set<Index>)
      requires Valid(s) && OnlyNodes(s, s', ids) && forall p :: p in dir ==> dir[p] !in ids
      ensures Valid(s')
    {
      ValidKept(s, s');
    }

    /** A slot outside the live ones belongs to no level. */
    lemma FreshSlot(s: LevelSlots, s': LevelSlots, idx: Index)
      requires Valid(s) && idx < |s| == |s'| && s[idx].Free? && s' == s[idx := s'[idx]] && s'[idx].Live?
      ensures idx !in S.Ids(tree)
      ensures forall p :: p in dir ==> dir[p] != idx
      ensures forall i :: i in S.Ids(tree) + {idx} ==> IsLevel(s', i)
    {
      SlotsOfDir(tree, dir);
      Avl.RepIds(s, INVALID, tree);
    }

    /** The tree behind a consistent side. */
    lemma TreeFacts(s: LevelSlots)
      requires Valid(s)
      ensures S.Avl(tree) && Holds(tree, dir) && Avl.Rep(s, INVALID, tree) && avlRoot == Avl.Root(tree)
      ensures avlRoot == INVALID <==> dir == map[]
    {
      ExtremeIsBest(side, tree, dir);
      Avl.RootIsInvalid(s, INVALID, tree);
    }

    /** The tree is never higher than 1.45 * log2(levels + 1). */
    lemma HeightWithinBound(s: LevelSlots)
      requires Valid(s)
      ensures Power(2, 20 * S.Height(tree)) <= Power(levelCount + 1, 29)
    {
      hide Power, Bbo, Dense, S.Ordered, S.Distinct;
      HeightIsLogarithmic(tree);
      S.SizeIsEntries(tree);
      EntryCount(S.Entries(tree), dir);
    }

    lemma InWindow(s: LevelSlots, price: u32)
      requires Valid(s) && price in dir
      ensures price < WINDOW && dir[price] < INVALID
    {
    }

    /** Takes a slot for a new, empty level; the level is not in the tree yet. */
    method CreateLevel(price: u32, pool: ObjectPool<PriceLevel>) returns (idx: Index)
      requires pool.Valid()
      modifies pool, pool.slots
      ensures pool.Valid()
      ensures idx == INVALID <==> |LiveSet(old(pool.slots[..]))| == pool.slots.Length
      ensures idx == INVALID ==> pool.slots[..] == old(pool.slots[..])
      ensures idx != INVALID ==>
                && idx < pool.slots.Length && idx !in LiveSet(old(pool.slots[..]))
                && pool.slots[..] == old(pool.slots[..])[idx := Live(NewLevel(price, side))]
                && LiveSet(pool.slots[..]) == LiveSet(old(pool.slots[..])) + {idx}
    {
      idx := pool.Allocate(NewLevel(price, side));
    }

    /** Level lookup by price: inside the dense window or outside it, the answer is the directory's. */
    method FindByPrice(pool: ObjectPool<PriceLevel>, price: u32) returns (i: Index)
      requires Valid(pool.slots[..])
      ensures i == if price in dir then dir[price] else INVALID
      ensures i == INVALID <==> price !in dir
    {
      i := dense.Find(price);
      if i != INVALID {
        return;
      }
      HasPriceIsDir(tree, dir, price);
      i := Avl.Find(pool.slots, avlRoot, price, INVALID, tree);
    }

    /** Puts a created level into the table and the tree, and refreshes the cached best level. */
    method InsertLevel(idx: Index, pool: ObjectPool<PriceLevel>, stats: AvlStatistics)
      requires Valid(pool.slots[..]) && pool.Valid()
      requires idx < INVALID && IsLevel(pool.slots[..], idx) && idx !in S.Ids(tree)
      requires pool.slots[idx].obj.side == side
      requires pool.slots[idx].obj.price !in dir && pool.slots[idx].obj.price < WINDOW
      modifies this, dense, dense.levelIndices, pool.slots, stats
      ensures Valid(pool.slots[..]) && pool.Valid()
      ensures dir == old(dir)[old(pool.slots[idx].obj.price) := idx]
      ensures OnlyNodes(old(pool.slots[..]), pool.slots[..], S.Ids(old(tree)) + {idx})
      ensures LiveSet(pool.slots[..]) == LiveSet(old(pool.slots[..]))
      ensures var price, c := old(pool.slots[idx].obj.price), old(stats.Rotations());
              && tree == S.Insert(old(tree), price, idx)
              && stats.Rotations() == S.InsertCounts(old(tree), price, idx, c)
              && stats.Rotations().Total() <= c.Total() + 1
      ensures stats.treeHeight == S.Height(tree) && stats.maximumHeight == Max(old(stats.maximumHeight), S.Height(tree))
    {
      hide FreeChain, Bbo, Dense, TreeInv, OnlyNodes, LiveSet;
      ghost var d, s0, ids := dir, pool.slots[..], S.Ids(tree) + {idx};
      EnterPrice(pool.slots[idx].obj.price, idx);
      assert pool.slots[..] == s0;
      LinkLevel(idx, pool, stats);
      ghost var s := pool.slots[..];
      SurgeryAt(s0, s, ids, idx);
      SettleInsert(idx, pool, stats, d);
      assert pool.slots[..] == s;
    }

    /** After linking level idx: counts it, moves the cached best level, records the height. */
    method SettleInsert(idx: Index, pool: ObjectPool<PriceLevel>, stats: AvlStatistics, ghost d: map<u32, Index>)
      requires Linked(pool.slots[..]) && Bbo(side, d, bboIdx) && levelCount == |d|
      requires IsLevel(pool.slots[..], idx)
      requires var price := pool.slots[idx].obj.price; price !in d && dir == d[price := idx]
      modifies this`levelCount, this`bboIdx, stats
      ensures Valid(pool.slots[..])
      ensures stats.Rotations() == old(stats.Rotations()) && stats.treeHeight == S.Height(tree)
      ensures stats.maximumHeight == Max(old(stats.maximumHeight), S.Height(tree))
    {
      ghost var s := pool.slots[..];
      levelCount := levelCount + 1;
      assert pool.slots[..] == s;
      UpdateBboOnInsert(pool, idx, d);
      Avl.UpdateStatsHeight(pool.slots, avlRoot, stats, INVALID, tree);
    }

    method EnterPrice(price: u32, idx: Index)
      requires dense.Valid() && dense.anchorPrice == 0 && dense.tickSize == 1
      requires Dense(dense.levelIndices[..], dir) && price < WINDOW && idx < INVALID
      modifies dense, dense.levelIndices
      ensures dense.Valid() && Dense(dense.levelIndices[..], dir[price := idx])
    {
      DenseInsert(dense.levelIndices[..], dir, price, idx);
      dense.Insert(price, idx);
    }

    method ClearPrice(price: u32)
      requires dense.Valid() && dense.anchorPrice == 0 && dense.tickSize == 1
      requires Dense(dense.levelIndices[..], dir) && price < WINDOW
      modifies dense, dense.levelIndices
      ensures dense.Valid() && Dense(dense.levelIndices[..], dir - {price})
    {
      DenseRemove(dense.levelIndices[..], dir, price);
      dense.Remove(price);
    }

    method LinkLevel(idx: Index, pool: ObjectPool<PriceLevel>, stats: AvlStatistics)
      requires TreeInv(pool.slots[..], side, tree, dir) && avlRoot == Avl.Root(tree) && pool.Valid()
      requires idx < INVALID && IsLevel(pool.slots[..], idx) && idx !in S.Ids(tree)
      requires pool.slots[idx].obj.side == side && pool.slots[idx].obj.price !in dir
      modifies this`avlRoot, this`tree, this`dir, pool.slots, stats
      ensures TreeInv(pool.slots[..], side, tree, dir) && avlRoot == Avl.Root(tree) && pool.Valid()
      ensures dir == old(dir)[old(pool.slots[idx].obj.price) := idx]
      ensures OnlyNodes(old(pool.slots[..]), pool.slots[..], S.Ids(old(tree)) + {idx})
      ensures LiveSet(pool.slots[..]) == LiveSet(old(pool.slots[..]))
      ensures var price, c := old(pool.slots[idx].obj.price), old(stats.Rotations());
              && tree == S.Insert(old(tree), price, idx)
              && stats.Rotations() == S.InsertCounts(old(tree), price, idx, c)
              && stats.Rotations().Total() <= c.Total() + 1
      ensures stats.maximumHeight == old(stats.maximumHeight)
    {
      hide FreeChain, OnlyNodes, LiveSet, Holds, S.Insert, S.InsertCounts, S.Height;
      ghost var s, t, price := pool.slots[..], tree, pool.slots[idx].obj.price;
      S.InsertBalances(t, price, idx, stats.Rotations());
      Avl.RepIds(s, INVALID, t);
      avlRoot := Avl.Insert(pool.slots, avlRoot, idx, stats, INVALID, t);
      InsertInv(s, pool.slots[..], side, t, dir, price, idx);
      SurgeryKeepsPool(s, pool.slots[..], S.Ids(t) + {idx}, pool.freeHead, pool.free);
      tree, dir := S.Insert(t, price, idx), dir[price := idx];
    }

    method UpdateBboOnInsert(pool: ObjectPool<PriceLevel>, newIdx: Index, ghost d: map<u32, Index>)
      requires Linked(pool.slots[..]) && Bbo(side, d, bboIdx) && IsLevel(pool.slots[..], newIdx)
      requires var price := pool.slots[newIdx].obj.price; price !in d && dir == d[price := newIdx]
      modifies this`bboIdx
      ensures Bbo(side, dir, bboIdx)
    {
      assert forall p :: p in d ==> p in dir && d[p] == dir[p];
      BboInsert(side, d, pool.slots[newIdx].obj.price, newIdx, bboIdx);
      if bboIdx == INVALID {
        bboIdx := newIdx;
        return;
      }
      var newPrice := pool.slots[newIdx].obj.price;
      var bboPrice := pool.slots[bboIdx].obj.price;
      if side.Buy? {
        if newPrice > bboPrice {
          bboIdx := newIdx;
        }
      } else {
        if newPrice < bboPrice {
          bboIdx := newIdx;
        }
      }
    }

    /** Takes a level out of the table and the tree; a removed best level is searched anew. */
    method RemoveLevel(idx: Index, pool: ObjectPool<PriceLevel>, stats: AvlStatistics)
      requires Valid(pool.slots[..]) && pool.Valid()
      requires IsLevel(pool.slots[..], idx)
      requires var price := pool.slots[idx].obj.price; price in dir && dir[price] == idx
      modifies this, dense, dense.levelIndices, pool.slots, stats
      ensures Valid(pool.slots[..]) && pool.Valid()
      ensures dir == old(dir) - {old(pool.slots[idx].obj.price)}
      ensures OnlyNodes(old(pool.slots[..]), pool.slots[..], S.Ids(old(tree)))
      ensures LiveSet(pool.slots[..]) == LiveSet(old(pool.slots[..]))
      ensures Avl.Unlinked(pool.slots[..], idx)
      ensures var price := old(pool.slots[idx].obj.price);
              && tree == S.Remove(old(tree), price)
              && stats.Rotations() == S.RemoveCounts(old(tree), price, old(stats.Rotations()))
      ensures stats.treeHeight == S.Height(tree) && stats.maximumHeight == Max(old(stats.maximumHeight), S.Height(tree))
    {
      hide FreeChain, Bbo, Dense, TreeInv, OnlyNodes, LiveSet;
      ghost var price := pool.slots[idx].obj.price;
      ghost var d := dir;
      ghost var s0 := pool.slots[..];
      InWindow(s0, price);
      ClearPrice(pool.slots[idx].obj.price);
      assert pool.slots[..] == s0;
      UnlinkLevel(idx, pool, stats);
      ghost var s := pool.slots[..];
      SettleRemove(idx, pool, stats, price, d);
      assert pool.slots[..] == s;
    }

    method SettleRemove(idx: Index, pool: ObjectPool<PriceLevel>, stats: AvlStatistics,
                        ghost price: u32, ghost d: map<u32, Index>)
      requires Linked(pool.slots[..]) && Bbo(side, d, bboIdx) && levelCount == |d|
      requires price in d && d[price] == idx && dir == d - {price}
      modifies this`levelCount, this`bboIdx, stats
      ensures Valid(pool.slots[..])
      ensures stats.Rotations() == old(stats.Rotations()) && stats.treeHeight == S.Height(tree)
      ensures stats.maximumHeight == Max(old(stats.maximumHeight), S.Height(tree))
    {
      hide Dense, Holds, S.Avl, S.Distinct;
      var wasBbo := idx == bboIdx;
      levelCount := levelCount - 1;
      if wasBbo {
        SearchBbo(pool);
      } else {
        BboRemove(side, d, price, bboIdx);
      }
      Avl.UpdateStatsHeight(pool.slots, avlRoot, stats, INVALID, tree);
    }

    method SearchBbo(pool: ObjectPool<PriceLevel>)
      requires TreeInv(pool.slots[..], side, tree, dir) && avlRoot == Avl.Root(tree)
      modifies this`bboIdx
      ensures Bbo(side, dir, bboIdx)
    {
      ExtremeIsBest(side, tree, dir);
      if side.Buy? {
        bboIdx := Avl.FindMax(pool.slots, avlRoot, INVALID, tree);
      } else {
        bboIdx := Avl.FindMin(pool.slots, avlRoot, INVALID, tree);
      }
    }

    method UnlinkLevel(idx: Index, pool: ObjectPool<PriceLevel>, stats: AvlStatistics)
      requires TreeInv(pool.slots[..], side, tree, dir) && avlRoot == Avl.Root(tree) && pool.Valid()
      requires IsLevel(pool.slots[..], idx)
      requires var price := pool.slots[idx].obj.price; price in dir && dir[price] == idx
      modifies this`avlRoot, this`tree, this`dir, pool.slots, stats
      ensures TreeInv(pool.slots[..], side, tree, dir) && avlRoot == Avl.Root(tree) && pool.Valid()
      ensures dir == old(dir) - {old(pool.slots[idx].obj.price)}
      ensures OnlyNodes(old(pool.slots[..]), pool.slots[..], S.Ids(old(tree)))
      ensures LiveSet(pool.slots[..]) == LiveSet(old(pool.slots[..]))
      ensures Avl.Unlinked(pool.slots[..], idx)
      ensures var price := old(pool.slots[idx].obj.price);
              && tree == S.Remove(old(tree), price)
              && stats.Rotations() == S.RemoveCounts(old(tree), price, old(stats.Rotations()))
      ensures stats.maximumHeight == old(stats.maximumHeight)
    {
      ghost var s, t, price := pool.slots[..], tree, pool.slots[idx].obj.price;
      assert S.Entry(price, idx) in S.Entries(t);
      Avl.RepIds(s, INVALID, t);
      avlRoot := Avl.Remove(pool.slots, avlRoot, idx, stats, INVALID, t);
      RemoveInv(s, pool.slots[..], side, t, dir, price);
      SurgeryKeepsPool(s, pool.slots[..], S.Ids(t), pool.freeHead, pool.free);
      tree, dir := S.Remove(t, price), dir - {price};
    }

    /** Frees the slot of a removed, emptied level. */
    method DestroyLevel(idx: Index, pool: ObjectPool<PriceLevel>)
      requires pool.Valid() && IsLevel(pool.slots[..], idx)
      requires var lvl := pool.slots[idx].obj;
               && lvl.orderCount == 0 && lvl.totalQty == 0
               && lvl.headOrder == INVALID && lvl.tailOrder == INVALID
               && lvl.node.left == INVALID && lvl.node.right == INVALID
      modifies pool, pool.slots
      ensures pool.Valid()
      ensures pool.slots[..] == old(pool.slots[..])[idx := Free(old(pool.freeHead))]
      ensures LiveSet(pool.slots[..]) == LiveSet(old(pool.slots[..])) - {idx}
    {
      pool.Deallocate(idx);
    }

    // ---- Level lifecycle as the book uses it ---------------------------------

    /** Creates a level and links it; the other side and all other levels keep everything but tree metadata. */
    method OpenLevel(other: BookSide, price: u32, pool: ObjectPool<PriceLevel>, stats: AvlStatistics)
      returns (idx: Index)
      requires pool.Valid() && Valid(pool.slots[..]) && other.Valid(pool.slots[..])
      requires other != this && other.side != side && Repr() !! other.Repr() !! pool.Repr() !! {stats}
      requires price !in dir && price < WINDOW && |LiveSet(pool.slots[..])| < pool.slots.Length
      modifies Repr(), pool, pool.slots, stats
      ensures pool.Valid() && Valid(pool.slots[..]) && other.Valid(pool.slots[..])
      ensures dir == old(dir)[price := idx]
      ensures idx < pool.slots.Length && old(pool.slots[..])[idx].Free?
      ensures LevelsKept(old(pool.slots[..]), pool.slots[..], idx)
      ensures IsLevel(pool.slots[..], idx) && SameLevel(pool.slots[idx].obj, NewLevel(price, side))
    {
      hide BookSide.Valid, FreeChain, LevelsKept, OnlyNodes;
      ghost var s0 := pool.slots[..];
      idx := CreateLevel(price, pool);
      ghost var s1 := pool.slots[..];
      FreshSlot(s0, s1, idx);
      other.FreshSlot(s0, s1, idx);
      KeptBySlot(s0, s1, idx);
      other.KeptBySlot(s0, s1, idx);
      Apart(s1, other);
      ghost var ids := S.Ids(tree) + {idx};
      InsertLevel(idx, pool, stats);
      other.KeptBySurgery(s1, pool.slots[..], ids);
      SurgeryAt(s1, pool.slots[..], ids, idx);
      KeptThrough(s0, s1, pool.slots[..], idx, ids);
    }

    /** Unlinks an emptied level and frees its slot. */
    method CloseLevel(other: BookSide, idx: Index, pool: ObjectPool<PriceLevel>, stats: AvlStatistics)
      requires pool.Valid() && Valid(pool.slots[..]) && other.Valid(pool.slots[..])
      requires other != this && other.side != side && Repr() !! other.Repr() !! pool.Repr() !! {stats}
      requires IsLevel(pool.slots[..], idx)
      requires var price := pool.slots[idx].obj.price; price in dir && dir[price] == idx
      requires SameLevel(pool.slots[idx].obj, NewLevel(pool.slots[idx].obj.price, side))
      modifies Repr(), pool, pool.slots, stats
      ensures pool.Valid() && Valid(pool.slots[..]) && other.Valid(pool.slots[..])
      ensures dir == old(dir) - {old(pool.slots[idx].obj.price)}
      ensures LevelsKept(old(pool.slots[..]), pool.slots[..], idx) && pool.slots[idx].Free?
    {
      hide BookSide.Valid, FreeChain, LevelsKept, OnlyNodes;
      ghost var s0, ids := pool.slots[..], S.Ids(tree);
      Members(s0, idx);
      Apart(s0, other);
      RemoveLevel(idx, pool, stats);
      ghost var s1 := pool.slots[..];
      other.KeptBySurgery(s0, s1, ids);
      SurgeryAt(s0, s1, ids, idx);
      DestroyLevel(idx, pool);
      ghost var s2 := pool.slots[..];
      KeptBySlot(s1, s2, idx);
      other.KeptBySlot(s1, s2, idx);
      KeptBefore(s0, s1, s2, idx, ids);
    }

    /** A directory level is one of the tree's slots, alone at its price. */
    lemma Members(s: LevelSlots, idx: Index)
      requires Valid(s) && IsLevel(s, idx) && s[idx].obj.price in dir && dir[s[idx].obj.price] == idx
      ensures idx in S.Ids(tree)
      ensures forall p :: p in dir && p != s[idx].obj.price ==> dir[p] != idx
      ensures forall i :: i in S.Ids(tree) ==> IsLevel(s, i)
    {
      SlotsOfDir(tree, dir);
      Avl.RepIds(s, INVALID, tree);
    }
  }
}
