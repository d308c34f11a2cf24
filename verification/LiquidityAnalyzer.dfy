/** Capped in-order scan of the opposite side's level totals. */
module LiquidityAnalyzers {
  import opened Base
  import opened ObjectPools
  import opened PriceLevels
  import opened BookSpec
  import opened MatchSpec
  import opened OrderBooks
  import opened TreeOrder
  import S = AvlSpec
  import Avl = AvlTree

  /** Sum of the level totals stored in the slots of a tree. */
  ghost function TreeTotal(s: LevelSlots, t: S.Tree): nat {
    if t.Leaf? then 0
    else TreeTotal(s, t.left) + (if IsLevel(s, t.idx) then s[t.idx].obj.totalQty else 0) + TreeTotal(s, t.right)
  }

  /**
    Adds up level totals in service order until the wanted quantity is found: what is found and what is still
    wanted always add up to the wanted quantity, so neither can overflow.
   */
  method ScanTree(a: array<Slot<PriceLevel>>, node: Index, side: Side, wanted: u32, ghost p: Index, ghost t: S.Tree)
    returns (found: u32, remaining: u32)
    requires node == Avl.Root(t) && Avl.Rep(a[..], p, t)
    ensures found == Min(wanted, TreeTotal(a[..], t))
    ensures found + remaining == wanted
    decreases t
  {
    Avl.RootIsInvalid(a[..], p, t);
    found, remaining := 0, wanted;
    if node == INVALID || wanted == 0 {
      return;
    }
    var more;
    if side.Buy? {
      found, remaining := ScanTree(a, a[node].obj.node.right, side, wanted, node, t.right);
      if remaining == 0 {
        return;
      }
      var take := Min(a[node].obj.totalQty, remaining);
      found, remaining := found + take, remaining - take;
      if remaining == 0 {
        return;
      }
      more, remaining := ScanTree(a, a[node].obj.node.left, side, remaining, node, t.left);
    } else {
      found, remaining := ScanTree(a, a[node].obj.node.left, side, wanted, node, t.left);
      if remaining == 0 {
        return;
      }
      var take := Min(a[node].obj.totalQty, remaining);
      found, remaining := found + take, remaining - take;
      if remaining == 0 {
        return;
      }
      more, remaining := ScanTree(a, a[node].obj.node.right, side, remaining, node, t.right);
    }
    found := found + more;
  }

  lemma {:induction false} DepthConcat(b: Book, side: Side, p: seq<u32>, q: seq<u32>)
    ensures Depth(b, side, p + q) == Depth(b, side, p) + Depth(b, side, q)
  {
    if p == [] {
      assert p + q == q;
    } else {
      DepthConcat(b, side, p[1..], q);
      assert (p + q)[1..] == p[1..] + q;
    }
  }

  /** The slots' totals are the depth of the book at the visited prices. */
  lemma {:induction false} TreeTotalIsDepth(s: LevelSlots, b: Book, side: Side, p: Index, t: S.Tree)
    requires Avl.Rep(s, p, t)
    requires forall e :: e in S.Entries(t) ==>
               && e.price in b.On(side) && IsLevel(s, e.idx)
               && s[e.idx].obj.totalQty == Wrap32(SumQty(b.orders, b.On(side)[e.price]))
    ensures TreeTotal(s, t) == Depth(b, side, Visit(side, t))
    decreases t
  {
    if t.Node? {
      TreeTotalIsDepth(s, b, side, t.idx, t.left);
      TreeTotalIsDepth(s, b, side, t.idx, t.right);
      assert S.Entry(t.price, t.idx) in S.Entries(t);
      var l, r := Visit(side, t.left), Visit(side, t.right);
      if side.Buy? {
        DepthConcat(b, side, r + [t.price], l);
        DepthConcat(b, side, r, [t.price]);
      } else {
        DepthConcat(b, side, l + [t.price], r);
        DepthConcat(b, side, l, [t.price]);
      }
    }
  }

  /** Is there enough quantity on the other side, at whatever price? */
  method HasLiquidity(book: OrderBook, a: OrderAction) returns (ok: bool)
    requires book.Valid()
    ensures ok <==> ScanFinds(book.book, a)
  {
    hide OrderBook.Shows, Lively;
    var opp := a.side.Opposite();
    var side := book.SideOf(opp);
    book.TreeFacts(opp);
    if side.avlRoot == INVALID {
      return false;
    }
    TreeTotalIsDepth(book.levelPool.slots[..], book.book, opp, INVALID, side.tree);
    VisitIsRanked(opp, side.tree, side.dir);
    var found, remaining := ScanTree(book.levelPool.slots, side.avlRoot, opp, a.qty, INVALID, side.tree);
    ok := found >= a.qty;
  }
}
