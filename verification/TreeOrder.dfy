/** Side-directed in-order traversal of a level tree visits the levels in service order. */
module TreeOrder {
  import opened Base
  import opened PricePriority
  import opened BookSides
  import S = AvlSpec

  /** Prices met by the traversal: right to left for bids, left to right for asks. */
  ghost function Visit(side: Side, t: S.Tree): seq<u32> {
    if t.Leaf? then []
    else if side.Buy? then Visit(side, t.right) + [t.price] + Visit(side, t.left)
    else Visit(side, t.left) + [t.price] + Visit(side, t.right)
  }

  lemma {:induction false} VisitMembers(side: Side, t: S.Tree, p: u32)
    ensures p in Visit(side, t) <==> S.HasPrice(t, p)
  {
    if t.Node? {
      VisitMembers(side, t.left, p);
      VisitMembers(side, t.right, p);
      assert S.HasPrice(t, p) <==> S.HasPrice(t.left, p) || p == t.price || S.HasPrice(t.right, p) by {
        assert S.Entry(t.price, t.idx) in S.Entries(t);
      }
    }
  }

  lemma RankedJoin(side: Side, a: seq<u32>, p: u32, b: seq<u32>)
    requires StrictlyRanked(side, a) && StrictlyRanked(side, b)
    requires forall x :: x in a ==> Better(side, x, p)
    requires forall x :: x in b ==> Better(side, p, x)
    ensures StrictlyRanked(side, a + [p] + b)
  {
    var q := a + [p] + b;
    forall i, j | 0 <= i < j < |q| ensures Better(side, q[i], q[j]) {
      assert i < |a| ==> q[i] in a;
      assert j > |a| ==> q[j] in b;
      assert j < |a| ==> q[i] == a[i] && q[j] == a[j];
      assert i > |a| ==> q[i] == b[i - |a| - 1] && q[j] == b[j - |a| - 1];
    }
  }

  lemma {:induction false} VisitStrict(side: Side, t: S.Tree)
    requires S.Ordered(t)
    ensures StrictlyRanked(side, Visit(side, t))
  {
    if t.Node? {
      VisitStrict(side, t.left);
      VisitStrict(side, t.right);
      forall x: u32 ensures x in Visit(side, t.left) ==> x < t.price
                    ensures x in Visit(side, t.right) ==> t.price < x {
        VisitMembers(side, t.left, x);
        VisitMembers(side, t.right, x);
      }
      if side.Buy? {
        RankedJoin(side, Visit(side, t.right), t.price, Visit(side, t.left));
      } else {
        RankedJoin(side, Visit(side, t.left), t.price, Visit(side, t.right));
      }
    }
  }

  /** Whatever its shape, a tree is visited in the one strict ranking of its prices. */
  lemma VisitIsRanked(side: Side, t: S.Tree, dir: map<u32, Index>)
    requires S.Ordered(t) && Holds(t, dir)
    ensures Visit(side, t) == Ranked(side, dir.Keys)
  {
    VisitStrict(side, t);
    forall p: u32 ensures p in Visit(side, t) <==> p in dir.Keys {
      VisitMembers(side, t, p);
      HasPriceIsDir(t, dir, p);
    }
    RankedUnique(side, Visit(side, t), dir.Keys);
  }
}
