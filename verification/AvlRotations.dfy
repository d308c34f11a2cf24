/**
  What balancing does, told by heights and by the node that comes up: which rotation a node gets, which counter rises,
  and which nodes an insertion or a removal rebalances.
 */
module AvlRotations {
  import opened Base
  import opened AvlSpec

  // ---- Height ----------------------------------------------------------------

  /** From the root of t one can go down through |turns| nodes, left at true and right at false. */
  ghost predicate Descends(t: Tree, turns: seq<bool>) {
    turns == [] || (t.Node? && Descends(if turns[0] then t.left else t.right, turns[1..]))
  }

  /** The height is the number of nodes on a longest way down. */
  lemma {:induction false} HeightIsLongest(t: Tree)
    ensures forall turns :: Descends(t, turns) ==> |turns| <= Height(t)
    ensures exists turns :: Descends(t, turns) && |turns| == Height(t)
  {
    if t.Leaf? {
      assert Descends(t, []);
    } else {
      HeightIsLongest(t.left);
      HeightIsLongest(t.right);
      var goLeft := Height(t.left) >= Height(t.right);
      var sub := if goLeft then t.left else t.right;
      var turns :| Descends(sub, turns) && |turns| == Height(sub);
      assert ([goLeft] + turns)[1..] == turns;
      assert Descends(t, [goLeft] + turns);
    }
  }

  // ---- One node --------------------------------------------------------------

  /** The node of v is the root of u. */
  predicate OnTop(v: Tree, u: Tree) {
    v.Node? && u.Node? && v.price == u.price && v.idx == u.idx
  }

  /** Who comes up, by heights alone: the taller child, or its inner child if that is the strictly taller grandchild. */
  lemma WhoComesUp(t: Tree)
    requires t.Node?
    ensures Height(t.left) > Height(t.right) + 1 ==>
              && t.left.Node?
              && OnTop(if Height(t.left.left) >= Height(t.left.right) then t.left else t.left.right, Rebalance(t))
    ensures Height(t.right) > Height(t.left) + 1 ==>
              && t.right.Node?
              && OnTop(if Height(t.right.right) >= Height(t.right.left) then t.right else t.right.left, Rebalance(t))
    ensures Height(t.left) <= Height(t.right) + 1 && Height(t.right) <= Height(t.left) + 1 ==> Rebalance(t) == t
  {
    if Height(t.left) > Height(t.right) + 1 {
      LeftComesUp(t);
    } else if Height(t.right) > Height(t.left) + 1 {
      RightComesUp(t);
    }
  }

  lemma LeftComesUp(t: Tree)
    requires t.Node? && Balance(t) < -1
    ensures t.left.Node?
    ensures OnTop(if Height(t.left.left) >= Height(t.left.right) then t.left else t.left.right, Rebalance(t))
  {
    TallIsNode(t.left);
    TallIsNode(t.left.right);
    assert Choice(t) == if Height(t.left.left) >= Height(t.left.right) then LL else LR;
  }

  lemma RightComesUp(t: Tree)
    requires t.Node? && Balance(t) > 1
    ensures t.right.Node?
    ensures OnTop(if Height(t.right.right) >= Height(t.right.left) then t.right else t.right.left, Rebalance(t))
  {
    TallIsNode(t.right);
    TallIsNode(t.right.left);
    assert Choice(t) == if Height(t.right.right) >= Height(t.right.left) then RR else RL;
  }

  lemma TallIsNode(t: Tree)
    ensures Height(t) > 0 <==> t.Node?
  {
  }

  /** The counter that rises is named by the node that comes up; none rises when the root stays. */
  lemma CounterOfRoot(t: Tree, c: Counts)
    requires t.Node? && Distinct(t)
    ensures Rebalance(t).Node?
    ensures var r, d := Rebalance(t).idx, c.Plus(Choice(t));
            && d.ll == c.ll + (if t.left.Node? && r == t.left.idx then 1 else 0)
            && d.lr == c.lr + (if t.left.Node? && t.left.right.Node? && r == t.left.right.idx then 1 else 0)
            && d.rr == c.rr + (if t.right.Node? && r == t.right.idx then 1 else 0)
            && d.rl == c.rl + (if t.right.Node? && t.right.left.Node? && r == t.right.left.idx then 1 else 0)
            && (d == c <==> r == t.idx)
  {
  }

  // ---- Insertion and removal -------------------------------------------------

  /** One for each node at which this child or grandchild comes up. */
  function Tally(us: seq<Tree>): Counts {
    if us == [] then Counts(0, 0, 0, 0)
    else
      var c, u := Tally(us[..|us| - 1]), us[|us| - 1];
      if u.Leaf? then c
      else
        Counts(c.ll + (if OnTop(u.left, Rebalance(u)) then 1 else 0),
               c.rr + (if OnTop(u.right, Rebalance(u)) then 1 else 0),
               c.lr + (if u.left.Node? && OnTop(u.left.right, Rebalance(u)) then 1 else 0),
               c.rl + (if u.right.Node? && OnTop(u.right.left, Rebalance(u)) then 1 else 0))
  }

  lemma TallyLast(us: seq<Tree>, u: Tree, c: Counts, d: Counts)
    requires u.Node? && Distinct(u)
    requires d == Counts(c.ll + Tally(us).ll, c.rr + Tally(us).rr, c.lr + Tally(us).lr, c.rl + Tally(us).rl)
    ensures var k := Tally(us + [u]); d.Plus(Choice(u)) == Counts(c.ll + k.ll, c.rr + k.rr, c.lr + k.lr, c.rl + k.rl)
  {
    assert (us + [u])[..|us|] == us;
    CounterOfRoot(u, d);
    RootElsewhere(u);
  }

  /** The node that comes up is told by its slot. */
  lemma RootElsewhere(u: Tree)
    requires u.Node? && Distinct(u)
    ensures Rebalance(u).Node?
    ensures var r := Rebalance(u);
            && (OnTop(u.left, r) <==> u.left.Node? && r.idx == u.left.idx)
            && (OnTop(u.right, r) <==> u.right.Node? && r.idx == u.right.idx)
            && (u.left.Node? ==>
                  (OnTop(u.left.right, r) <==> u.left.right.Node? && r.idx == u.left.right.idx))
            && (u.right.Node? ==>
                  (OnTop(u.right.left, r) <==> u.right.left.Node? && r.idx == u.right.left.idx))
  {
  }

  /** The nodes an insertion rebalances, from the bottom up: those on the way to the new leaf. */
  function InsertVisits(t: Tree, price: u32, idx: Index): seq<Tree> {
    if t.Leaf? then []
    else if price < t.price then
      InsertVisits(t.left, price, idx) + [t.(left := Insert(t.left, price, idx))]
    else
      InsertVisits(t.right, price, idx) + [t.(right := Insert(t.right, price, idx))]
  }

  /** An insertion raises each counter by the number of visited nodes at which the named node comes up. */
  lemma {:induction false} InsertTally(t: Tree, price: u32, idx: Index, c: Counts)
    requires Distinct(t) && idx !in Ids(t)
    ensures var d, k := InsertCounts(t, price, idx, c), Tally(InsertVisits(t, price, idx));
            d == Counts(c.ll + k.ll, c.rr + k.rr, c.lr + k.lr, c.rl + k.rl)
  {
    hide Tally, Rebalance;
    if t.Leaf? {
      TallyNone();
    } else if price < t.price {
      InsertTally(t.left, price, idx, c);
      InsertOccupies(t.left, price, idx);
      TallyLast(InsertVisits(t.left, price, idx), t.(left := Insert(t.left, price, idx)), c,
                InsertCounts(t.left, price, idx, c));
    } else {
      InsertTally(t.right, price, idx, c);
      InsertOccupies(t.right, price, idx);
      TallyLast(InsertVisits(t.right, price, idx), t.(right := Insert(t.right, price, idx)), c,
                InsertCounts(t.right, price, idx, c));
    }
  }

  /** In a balanced tree that is at most one counter, by one. */
  lemma InsertRaisesOne(t: Tree, price: u32, idx: Index, c: Counts)
    requires Balanced(t)
    ensures var d := InsertCounts(t, price, idx, c);
            || d == c
            || d == c.(ll := c.ll + 1) || d == c.(rr := c.rr + 1)
            || d == c.(lr := c.lr + 1) || d == c.(rl := c.rl + 1)
  {
    InsertBalances(t, price, idx, c);
    InsertGrows(t, price, idx, c);
  }

  lemma {:induction false} InsertGrows(t: Tree, price: u32, idx: Index, c: Counts)
    ensures var d := InsertCounts(t, price, idx, c); d.ll >= c.ll && d.rr >= c.rr && d.lr >= c.lr && d.rl >= c.rl
  {
    hide Rebalance, Choice;
    if t.Node? {
      InsertGrows(if price < t.price then t.left else t.right, price, idx, c);
    }
  }

  lemma TallyNone()
    ensures Tally([]) == Counts(0, 0, 0, 0)
  {
  }

  /** The nodes a removal rebalances, from the bottom up; the successor stands where a branching target stood. */
  function RemoveVisits(t: Tree, price: u32): seq<Tree> {
    if t.Leaf? then []
    else if price < t.price then RemoveVisits(t.left, price) + [t.(left := Remove(t.left, price))]
    else if price > t.price then RemoveVisits(t.right, price) + [t.(right := Remove(t.right, price))]
    else if t.left.Leaf? || t.right.Leaf? then []
    else
      var succ := Leftmost(t.right);
      RemoveVisits(t.right, succ.price) + [Node(t.left, succ.price, succ.idx, Remove(t.right, succ.price))]
  }

  /** Replacing a subtree by one over no other slots keeps the slots distinct. */
  lemma StillDistinct(t: Tree, l: Tree, i: Index, r: Tree)
    requires t.Node? && Distinct(t) && Distinct(l) && Distinct(r) && Ids(l) <= Ids(t.left) && Ids(r) <= Ids(t.right)
    requires i == t.idx || (i in Ids(t.right) && i !in Ids(r))
    ensures forall price :: Distinct(Node(l, price, i, r))
  {
  }

  lemma DistinctParts(t: Tree)
    requires t.Node? && Distinct(t)
    ensures Distinct(t.left) && Distinct(t.right)
  {
  }

  /** So does a removal. */
  lemma {:induction false} RemoveTally(t: Tree, e: Entry, c: Counts)
    requires Ordered(t) && Distinct(t) && e in Entries(t)
    ensures var d, k := RemoveCounts(t, e.price, c), Tally(RemoveVisits(t, e.price));
            d == Counts(c.ll + k.ll, c.rr + k.rr, c.lr + k.lr, c.rl + k.rl)
  {
    hide Tally, Rebalance, Leftmost, Distinct, Ids, Entries;
    Sides(t, e);
    TallyNone();
    DistinctParts(t);
    if e.price < t.price {
      RemoveTally(t.left, e, c);
      RemoveReleases(t.left, e);
      StillDistinct(t, Remove(t.left, e.price), t.idx, t.right);
      TallyLast(RemoveVisits(t.left, e.price), t.(left := Remove(t.left, e.price)), c,
                RemoveCounts(t.left, e.price, c));
    } else if e.price > t.price {
      RemoveTally(t.right, e, c);
      RemoveReleases(t.right, e);
      StillDistinct(t, t.left, t.idx, Remove(t.right, e.price));
      TallyLast(RemoveVisits(t.right, e.price), t.(right := Remove(t.right, e.price)), c,
                RemoveCounts(t.right, e.price, c));
    } else if t.left.Node? && t.right.Node? {
      LeftmostIsLeast(t.right);
      var m := Entry(Leftmost(t.right).price, Leftmost(t.right).idx);
      EntrySlots(t.right);
      RemoveTally(t.right, m, c);
      RemoveReleases(t.right, m);
      StillDistinct(t, t.left, m.idx, Remove(t.right, m.price));
      TallyLast(RemoveVisits(t.right, m.price), Node(t.left, m.price, m.idx, Remove(t.right, m.price)), c,
                RemoveCounts(t.right, m.price, c));
    }
  }

  /** The prices from the root of t down to where the price is or belongs, bottom up. */
  function WayUp(t: Tree, price: u32): seq<u32> {
    if t.Leaf? then []
    else if price == t.price then [t.price]
    else WayUp(if price < t.price then t.left else t.right, price) + [t.price]
  }

  ghost predicate PricedLike(us: seq<Tree>, prices: seq<u32>) {
    |us| == |prices| && forall k :: 0 <= k < |us| ==> us[k].Node? && us[k].price == prices[k]
  }

  /** An insertion visits every node on its way, and only those. */
  lemma {:induction false} InsertVisitsWay(t: Tree, price: u32, idx: Index)
    requires Ordered(t) && !HasPrice(t, price)
    ensures PricedLike(InsertVisits(t, price, idx), WayUp(t, price))
  {
    if t.Node? {
      assert Entry(t.price, t.idx) in Entries(t);
      InsertVisitsWay(if price < t.price then t.left else t.right, price, idx);
    }
  }

  /**
    A removal visits every node above the target. If the target has two children, it visits the successor in the
    target's place and every node between there and where the successor was.
   */
  lemma {:induction false} RemoveVisitsWay(t: Tree, e: Entry)
    requires Ordered(t) && e in Entries(t)
    ensures var us, way := RemoveVisits(t, e.price), WayUp(t, e.price);
            var target := At(t, e.price);
            && way != [] && target.Node? && Entry(target.price, target.idx) == e
            && (if target.left.Leaf? || target.right.Leaf? then PricedLike(us, way[1..])
                else
                  var succ := Leftmost(target.right).price;
                  PricedLike(us, WayUp(target.right, succ)[1..] + [succ] + way[1..]))
  {
    hide Rebalance, Remove, Entries;
    Sides(t, e);
    if e.price == t.price {
      if t.left.Node? && t.right.Node? {
        var m := Leftmost(t.right);
        LeftmostIsLeast(t.right);
        RemoveVisitsWay(t.right, Entry(m.price, m.idx));
        LeftmostAt(t.right);
        assert WayUp(t, e.price)[1..] == [];
      }
    } else if e.price < t.price {
      RemoveVisitsWay(t.left, e);
      assert (WayUp(t.left, e.price) + [t.price])[1..] == WayUp(t.left, e.price)[1..] + [t.price];
    } else {
      RemoveVisitsWay(t.right, e);
      assert (WayUp(t.right, e.price) + [t.price])[1..] == WayUp(t.right, e.price)[1..] + [t.price];
    }
  }

  /** The node at a price, a leaf if there is none. */
  function At(t: Tree, price: u32): Tree {
    if t.Leaf? || price == t.price then t else At(if price < t.price then t.left else t.right, price)
  }

  /** An entry is the root's or lies on the side its price says. */
  lemma Sides(t: Tree, e: Entry)
    requires Ordered(t) && e in Entries(t)
    ensures t.Node? && Ordered(t.left) && Ordered(t.right)
    ensures e.price == t.price ==> e == Entry(t.price, t.idx)
    ensures e.price < t.price ==> e in Entries(t.left)
    ensures e.price > t.price ==> e in Entries(t.right)
  {
  }

  /** The leftmost node has no left child, so its removal visits what is above it. */
  lemma {:induction false} LeftmostAt(t: Tree)
    requires t.Node? && Ordered(t)
    ensures At(t, Leftmost(t).price) == Leftmost(t) && Leftmost(t).left.Leaf?
  {
    if t.left.Node? {
      LeftmostAt(t.left);
      LeftmostIsLeast(t.left);
    }
  }

  // ---- Three levels ----------------------------------------------------------

  function One(e: Entry): Tree {
    Node(Leaf, e.price, e.idx, Leaf)
  }

  /** The tree and the counters after inserting three levels in turn into an empty tree. */
  function InsertThree(i: Entry, j: Entry, k: Entry): (Tree, Counts) {
    var t1, c0 := Insert(Leaf, i.price, i.idx), Counts(0, 0, 0, 0);
    var t2, c1 := Insert(t1, j.price, j.idx), InsertCounts(Leaf, i.price, i.idx, c0);
    var c2 := InsertCounts(t1, j.price, j.idx, c1);
    (Insert(t2, k.price, k.idx), InsertCounts(t2, k.price, k.idx, c2))
  }

  /** A second level becomes a child of the first, without a rotation. */
  lemma TwoInserts(i: Entry, j: Entry, c: Counts)
    requires i.price != j.price
    ensures Insert(Leaf, i.price, i.idx) == One(i) && InsertCounts(Leaf, i.price, i.idx, c) == c
    ensures Insert(One(i), j.price, j.idx) ==
            if j.price < i.price then Node(One(j), i.price, i.idx, Leaf) else Node(Leaf, i.price, i.idx, One(j))
    ensures InsertCounts(One(i), j.price, j.idx, c) == c
  {
    assert Insert(Leaf, j.price, j.idx) == One(j) && Height(One(j)) == 1;
  }

  /** A third level below the only child forces the rotation of its place. */
  lemma ThirdInsert(i: Entry, j: Entry, k: Entry, c: Counts)
    requires i.price != j.price && k.price != j.price
    requires if j.price < i.price then k.price < i.price else k.price > i.price
    ensures var t, d := Insert(One(i), j.price, j.idx), InsertCounts(Insert(One(i), j.price, j.idx), k.price, k.idx, c);
            && d == (if j.price < i.price then
                       if k.price < j.price then c.(ll := c.ll + 1) else c.(lr := c.lr + 1)
                     else
                       if k.price > j.price then c.(rr := c.rr + 1) else c.(rl := c.rl + 1))
            && Insert(t, k.price, k.idx) ==
               (if j.price < i.price then
                  if k.price < j.price then Node(One(k), j.price, j.idx, One(i))
                  else Node(One(j), k.price, k.idx, One(i))
                else
                  if k.price > j.price then Node(One(i), j.price, j.idx, One(k))
                  else Node(One(i), k.price, k.idx, One(j)))
  {
    TwoInserts(i, j, c);
    TwoInserts(j, k, c);
    var sub := Insert(One(j), k.price, k.idx);
    assert Height(One(k)) == 1 && Height(sub) == 2;
  }

  /** Each of the four orders that force a rotation raises its own counter once, and the middle price comes up. */
  lemma ThreeInserts(p: Entry, q: Entry, r: Entry)
    requires p.price < q.price < r.price
    ensures var t := Node(One(p), q.price, q.idx, One(r));
            && InsertThree(r, q, p) == (t, Counts(1, 0, 0, 0))
            && InsertThree(p, q, r) == (t, Counts(0, 1, 0, 0))
            && InsertThree(r, p, q) == (t, Counts(0, 0, 1, 0))
            && InsertThree(p, r, q) == (t, Counts(0, 0, 0, 1))
  {
    hide Insert, InsertCounts;
    var c := Counts(0, 0, 0, 0);
    TwoInserts(r, q, c);
    TwoInserts(p, q, c);
    TwoInserts(r, p, c);
    TwoInserts(p, r, c);
    ThirdInsert(r, q, p, c);
    ThirdInsert(p, q, r, c);
    ThirdInsert(r, p, q, c);
    ThirdInsert(p, r, q, c);
  }
}
