/** The AVL tree kept in place on pool slots: parent links, stored heights, rotations. */
module AvlTree {
  import opened Base
  import opened ObjectPools
  import opened PriceLevels
  import opened AvlStats
  import S = AvlSpec
  import R = AvlRotations

  type Tree = S.Tree

  function Root(t: Tree): Index {
    if t.Leaf? then INVALID else t.idx
  }

  /** The slots of t hold t, exactly: prices, links, parent links and stored heights. */
  ghost predicate Rep(s: LevelSlots, parent: Index, t: Tree)
    decreases t, 1
  {
    t.Node? ==> Joined(s, parent, t) && s[t.idx].obj.node.height == S.Height(t)
  }

  /** Like Rep, but the stored height of the root itself may be stale. */
  ghost predicate Joined(s: LevelSlots, parent: Index, t: Tree)
    requires t.Node?
    decreases t, 0
  {
    && t.idx < INVALID
    && IsLevel(s, t.idx)
    && s[t.idx].obj.price == t.price
    && s[t.idx].obj.node.parent == parent
    && s[t.idx].obj.node.left == Root(t.left)
    && s[t.idx].obj.node.right == Root(t.right)
    && Rep(s, t.idx, t.left)
    && Rep(s, t.idx, t.right)
  }

  // ---- Frames ----------------------------------------------------------------

  lemma {:induction false} RepFrame(s: LevelSlots, s': LevelSlots, parent: Index, t: Tree)
    requires Rep(s, parent, t)
    requires forall i :: i in S.Ids(t) && i < |s| ==> i < |s'| && s'[i] == s[i]
    ensures Rep(s', parent, t)
    decreases t
  {
    if t.Node? {
      RepFrame(s, s', t.idx, t.left);
      RepFrame(s, s', t.idx, t.right);
    }
  }

  /** Hanging a subtree under another parent. */
  lemma Reparent(s: LevelSlots, s': LevelSlots, parent: Index, parent': Index, t: Tree)
    requires S.Distinct(t) && Rep(s, parent, t)
    requires forall i :: i in S.Ids(t) && i != Root(t) && i < |s| ==> i < |s'| && s'[i] == s[i]
    requires t.Node? ==>
               && t.idx < |s| == |s'| && s[t.idx].Live?
               && s'[t.idx] == Live(s[t.idx].obj.(node := s[t.idx].obj.node.(parent := parent')))
    ensures Rep(s', parent', t)
  {
    if t.Node? {
      RepFrame(s, s', t.idx, t.left);
      RepFrame(s, s', t.idx, t.right);
    }
  }

  lemma {:induction false} RepIds(s: LevelSlots, parent: Index, t: Tree)
    requires t.Node? ==> Joined(s, parent, t)
    ensures forall i :: i in S.Ids(t) ==> IsLevel(s, i) && i < INVALID
    ensures forall e :: e in S.Entries(t) ==> IsLevel(s, e.idx) && s[e.idx].obj.price == e.price
    decreases t
  {
    if t.Node? {
      RepIds(s, t.idx, t.left);
      RepIds(s, t.idx, t.right);
    }
  }

  lemma RootIsInvalid(s: LevelSlots, parent: Index, t: Tree)
    requires Rep(s, parent, t)
    ensures Root(t) == INVALID <==> t.Leaf?
  {
  }

  lemma RootId(t: Tree)
    ensures t.Node? ==> Root(t) in S.Ids(t)
  {
  }

  // ---- Slot access -----------------------------------------------------------

  method PutNode(a: array<Slot<PriceLevel>>, i: Index, n: AvlNode)
    requires IsLevel(a[..], i)
    modifies a
    ensures a[..] == WithNode(old(a[..]), i, n)
  {
    a[i] := Live(a[i].obj.(node := n));
  }

  method HeightOf(a: array<Slot<PriceLevel>>, i: Index, ghost p: Index, ghost t: Tree) returns (h: nat)
    requires i == Root(t) && Rep(a[..], p, t)
    ensures h == S.Height(t)
  {
    h := if i == INVALID then 0 else a[i].obj.node.height;
  }

  method BalanceFactor(a: array<Slot<PriceLevel>>, i: Index, ghost p: Index, ghost t: Tree) returns (b: int)
    requires t.Node? && i == t.idx && Joined(a[..], p, t)
    ensures b == S.Balance(t)
  {
    var r := HeightOf(a, a[i].obj.node.right, i, t.right);
    var l := HeightOf(a, a[i].obj.node.left, i, t.left);
    b := r as int - l as int;
  }

  method UpdateHeight(a: array<Slot<PriceLevel>>, i: Index, ghost p: Index, ghost t: Tree)
    requires t.Node? && i == t.idx && Joined(a[..], p, t) && S.Distinct(t)
    modifies a
    ensures a[..] == WithNode(old(a[..]), i, old(a[i]).obj.node.(height := S.Height(t)))
    ensures Rep(a[..], p, t)
  {
    var l := HeightOf(a, a[i].obj.node.left, i, t.left);
    var r := HeightOf(a, a[i].obj.node.right, i, t.right);
    ghost var s := a[..];
    PutNode(a, i, a[i].obj.node.(height := 1 + Max(l, r)));
    RepFrame(s, a[..], i, t.left);
    RepFrame(s, a[..], i, t.right);
  }

  // ---- Rotations -------------------------------------------------------------

  /** The links a right rotation has set, heights aside. */
  lemma RightLinks(s: LevelSlots, s': LevelSlots, p: Index, t: Tree)
    requires t.Node? && t.left.Node? && S.Distinct(t) && Joined(s, p, t) && Joined(s, t.idx, t.left)
    requires OnlyNodes(s, s', S.Ids(t))
    requires var z, y, mid := t.idx, t.left.idx, t.left.right;
             && s'[z].obj.node == s[z].obj.node.(left := Root(mid), parent := y)
             && s'[y].obj.node == s[y].obj.node.(right := z, parent := p)
             && (mid.Node? ==> IsLevel(s, mid.idx) && s'[mid.idx].obj.node == s[mid.idx].obj.node.(parent := z))
             && (forall i :: i in S.Ids(t) && i != z && i != y && i != Root(mid) && i < |s| ==> s'[i] == s[i])
    ensures Joined(s', t.left.idx, S.RotateRight(t).right)
    ensures Rep(s', t.left.idx, t.left.left)
  {
    var y := t.left.idx;
    RootId(t.left.right);
    RepIds(s, p, t);
    RepFrame(s, s', y, t.left.left);
    RepFrame(s, s', t.idx, t.right);
    Reparent(s, s', y, t.idx, t.left.right);
  }

  /** The three slots a right rotation relinks. */
  lemma RightPivot(s: LevelSlots, p: Index, t: Tree)
    requires t.Node? && t.left.Node? && S.Distinct(t) && Joined(s, p, t)
    ensures var z, y, mid := t.idx, t.left.idx, t.left.right;
            && IsLevel(s, z) && IsLevel(s, y) && y != z && Joined(s, z, t.left)
            && s[z].obj.node.left == y && s[z].obj.node.parent == p
            && s[y].obj.node.right == Root(mid) && s[y].obj.node.left == Root(t.left.left)
            && s[y].obj.price == t.left.price
            && (Root(mid) == INVALID <==> mid.Leaf?)
            && (mid.Node? ==> IsLevel(s, mid.idx) && mid.idx != y && mid.idx != z && mid.idx in S.Ids(t))
            && z in S.Ids(t) && y in S.Ids(t)
  {
    assert Joined(s, t.idx, t.left);
    assert Rep(s, t.left.idx, t.left.right);
    RepIds(s, p, t);
    RootId(t.left.right);
    RootIsInvalid(s, t.left.idx, t.left.right);
  }

  /** Moves the links of a right rotation at z, whose own stored height may be stale. */
  method RelinkRight(a: array<Slot<PriceLevel>>, z: Index, ghost p: Index, ghost t: Tree) returns (y: Index)
    requires t.Node? && t.left.Node? && S.Distinct(t) && z == t.idx && Joined(a[..], p, t)
    modifies a
    ensures y == t.left.idx
    ensures Joined(a[..], y, S.RotateRight(t).right) && Rep(a[..], y, t.left.left)
    ensures IsLevel(old(a[..]), y) && IsLevel(a[..], y) && a[y].obj.price == t.left.price
    ensures a[y].obj.node == old(a[y].obj.node).(right := z, parent := p)
    ensures old(a[y].obj.node.left) == Root(t.left.left)
    ensures OnlyNodes(old(a[..]), a[..], S.Ids(t))
  {
    hide Rep, Joined, S.Distinct, S.Ids;
    ghost var s := a[..];
    RightPivot(s, p, t);
    y := a[z].obj.node.left;
    var mid := a[y].obj.node.right;
    PutNode(a, z, a[z].obj.node.(left := mid));
    if mid != INVALID {
      PutNode(a, mid, a[mid].obj.node.(parent := z));
    }
    PutNode(a, y, a[y].obj.node.(right := z, parent := a[z].obj.node.parent));
    PutNode(a, z, a[z].obj.node.(parent := y));
    RightLinks(s, a[..], p, t);
  }

  method RotateRight(a: array<Slot<PriceLevel>>, z: Index, ghost p: Index, ghost t: Tree) returns (y: Index)
    requires t.Node? && t.left.Node? && S.Distinct(t) && z == t.idx && Joined(a[..], p, t)
    modifies a
    ensures y == t.left.idx && Rep(a[..], p, S.RotateRight(t))
    ensures OnlyNodes(old(a[..]), a[..], S.Ids(t))
  {
    RepIds(a[..], p, t);
    y := RelinkRight(a, z, p, t);
    ghost var u, s := S.RotateRight(t), a[..];
    S.RotateRightDistinct(t);
    UpdateHeight(a, z, y, u.right);
    RepFrame(s, a[..], y, u.left);
    UpdateHeight(a, y, p, u);
  }

  /** The links a left rotation has set, heights aside. */
  lemma LeftLinks(s: LevelSlots, s': LevelSlots, p: Index, t: Tree)
    requires t.Node? && t.right.Node? && S.Distinct(t) && Joined(s, p, t) && Joined(s, t.idx, t.right)
    requires OnlyNodes(s, s', S.Ids(t))
    requires var z, y, mid := t.idx, t.right.idx, t.right.left;
             && s'[z].obj.node == s[z].obj.node.(right := Root(mid), parent := y)
             && s'[y].obj.node == s[y].obj.node.(left := z, parent := p)
             && (mid.Node? ==> IsLevel(s, mid.idx) && s'[mid.idx].obj.node == s[mid.idx].obj.node.(parent := z))
             && (forall i :: i in S.Ids(t) && i != z && i != y && i != Root(mid) && i < |s| ==> s'[i] == s[i])
    ensures Joined(s', t.right.idx, S.RotateLeft(t).left)
    ensures Rep(s', t.right.idx, t.right.right)
  {
    var y := t.right.idx;
    RootId(t.right.left);
    RepIds(s, p, t);
    RepFrame(s, s', y, t.right.right);
    RepFrame(s, s', t.idx, t.left);
    Reparent(s, s', y, t.idx, t.right.left);
  }

  /** The three slots a left rotation relinks. */
  lemma LeftPivot(s: LevelSlots, p: Index, t: Tree)
    requires t.Node? && t.right.Node? && S.Distinct(t) && Joined(s, p, t)
    ensures var z, y, mid := t.idx, t.right.idx, t.right.left;
            && IsLevel(s, z) && IsLevel(s, y) && y != z && Joined(s, z, t.right)
            && s[z].obj.node.right == y && s[z].obj.node.parent == p
            && s[y].obj.node.left == Root(mid) && s[y].obj.node.right == Root(t.right.right)
            && s[y].obj.price == t.right.price
            && (Root(mid) == INVALID <==> mid.Leaf?)
            && (mid.Node? ==> IsLevel(s, mid.idx) && mid.idx != y && mid.idx != z && mid.idx in S.Ids(t))
            && z in S.Ids(t) && y in S.Ids(t)
  {
    assert Joined(s, t.idx, t.right);
    assert Rep(s, t.right.idx, t.right.left);
    RepIds(s, p, t);
    RootId(t.right.left);
    RootIsInvalid(s, t.right.idx, t.right.left);
  }

  /** Moves the links of a left rotation at z, whose own stored height may be stale. */
  method RelinkLeft(a: array<Slot<PriceLevel>>, z: Index, ghost p: Index, ghost t: Tree) returns (y: Index)
    requires t.Node? && t.right.Node? && S.Distinct(t) && z == t.idx && Joined(a[..], p, t)
    modifies a
    ensures y == t.right.idx
    ensures Joined(a[..], y, S.RotateLeft(t).left) && Rep(a[..], y, t.right.right)
    ensures IsLevel(old(a[..]), y) && IsLevel(a[..], y) && a[y].obj.price == t.right.price
    ensures a[y].obj.node == old(a[y].obj.node).(left := z, parent := p)
    ensures old(a[y].obj.node.right) == Root(t.right.right)
    ensures OnlyNodes(old(a[..]), a[..], S.Ids(t))
  {
    hide Rep, Joined, S.Distinct, S.Ids;
    ghost var s := a[..];
    LeftPivot(s, p, t);
    y := a[z].obj.node.right;
    var mid := a[y].obj.node.left;
    PutNode(a, z, a[z].obj.node.(right := mid));
    if mid != INVALID {
      PutNode(a, mid, a[mid].obj.node.(parent := z));
    }
    PutNode(a, y, a[y].obj.node.(left := z, parent := a[z].obj.node.parent));
    PutNode(a, z, a[z].obj.node.(parent := y));
    LeftLinks(s, a[..], p, t);
  }

  method RotateLeft(a: array<Slot<PriceLevel>>, z: Index, ghost p: Index, ghost t: Tree) returns (y: Index)
    requires t.Node? && t.right.Node? && S.Distinct(t) && z == t.idx && Joined(a[..], p, t)
    modifies a
    ensures y == t.right.idx && Rep(a[..], p, S.RotateLeft(t))
    ensures OnlyNodes(old(a[..]), a[..], S.Ids(t))
  {
    RepIds(a[..], p, t);
    y := RelinkLeft(a, z, p, t);
    ghost var u, s := S.RotateLeft(t), a[..];
    S.RotateLeftDistinct(t);
    UpdateHeight(a, z, y, u.left);
    RepFrame(s, a[..], y, u.right);
    UpdateHeight(a, y, p, u);
  }

  // ---- Rebalancing -----------------------------------------------------------

  /** Stores a child link and the child's parent link. */
  method AttachLeft(a: array<Slot<PriceLevel>>, i: Index, l: Index, ghost p: Index, ghost q: Index, ghost t: Tree)
    requires t.Node? && i == t.idx < INVALID && l == Root(t.left) && S.Distinct(t)
    requires IsLevel(a[..], i) && a[i].obj.price == t.price
    requires a[i].obj.node.parent == p && a[i].obj.node.right == Root(t.right)
    requires Rep(a[..], q, t.left) && Rep(a[..], i, t.right)
    modifies a
    ensures Joined(a[..], p, t)
    ensures OnlyNodes(old(a[..]), a[..], S.Ids(t.left) + {i})
  {
    ghost var s := a[..];
    RootId(t.left);
    PutNode(a, i, a[i].obj.node.(left := l));
    RepFrame(s, a[..], q, t.left);
    ghost var s1 := a[..];
    if l != INVALID {
      PutNode(a, l, a[l].obj.node.(parent := i));
    }
    Reparent(s1, a[..], q, i, t.left);
    RepFrame(s, a[..], i, t.right);
  }

  method AttachRight(a: array<Slot<PriceLevel>>, i: Index, r: Index, ghost p: Index, ghost q: Index, ghost t: Tree)
    requires t.Node? && i == t.idx < INVALID && r == Root(t.right) && S.Distinct(t)
    requires IsLevel(a[..], i) && a[i].obj.price == t.price
    requires a[i].obj.node.parent == p && a[i].obj.node.left == Root(t.left)
    requires Rep(a[..], i, t.left) && Rep(a[..], q, t.right)
    modifies a
    ensures Joined(a[..], p, t)
    ensures OnlyNodes(old(a[..]), a[..], S.Ids(t.right) + {i})
  {
    ghost var s := a[..];
    RootId(t.right);
    PutNode(a, i, a[i].obj.node.(right := r));
    RepFrame(s, a[..], q, t.right);
    ghost var s1 := a[..];
    if r != INVALID {
      PutNode(a, r, a[r].obj.node.(parent := i));
    }
    Reparent(s1, a[..], q, i, t.right);
    RepFrame(s, a[..], i, t.left);
  }

  /** The first half of a left-right rotation. */
  method TurnLeftChild(a: array<Slot<PriceLevel>>, i: Index, ghost p: Index, ghost t: Tree)
    requires t.Node? && t.left.Node? && t.left.right.Node? && i == t.idx && S.Distinct(t) && Rep(a[..], p, t)
    modifies a
    ensures var u := t.(left := S.RotateLeft(t.left));
            Joined(a[..], p, u) && S.Distinct(u) && S.Ids(u) == S.Ids(t)
    ensures OnlyNodes(old(a[..]), a[..], S.Ids(t))
  {
    ghost var s, u := a[..], t.(left := S.RotateLeft(t.left));
    assert Rep(s, i, t.left);
    S.RotationIds(t.left);
    S.RotateLeftDistinct(t.left);
    var l := RotateLeft(a, a[i].obj.node.left, i, t.left);
    RepFrame(s, a[..], i, t.right);
    AttachLeft(a, i, l, p, i, u);
  }

  /** The first half of a right-left rotation. */
  method TurnRightChild(a: array<Slot<PriceLevel>>, i: Index, ghost p: Index, ghost t: Tree)
    requires t.Node? && t.right.Node? && t.right.left.Node? && i == t.idx && S.Distinct(t) && Rep(a[..], p, t)
    modifies a
    ensures var u := t.(right := S.RotateRight(t.right));
            Joined(a[..], p, u) && S.Distinct(u) && S.Ids(u) == S.Ids(t)
    ensures OnlyNodes(old(a[..]), a[..], S.Ids(t))
  {
    ghost var s, u := a[..], t.(right := S.RotateRight(t.right));
    assert Rep(s, i, t.right);
    S.RotationIds(t.right);
    S.RotateRightDistinct(t.right);
    var l := RotateRight(a, a[i].obj.node.right, i, t.right);
    RepFrame(s, a[..], i, t.left);
    AttachRight(a, i, l, p, i, u);
  }

  method RebalanceLeftHeavy(a: array<Slot<PriceLevel>>, i: Index, stats: AvlStatistics, ghost p: Index, ghost t: Tree)
    returns (r: Index)
    requires t.Node? && i == t.idx && S.Distinct(t) && Rep(a[..], p, t) && S.Balance(t) < -1
    modifies a, stats
    ensures r == Root(S.Rebalance(t)) && Rep(a[..], p, S.Rebalance(t))
    ensures OnlyNodes(old(a[..]), a[..], S.Ids(t))
    ensures stats.Rotations() == old(stats.Rotations()).Plus(S.Choice(t))
    ensures stats.treeHeight == old(stats.treeHeight) && stats.maximumHeight == old(stats.maximumHeight)
  {
    var leftIdx := a[i].obj.node.left;
    assert S.Height(t.left) >= 2 && Rep(a[..], i, t.left);
    var b := BalanceFactor(a, leftIdx, i, t.left);
    if b <= 0 {
      stats.llRotations := stats.llRotations + 1;
      r := RotateRight(a, i, p, t);
    } else {
      stats.lrRotations := stats.lrRotations + 1;
      TurnLeftChild(a, i, p, t);
      r := RotateRight(a, i, p, t.(left := S.RotateLeft(t.left)));
    }
  }

  method RebalanceRightHeavy(a: array<Slot<PriceLevel>>, i: Index, stats: AvlStatistics, ghost p: Index, ghost t: Tree)
    returns (r: Index)
    requires t.Node? && i == t.idx && S.Distinct(t) && Rep(a[..], p, t) && S.Balance(t) > 1
    modifies a, stats
    ensures r == Root(S.Rebalance(t)) && Rep(a[..], p, S.Rebalance(t))
    ensures OnlyNodes(old(a[..]), a[..], S.Ids(t))
    ensures stats.Rotations() == old(stats.Rotations()).Plus(S.Choice(t))
    ensures stats.treeHeight == old(stats.treeHeight) && stats.maximumHeight == old(stats.maximumHeight)
  {
    var rightIdx := a[i].obj.node.right;
    assert S.Height(t.right) >= 2 && Rep(a[..], i, t.right);
    var b := BalanceFactor(a, rightIdx, i, t.right);
    if b >= 0 {
      stats.rrRotations := stats.rrRotations + 1;
      r := RotateLeft(a, i, p, t);
    } else {
      stats.rlRotations := stats.rlRotations + 1;
      TurnRightChild(a, i, p, t);
      r := RotateLeft(a, i, p, t.(right := S.RotateRight(t.right)));
    }
  }

  /**
    Refreshes the stored height at i and rotates if the balance factor calls for it. The counter that rises is that of
    the node that comes up.
   */
  method Rebalance(a: array<Slot<PriceLevel>>, i: Index, stats: AvlStatistics, ghost p: Index, ghost t: Tree)
    returns (r: Index)
    requires t.Node? && i == t.idx && S.Distinct(t) && Joined(a[..], p, t)
    modifies a, stats
    ensures r == Root(S.Rebalance(t)) && Rep(a[..], p, S.Rebalance(t))
    ensures OnlyNodes(old(a[..]), a[..], S.Ids(t))
    ensures stats.Rotations() == old(stats.Rotations()).Plus(S.Choice(t))
    ensures stats.llRotations == old(stats.llRotations) + if r == Root(t.left) then 1 else 0
    ensures stats.rrRotations == old(stats.rrRotations) + if r == Root(t.right) then 1 else 0
    ensures stats.lrRotations == old(stats.lrRotations) + if t.left.Node? && r == Root(t.left.right) then 1 else 0
    ensures stats.rlRotations == old(stats.rlRotations) + if t.right.Node? && r == Root(t.right.left) then 1 else 0
    ensures stats.treeHeight == old(stats.treeHeight) && stats.maximumHeight == old(stats.maximumHeight)
  {
    R.CounterOfRoot(t, stats.Rotations());
    UpdateHeight(a, i, p, t);
    var bal := BalanceFactor(a, i, p, t);
    if bal < -1 {
      r := RebalanceLeftHeavy(a, i, stats, p, t);
    } else if bal > 1 {
      r := RebalanceRightHeavy(a, i, stats, p, t);
    } else {
      r := i;
    }
    RootIsInvalid(a[..], p, S.Rebalance(t));
  }

  /** Stores a changed left subtree at i and rebalances there. */
  method GraftLeft(a: array<Slot<PriceLevel>>, i: Index, l: Index, stats: AvlStatistics,
                   ghost p: Index, ghost q: Index, ghost t: Tree)
    returns (r: Index)
    requires t.Node? && i == t.idx < INVALID && l == Root(t.left) && S.Distinct(t)
    requires IsLevel(a[..], i) && a[i].obj.price == t.price
    requires a[i].obj.node.parent == p && a[i].obj.node.right == Root(t.right)
    requires Rep(a[..], q, t.left) && Rep(a[..], i, t.right)
    modifies a, stats
    ensures r == Root(S.Rebalance(t)) && Rep(a[..], p, S.Rebalance(t))
    ensures OnlyNodes(old(a[..]), a[..], S.Ids(t))
    ensures stats.Rotations() == old(stats.Rotations()).Plus(S.Choice(t))
    ensures stats.treeHeight == old(stats.treeHeight) && stats.maximumHeight == old(stats.maximumHeight)
  {
    AttachLeft(a, i, l, p, q, t);
    r := Rebalance(a, i, stats, p, t);
  }

  /** Stores a changed right subtree at i and rebalances there. */
  method GraftRight(a: array<Slot<PriceLevel>>, i: Index, c: Index, stats: AvlStatistics,
                   ghost p: Index, ghost q: Index, ghost t: Tree)
    returns (r: Index)
    requires t.Node? && i == t.idx < INVALID && c == Root(t.right) && S.Distinct(t)
    requires IsLevel(a[..], i) && a[i].obj.price == t.price
    requires a[i].obj.node.parent == p && a[i].obj.node.left == Root(t.left)
    requires Rep(a[..], q, t.right) && Rep(a[..], i, t.left)
    modifies a, stats
    ensures r == Root(S.Rebalance(t)) && Rep(a[..], p, S.Rebalance(t))
    ensures OnlyNodes(old(a[..]), a[..], S.Ids(t))
    ensures stats.Rotations() == old(stats.Rotations()).Plus(S.Choice(t))
    ensures stats.treeHeight == old(stats.treeHeight) && stats.maximumHeight == old(stats.maximumHeight)
  {
    AttachRight(a, i, c, p, q, t);
    r := Rebalance(a, i, stats, p, t);
  }

  // ---- Search ----------------------------------------------------------------

  /** Leftmost node: the least price. */
  method FindMin(a: array<Slot<PriceLevel>>, root: Index, ghost p: Index, ghost t: Tree) returns (m: Index)
    requires root == Root(t) && Rep(a[..], p, t)
    ensures m == if t.Leaf? then INVALID else S.Leftmost(t).idx
  {
    if root == INVALID {
      return INVALID;
    }
    m := root;
    ghost var q, u := p, t;
    while a[m].obj.node.left != INVALID
      invariant u.Node? && m == u.idx && Joined(a[..], q, u)
      invariant S.Leftmost(u) == S.Leftmost(t)
      decreases u
    {
      q, m, u := m, a[m].obj.node.left, u.left;
    }
    RootIsInvalid(a[..], m, u.left);
  }

  /** Rightmost node: the greatest price. */
  method FindMax(a: array<Slot<PriceLevel>>, root: Index, ghost p: Index, ghost t: Tree) returns (m: Index)
    requires root == Root(t) && Rep(a[..], p, t)
    ensures m == if t.Leaf? then INVALID else S.Rightmost(t).idx
  {
    if root == INVALID {
      return INVALID;
    }
    m := root;
    ghost var q, u := p, t;
    while a[m].obj.node.right != INVALID
      invariant u.Node? && m == u.idx && Joined(a[..], q, u)
      invariant S.Rightmost(u) == S.Rightmost(t)
      decreases u
    {
      q, m, u := m, a[m].obj.node.right, u.right;
    }
    RootIsInvalid(a[..], m, u.right);
  }

  /** Exact lookup: the slot stored at a price, INVALID exactly when no level has it. */
  method Find(a: array<Slot<PriceLevel>>, root: Index, price: u32, ghost p: Index, ghost t: Tree) returns (i: Index)
    requires root == Root(t) && Rep(a[..], p, t) && S.Ordered(t)
    ensures i == INVALID <==> !S.HasPrice(t, price)
    ensures i != INVALID ==> S.Entry(price, i) in S.Entries(t)
  {
    i := root;
    ghost var q, u := p, t;
    while i != INVALID
      invariant i == Root(u) && Rep(a[..], q, u) && S.Ordered(u)
      invariant forall e :: e in S.Entries(t) && e.price == price ==> e in S.Entries(u)
      invariant forall e :: e in S.Entries(u) ==> e in S.Entries(t)
      decreases u
    {
      if price == a[i].obj.price {
        assert S.Entry(price, i) in S.Entries(u);
        return;
      }
      if price < a[i].obj.price {
        q, i, u := i, a[i].obj.node.left, u.left;
      } else {
        q, i, u := i, a[i].obj.node.right, u.right;
      }
    }
  }

  // ---- Insertion and removal -------------------------------------------------

  /** Hangs a prepared level into the tree below root and rebalances on the way up. */
  method Insert(a: array<Slot<PriceLevel>>, root: Index, newIdx: Index, stats: AvlStatistics, ghost p: Index,
                ghost t: Tree)
    returns (r: Index)
    requires root == Root(t) && S.Distinct(t) && Rep(a[..], p, t)
    requires newIdx < INVALID && IsLevel(a[..], newIdx) && newIdx !in S.Ids(t)
    modifies a, stats
    ensures var u := S.Insert(t, old(a[newIdx].obj.price), newIdx);
            r == Root(u) && Rep(a[..], if t.Leaf? then INVALID else p, u)
    ensures OnlyNodes(old(a[..]), a[..], S.Ids(t) + {newIdx})
    ensures stats.Rotations() == S.InsertCounts(t, old(a[newIdx].obj.price), newIdx, old(stats.Rotations()))
    ensures stats.treeHeight == old(stats.treeHeight) && stats.maximumHeight == old(stats.maximumHeight)
    decreases t, 1
  {
    RootIsInvalid(a[..], p, t);
    if root == INVALID {
      PutNode(a, newIdx, AvlNode(INVALID, INVALID, INVALID, 1));
      r := newIdx;
    } else if a[newIdx].obj.price < a[root].obj.price {
      r := InsertLeft(a, root, newIdx, stats, p, t);
    } else {
      r := InsertRight(a, root, newIdx, stats, p, t);
    }
  }

  /** Insertion into the left subtree of root, then the repair at root. */
  method InsertLeft(a: array<Slot<PriceLevel>>, root: Index, newIdx: Index, stats: AvlStatistics, ghost p: Index,
                    ghost t: Tree)
    returns (r: Index)
    requires t.Node? && root == t.idx && S.Distinct(t) && Joined(a[..], p, t)
    requires newIdx < INVALID && IsLevel(a[..], newIdx) && newIdx !in S.Ids(t)
    modifies a, stats
    ensures var u := S.Rebalance(t.(left := S.Insert(t.left, old(a[newIdx].obj.price), newIdx)));
            r == Root(u) && Rep(a[..], p, u)
    ensures OnlyNodes(old(a[..]), a[..], S.Ids(t) + {newIdx})
    ensures var price, c := old(a[newIdx].obj.price), old(stats.Rotations());
            stats.Rotations() ==
              S.InsertCounts(t.left, price, newIdx, c).Plus(S.Choice(t.(left := S.Insert(t.left, price, newIdx))))
    ensures stats.treeHeight == old(stats.treeHeight) && stats.maximumHeight == old(stats.maximumHeight)
    decreases t, 0
  {
    ghost var s, ids := a[..], S.Ids(t) + {newIdx};
    ghost var u := t.(left := S.Insert(t.left, a[newIdx].obj.price, newIdx));
    S.InsertOccupies(t.left, a[newIdx].obj.price, newIdx);
    var l := Insert(a, a[root].obj.node.left, newIdx, stats, root, t.left);
    RepFrame(s, a[..], root, t.right);
    ghost var s1 := a[..];
    r := GraftLeft(a, root, l, stats, p, if t.left.Leaf? then INVALID else root, u);
    OnlyNodesTrans(s, s1, a[..], S.Ids(t.left) + {newIdx}, S.Ids(u), ids);
  }

  /** Insertion into the right subtree of root, then the repair at root. */
  method InsertRight(a: array<Slot<PriceLevel>>, root: Index, newIdx: Index, stats: AvlStatistics, ghost p: Index,
                     ghost t: Tree)
    returns (r: Index)
    requires t.Node? && root == t.idx && S.Distinct(t) && Joined(a[..], p, t)
    requires newIdx < INVALID && IsLevel(a[..], newIdx) && newIdx !in S.Ids(t)
    modifies a, stats
    ensures var u := S.Rebalance(t.(right := S.Insert(t.right, old(a[newIdx].obj.price), newIdx)));
            r == Root(u) && Rep(a[..], p, u)
    ensures OnlyNodes(old(a[..]), a[..], S.Ids(t) + {newIdx})
    ensures var price, c := old(a[newIdx].obj.price), old(stats.Rotations());
            stats.Rotations() ==
              S.InsertCounts(t.right, price, newIdx, c).Plus(S.Choice(t.(right := S.Insert(t.right, price, newIdx))))
    ensures stats.treeHeight == old(stats.treeHeight) && stats.maximumHeight == old(stats.maximumHeight)
    decreases t, 0
  {
    ghost var s, ids := a[..], S.Ids(t) + {newIdx};
    ghost var u := t.(right := S.Insert(t.right, a[newIdx].obj.price, newIdx));
    S.InsertOccupies(t.right, a[newIdx].obj.price, newIdx);
    var c := Insert(a, a[root].obj.node.right, newIdx, stats, root, t.right);
    RepFrame(s, a[..], root, t.left);
    ghost var s1 := a[..];
    r := GraftRight(a, root, c, stats, p, if t.right.Leaf? then INVALID else root, u);
    OnlyNodesTrans(s, s1, a[..], S.Ids(t.right) + {newIdx}, S.Ids(u), ids);
  }

  /** The subtrees of a tree without duplicates, and a slot outside it. */
  lemma Subtrees(s: LevelSlots, p: Index, root: Index, u: Tree)
    requires u.Node? && S.Distinct(u) && root !in S.Ids(u) && Rep(s, p, u.left) && Rep(s, p, u.right)
    ensures S.Distinct(u.left) && S.Distinct(u.right) && u.idx in S.Ids(u) && u.idx != root
    ensures forall i :: i in S.Ids(u.left) ==> i != u.idx && i != root && i !in S.Ids(u.right) && i in S.Ids(u)
    ensures forall i :: i in S.Ids(u.right) ==> i != u.idx && i != root && i in S.Ids(u)
    ensures u.left.Node? ==> u.left.idx in S.Ids(u.left) && IsLevel(s, u.left.idx) && Root(u.left) != INVALID
    ensures u.right.Node? ==> u.right.idx in S.Ids(u.right) && IsLevel(s, u.right.idx) && Root(u.right) != INVALID
  {
  }

  /** Puts the successor, already taken out of the right subtree, in place of the root. */
  method SpliceSuccessor(a: array<Slot<PriceLevel>>, root: Index, succ: Index, newRight: Index,
                         ghost p: Index, ghost t: Tree, ghost u: Tree)
    requires t.Node? && t.left.Node? && root == t.idx && IsLevel(a[..], root)
    requires a[root].obj.node.parent == p && a[root].obj.node.left == Root(t.left)
    requires u.Node? && u.left == t.left && succ == u.idx < INVALID && newRight == Root(u.right)
    requires S.Distinct(u) && root !in S.Ids(u)
    requires IsLevel(a[..], succ) && a[succ].obj.price == u.price
    requires Rep(a[..], root, u.left) && Rep(a[..], root, u.right)
    modifies a
    ensures Joined(a[..], p, u)
    ensures OnlyNodes(old(a[..]), a[..], S.Ids(u) + {root})
    ensures Unlinked(a[..], root)
  {
    hide Rep, S.Distinct, S.Ids;
    ghost var s := a[..];
    Subtrees(s, root, root, u);
    var left := a[root].obj.node.left;
    PutNode(a, succ, a[succ].obj.node.(left := left, right := newRight, parent := a[root].obj.node.parent));
    RepFrame(s, a[..], root, u.left);
    RepFrame(s, a[..], root, u.right);
    ghost var s1 := a[..];
    PutNode(a, left, a[left].obj.node.(parent := succ));
    Reparent(s1, a[..], root, succ, u.left);
    RepFrame(s1, a[..], root, u.right);
    ghost var s2 := a[..];
    if newRight != INVALID {
      PutNode(a, newRight, a[newRight].obj.node.(parent := succ));
    }
    Reparent(s2, a[..], root, succ, u.right);
    RepFrame(s2, a[..], succ, u.left);
    ClearLinks(a, root, p, u);
  }

  /** Clears the child links of a level outside the tree u. */
  method ClearLinks(a: array<Slot<PriceLevel>>, i: Index, ghost p: Index, ghost u: Tree)
    requires IsLevel(a[..], i) && u.Node? && i !in S.Ids(u) && Joined(a[..], p, u)
    modifies a
    ensures Joined(a[..], p, u) && Unlinked(a[..], i)
    ensures a[..] == WithNode(old(a[..]), i, old(a[i].obj.node).(left := INVALID, right := INVALID))
  {
    hide Rep;
    ghost var s := a[..];
    PutNode(a, i, a[i].obj.node.(left := INVALID, right := INVALID));
    RepFrame(s, a[..], u.idx, u.left);
    RepFrame(s, a[..], u.idx, u.right);
  }

  /** Unhooks target from the tree below root; the caller frees its slot afterwards. */
  method Remove(a: array<Slot<PriceLevel>>, root: Index, target: Index, stats: AvlStatistics, ghost p: Index,
                ghost t: Tree)
    returns (r: Index)
    requires root == Root(t) && S.Ordered(t) && S.Distinct(t) && Rep(a[..], p, t)
    requires IsLevel(a[..], target)
    requires t.Node? ==> S.Entry(a[target].obj.price, target) in S.Entries(t)
    modifies a, stats
    ensures var u := S.Remove(t, old(a[target].obj.price));
            r == Root(u) && Rep(a[..], p, u)
    ensures OnlyNodes(old(a[..]), a[..], S.Ids(t))
    ensures t.Node? ==> Unlinked(a[..], target)
    ensures stats.Rotations() == S.RemoveCounts(t, old(a[target].obj.price), old(stats.Rotations()))
    ensures stats.treeHeight == old(stats.treeHeight) && stats.maximumHeight == old(stats.maximumHeight)
    decreases t, 2
  {
    RootIsInvalid(a[..], p, t);
    if root == INVALID {
      r := INVALID;
    } else if a[target].obj.price < a[root].obj.price {
      r := RemoveLeft(a, root, target, stats, p, t);
    } else if a[target].obj.price > a[root].obj.price {
      r := RemoveRight(a, root, target, stats, p, t);
    } else {
      S.PriceIsKey(t, S.Entry(a[target].obj.price, target), S.Entry(t.price, t.idx));
      r := RemoveRoot(a, root, stats, p, t);
    }
  }

  ghost predicate Unlinked(s: LevelSlots, i: Index) {
    IsLevel(s, i) && s[i].obj.node.left == INVALID && s[i].obj.node.right == INVALID
  }

  /** Removal from the left subtree of root, then the repair at root. */
  method RemoveLeft(a: array<Slot<PriceLevel>>, root: Index, target: Index, stats: AvlStatistics, ghost p: Index,
                    ghost t: Tree)
    returns (r: Index)
    requires t.Node? && root == t.idx && S.Ordered(t) && S.Distinct(t) && Joined(a[..], p, t)
    requires IsLevel(a[..], target) && S.Entry(a[target].obj.price, target) in S.Entries(t.left)
    modifies a, stats
    ensures var u := S.Rebalance(t.(left := S.Remove(t.left, old(a[target].obj.price))));
            r == Root(u) && Rep(a[..], p, u)
    ensures OnlyNodes(old(a[..]), a[..], S.Ids(t))
    ensures Unlinked(a[..], target)
    ensures var price, c := old(a[target].obj.price), old(stats.Rotations());
            stats.Rotations() == S.RemoveCounts(t.left, price, c).Plus(S.Choice(t.(left := S.Remove(t.left, price))))
    ensures stats.treeHeight == old(stats.treeHeight) && stats.maximumHeight == old(stats.maximumHeight)
    decreases t, 0
  {
    ghost var s, e := a[..], S.Entry(a[target].obj.price, target);
    ghost var u := t.(left := S.Remove(t.left, e.price));
    S.RemoveReleases(t.left, e);
    S.EntrySlots(t.left);
    var l := Remove(a, a[root].obj.node.left, target, stats, root, t.left);
    RepFrame(s, a[..], root, t.right);
    ghost var s1 := a[..];
    r := GraftLeft(a, root, l, stats, p, root, u);
    OnlyNodesTrans(s, s1, a[..], S.Ids(t.left), S.Ids(u), S.Ids(t));
  }

  /** Removal from the right subtree of root, then the repair at root. */
  method RemoveRight(a: array<Slot<PriceLevel>>, root: Index, target: Index, stats: AvlStatistics, ghost p: Index,
                     ghost t: Tree)
    returns (r: Index)
    requires t.Node? && root == t.idx && S.Ordered(t) && S.Distinct(t) && Joined(a[..], p, t)
    requires IsLevel(a[..], target) && S.Entry(a[target].obj.price, target) in S.Entries(t.right)
    modifies a, stats
    ensures var u := S.Rebalance(t.(right := S.Remove(t.right, old(a[target].obj.price))));
            r == Root(u) && Rep(a[..], p, u)
    ensures OnlyNodes(old(a[..]), a[..], S.Ids(t))
    ensures Unlinked(a[..], target)
    ensures var price, c := old(a[target].obj.price), old(stats.Rotations());
            stats.Rotations() == S.RemoveCounts(t.right, price, c).Plus(S.Choice(t.(right := S.Remove(t.right, price))))
    ensures stats.treeHeight == old(stats.treeHeight) && stats.maximumHeight == old(stats.maximumHeight)
    decreases t, 0
  {
    ghost var s, e := a[..], S.Entry(a[target].obj.price, target);
    ghost var u := t.(right := S.Remove(t.right, e.price));
    S.RemoveReleases(t.right, e);
    S.EntrySlots(t.right);
    var c := Remove(a, a[root].obj.node.right, target, stats, root, t.right);
    RepFrame(s, a[..], root, t.left);
    ghost var s1 := a[..];
    r := GraftRight(a, root, c, stats, p, root, u);
    OnlyNodesTrans(s, s1, a[..], S.Ids(t.right), S.Ids(u), S.Ids(t));
  }

  /** Removes the root of the subtree: splices its only child up, or its successor in. */
  method RemoveRoot(a: array<Slot<PriceLevel>>, root: Index, stats: AvlStatistics, ghost p: Index, ghost t: Tree)
    returns (r: Index)
    requires t.Node? && root == t.idx && S.Ordered(t) && S.Distinct(t) && Rep(a[..], p, t)
    modifies a, stats
    ensures r == Root(S.Remove(t, t.price)) && Rep(a[..], p, S.Remove(t, t.price))
    ensures OnlyNodes(old(a[..]), a[..], S.Ids(t))
    ensures Unlinked(a[..], root)
    ensures stats.Rotations() == S.RemoveCounts(t, t.price, old(stats.Rotations()))
    ensures stats.treeHeight == old(stats.treeHeight) && stats.maximumHeight == old(stats.maximumHeight)
    decreases t, 1
  {
    RootIsInvalid(a[..], root, t.left);
    RootIsInvalid(a[..], root, t.right);
    if a[root].obj.node.left == INVALID {
      r := a[root].obj.node.right;
      LiftChild(a, root, r, p, t.right);
    } else if a[root].obj.node.right == INVALID {
      r := a[root].obj.node.left;
      LiftChild(a, root, r, p, t.left);
    } else {
      r := RemoveBranching(a, root, stats, p, t);
    }
  }

  /** The in-order successor is unhooked from the right subtree and takes the place of the root. */
  method RemoveBranching(a: array<Slot<PriceLevel>>, root: Index, stats: AvlStatistics, ghost p: Index, ghost t: Tree)
    returns (r: Index)
    requires t.Node? && t.left.Node? && t.right.Node?
    requires root == t.idx && S.Ordered(t) && S.Distinct(t) && Joined(a[..], p, t)
    modifies a, stats
    ensures var m := S.Leftmost(t.right);
            var u := S.Node(t.left, m.price, m.idx, S.Remove(t.right, m.price));
            && r == Root(S.Rebalance(u)) && Rep(a[..], p, S.Rebalance(u))
            && stats.Rotations() == S.RemoveCounts(t.right, m.price, old(stats.Rotations())).Plus(S.Choice(u))
    ensures OnlyNodes(old(a[..]), a[..], S.Ids(t))
    ensures Unlinked(a[..], root)
    ensures stats.treeHeight == old(stats.treeHeight) && stats.maximumHeight == old(stats.maximumHeight)
    decreases t, 0
  {
    var succ := FindMin(a, a[root].obj.node.right, root, t.right);
    ghost var s, m := a[..], S.Entry(S.Leftmost(t.right).price, succ);
    ghost var u := S.Node(t.left, m.price, succ, S.Remove(t.right, m.price));
    S.LeftmostIsLeast(t.right);
    S.RemoveReleases(t.right, m);
    S.EntrySlots(t.right);
    RepIds(s, root, t.right);
    var newRight := Remove(a, a[root].obj.node.right, succ, stats, root, t.right);
    RepFrame(s, a[..], root, t.left);
    ghost var s1 := a[..];
    SpliceSuccessor(a, root, succ, newRight, p, t, u);
    OnlyNodesTrans(s, s1, a[..], S.Ids(t.right), S.Ids(u) + {root}, S.Ids(t));
    ghost var s2 := a[..];
    r := Rebalance(a, succ, stats, p, u);
    OnlyNodesTrans(s, s2, a[..], S.Ids(t), S.Ids(u), S.Ids(t));
  }

  /** Hands the only child c of root to root's parent and clears root's child links. */
  method LiftChild(a: array<Slot<PriceLevel>>, root: Index, child: Index, ghost p: Index, ghost c: Tree)
    requires IsLevel(a[..], root) && a[root].obj.node.parent == p
    requires child == Root(c) && S.Distinct(c) && root !in S.Ids(c) && Rep(a[..], root, c)
    modifies a
    ensures Rep(a[..], p, c)
    ensures OnlyNodes(old(a[..]), a[..], S.Ids(c) + {root})
    ensures Unlinked(a[..], root)
  {
    ghost var s := a[..];
    RootId(c);
    if child != INVALID {
      PutNode(a, child, a[child].obj.node.(parent := a[root].obj.node.parent));
    }
    Reparent(s, a[..], root, p, c);
    ghost var s1 := a[..];
    PutNode(a, root, a[root].obj.node.(left := INVALID, right := INVALID));
    RepFrame(s1, a[..], p, c);
  }

  /** Records the height of the tree and the largest height seen. */
  method UpdateStatsHeight(a: array<Slot<PriceLevel>>, root: Index, stats: AvlStatistics, ghost p: Index, ghost t: Tree)
    requires root == Root(t) && Rep(a[..], p, t)
    modifies stats
    ensures stats.Rotations() == old(stats.Rotations())
    ensures stats.treeHeight == S.Height(t)
    ensures stats.maximumHeight == Max(old(stats.maximumHeight), S.Height(t))
  {
    stats.treeHeight := HeightOf(a, root, p, t);
    if stats.treeHeight > stats.maximumHeight {
      stats.maximumHeight := stats.treeHeight;
    }
  }
}
