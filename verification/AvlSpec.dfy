/** Search trees of price levels as values, and what the balancing operations do to them. */
module AvlSpec {
  import opened Base

  datatype Entry = Entry(price: u32, idx: Index)

  /** A node carries the price of a level and the pool slot the level lives in. */
  datatype Tree = Leaf | Node(left: Tree, price: u32, idx: Index, right: Tree)

  datatype Rotation = NoRotation | LL | LR | RR | RL

  /** The four rotation counters of the statistics record. */
  datatype Counts = Counts(ll: nat, rr: nat, lr: nat, rl: nat) {
    function Total(): nat { ll + rr + lr + rl }

    function Plus(r: Rotation): Counts {
      match r
      case NoRotation => this
      case LL => this.(ll := ll + 1)
      case RR => this.(rr := rr + 1)
      case LR => this.(lr := lr + 1)
      case RL => this.(rl := rl + 1)
    }
  }

  function Height(t: Tree): nat {
    if t.Leaf? then 0 else 1 + Max(Height(t.left), Height(t.right))
  }

  function Size(t: Tree): nat {
    if t.Leaf? then 0 else Size(t.left) + 1 + Size(t.right)
  }

  /** What a tree stores: prices with the slots of their levels. */
  ghost function Entries(t: Tree): set<Entry> {
    if t.Leaf? then {} else Entries(t.left) + {Entry(t.price, t.idx)} + Entries(t.right)
  }

  ghost function Ids(t: Tree): set<Index> {
    if t.Leaf? then {} else Ids(t.left) + {t.idx} + Ids(t.right)
  }

  /** Strict price order: left below node below right. */
  ghost predicate Ordered(t: Tree) {
    t.Node? ==>
      && Ordered(t.left) && Ordered(t.right)
      && (forall e :: e in Entries(t.left) ==> e.price < t.price)
      && (forall e :: e in Entries(t.right) ==> t.price < e.price)
  }

  /** Slots are pairwise distinct: a tree in the pool visits no slot twice. */
  ghost predicate Distinct(t: Tree) {
    t.Node? ==>
      && Distinct(t.left) && Distinct(t.right)
      && t.idx !in Ids(t.left) && t.idx !in Ids(t.right)
      && Ids(t.left) !! Ids(t.right)
  }

  lemma {:induction false} EntrySlots(t: Tree)
    ensures forall e :: e in Entries(t) ==> e.idx in Ids(t)
    ensures forall i :: i in Ids(t) ==> exists e :: e in Entries(t) && e.idx == i
  {
    if t.Node? {
      EntrySlots(t.left);
      EntrySlots(t.right);
      assert Entry(t.price, t.idx) in Entries(t);
    }
  }

  function Balance(t: Tree): int
    requires t.Node?
  {
    Height(t.right) - Height(t.left)
  }

  ghost predicate Balanced(t: Tree) {
    t.Node? ==> Balanced(t.left) && Balanced(t.right) && -1 <= Balance(t) <= 1
  }

  ghost predicate Avl(t: Tree) {
    Ordered(t) && Balanced(t)
  }

  function RotateRight(t: Tree): Tree
    requires t.Node? && t.left.Node?
  {
    Node(t.left.left, t.left.price, t.left.idx, Node(t.left.right, t.price, t.idx, t.right))
  }

  function RotateLeft(t: Tree): Tree
    requires t.Node? && t.right.Node?
  {
    Node(Node(t.left, t.price, t.idx, t.right.left), t.right.price, t.right.idx, t.right.right)
  }

  /** Which rotation the balance factors select. */
  function Choice(t: Tree): Rotation
    requires t.Node?
  {
    if Balance(t) < -1 then
      if Balance(t.left) <= 0 then LL else LR
    else if Balance(t) > 1 then
      if Balance(t.right) >= 0 then RR else RL
    else NoRotation
  }

  function Rebalance(t: Tree): Tree
    requires t.Node?
  {
    match Choice(t)
    case NoRotation => t
    case LL => RotateRight(t)
    case LR => RotateRight(t.(left := RotateLeft(t.left)))
    case RR => RotateLeft(t)
    case RL => RotateLeft(t.(right := RotateRight(t.right)))
  }

  function Insert(t: Tree, price: u32, idx: Index): Tree {
    if t.Leaf? then Node(Leaf, price, idx, Leaf)
    else if price < t.price then Rebalance(t.(left := Insert(t.left, price, idx)))
    else Rebalance(t.(right := Insert(t.right, price, idx)))
  }

  /** The counters after an insertion. */
  function InsertCounts(t: Tree, price: u32, idx: Index, c: Counts): Counts {
    if t.Leaf? then c
    else if price < t.price then
      InsertCounts(t.left, price, idx, c).Plus(Choice(t.(left := Insert(t.left, price, idx))))
    else
      InsertCounts(t.right, price, idx, c).Plus(Choice(t.(right := Insert(t.right, price, idx))))
  }

  function Leftmost(t: Tree): (m: Tree)
    requires t.Node?
    ensures m.Node?
  {
    if t.left.Leaf? then t else Leftmost(t.left)
  }

  function Rightmost(t: Tree): (m: Tree)
    requires t.Node?
    ensures m.Node?
  {
    if t.right.Leaf? then t else Rightmost(t.right)
  }

  function Remove(t: Tree, price: u32): Tree {
    if t.Leaf? then Leaf
    else if price < t.price then Rebalance(t.(left := Remove(t.left, price)))
    else if price > t.price then Rebalance(t.(right := Remove(t.right, price)))
    else if t.left.Leaf? then t.right
    else if t.right.Leaf? then t.left
    else
      var succ := Leftmost(t.right);
      Rebalance(Node(t.left, succ.price, succ.idx, Remove(t.right, succ.price)))
  }

  /** The counters after a removal. */
  function RemoveCounts(t: Tree, price: u32, c: Counts): Counts {
    if t.Leaf? then c
    else if price < t.price then
      RemoveCounts(t.left, price, c).Plus(Choice(t.(left := Remove(t.left, price))))
    else if price > t.price then
      RemoveCounts(t.right, price, c).Plus(Choice(t.(right := Remove(t.right, price))))
    else if t.left.Leaf? || t.right.Leaf? then c
    else
      var succ := Leftmost(t.right);
      RemoveCounts(t.right, succ.price, c)
        .Plus(Choice(Node(t.left, succ.price, succ.idx, Remove(t.right, succ.price))))
  }

  // ---- Rotations -------------------------------------------------------------

  lemma RotateRightKeeps(t: Tree)
    requires t.Node? && t.left.Node? && Ordered(t)
    ensures Ordered(RotateRight(t)) && Entries(RotateRight(t)) == Entries(t)
  {
    assert Entry(t.left.price, t.left.idx) in Entries(t.left);
  }

  lemma RotateLeftKeeps(t: Tree)
    requires t.Node? && t.right.Node? && Ordered(t)
    ensures Ordered(RotateLeft(t)) && Entries(RotateLeft(t)) == Entries(t)
  {
    assert Entry(t.right.price, t.right.idx) in Entries(t.right);
  }

  /** Rebalancing changes the shape only: same entries, still ordered. */
  lemma RebalanceKeeps(t: Tree)
    requires t.Node? && Ordered(t)
    ensures Ordered(Rebalance(t)) && Entries(Rebalance(t)) == Entries(t)
  {
    match Choice(t)
    case NoRotation =>
    case LL => RotateRightKeeps(t);
    case LR =>
      RotateLeftKeeps(t.left);
      RotateRightKeeps(t.(left := RotateLeft(t.left)));
    case RR => RotateLeftKeeps(t);
    case RL =>
      RotateRightKeeps(t.right);
      RotateLeftKeeps(t.(right := RotateRight(t.right)));
  }

  lemma RebalanceIds(t: Tree)
    requires t.Node?
    ensures Ids(Rebalance(t)) == Ids(t)
  {
    match Choice(t)
    case NoRotation =>
    case LL => RotationIds(t);
    case RR => RotationIds(t);
    case LR =>
      RotationIds(t.left);
      RotationIds(t.(left := RotateLeft(t.left)));
    case RL =>
      RotationIds(t.right);
      RotationIds(t.(right := RotateRight(t.right)));
  }

  lemma RotationIds(t: Tree)
    requires t.Node?
    ensures t.left.Node? ==> Ids(RotateRight(t)) == Ids(t)
    ensures t.right.Node? ==> Ids(RotateLeft(t)) == Ids(t)
  {
  }

  lemma RotateRightDistinct(t: Tree)
    requires t.Node? && t.left.Node? && Distinct(t)
    ensures Distinct(RotateRight(t))
  {
    assert forall i :: i in Ids(t.left.right) ==> i in Ids(t.left);
    assert Distinct(RotateRight(t).right);
  }

  lemma RotateLeftDistinct(t: Tree)
    requires t.Node? && t.right.Node? && Distinct(t)
    ensures Distinct(RotateLeft(t))
  {
    assert forall i :: i in Ids(t.right.left) ==> i in Ids(t.right);
    assert Distinct(RotateLeft(t).left);
  }

  lemma RebalanceDistinct(t: Tree)
    requires t.Node? && Distinct(t)
    ensures Distinct(Rebalance(t))
  {
    match Choice(t)
    case NoRotation =>
    case LL => RotateRightDistinct(t);
    case RR => RotateLeftDistinct(t);
    case LR =>
      RotateLeftDistinct(t.left);
      RotationIds(t.left);
      RotateRightDistinct(t.(left := RotateLeft(t.left)));
    case RL =>
      RotateRightDistinct(t.right);
      RotationIds(t.right);
      RotateLeftDistinct(t.(right := RotateRight(t.right)));
  }

  lemma RepairLL(t: Tree)
    requires t.Node? && Balanced(t.left) && Balanced(t.right) && Balance(t) == -2 && Balance(t.left) <= 0
    ensures Balanced(RotateRight(t))
    ensures Height(RotateRight(t)) == if Balance(t.left) == 0 then Height(t) else Height(t) - 1
  {
    assert Balanced(RotateRight(t).right);
  }

  lemma RepairRR(t: Tree)
    requires t.Node? && Balanced(t.left) && Balanced(t.right) && Balance(t) == 2 && Balance(t.right) >= 0
    ensures Balanced(RotateLeft(t))
    ensures Height(RotateLeft(t)) == if Balance(t.right) == 0 then Height(t) else Height(t) - 1
  {
    assert Balanced(RotateLeft(t).left);
  }

  lemma RepairLR(t: Tree)
    requires t.Node? && Balanced(t.left) && Balanced(t.right) && Balance(t) == -2 && Balance(t.left) == 1
    ensures var u := RotateRight(t.(left := RotateLeft(t.left)));
            Balanced(u) && Height(u) == Height(t) - 1
  {
    var u := RotateRight(t.(left := RotateLeft(t.left)));
    assert Balanced(t.left.right);
    assert Balanced(u.left) && Height(u.left) == Height(t) - 2;
    assert Balanced(u.right) && Height(u.right) == Height(t) - 2;
  }

  lemma RepairRL(t: Tree)
    requires t.Node? && Balanced(t.left) && Balanced(t.right) && Balance(t) == 2 && Balance(t.right) == -1
    ensures var u := RotateLeft(t.(right := RotateRight(t.right)));
            Balanced(u) && Height(u) == Height(t) - 1
  {
    var u := RotateLeft(t.(right := RotateRight(t.right)));
    assert Balanced(t.right.left);
    assert Balanced(u.left) && Height(u.left) == Height(t) - 2;
    assert Balanced(u.right) && Height(u.right) == Height(t) - 2;
  }

  /** A node off by at most two is repaired; a rotation lowers it by one unless its heavy child was even. */
  lemma RebalanceRepairs(t: Tree)
    requires t.Node? && Balanced(t.left) && Balanced(t.right) && -2 <= Balance(t) <= 2
    ensures Balanced(Rebalance(t))
    ensures Choice(t) == NoRotation <==> -1 <= Balance(t) <= 1
    ensures Choice(t) == NoRotation ==> Rebalance(t) == t
    ensures Height(t) - 1 <= Height(Rebalance(t)) <= Height(t)
    ensures Balance(t) == -2 && Balance(t.left) != 0 ==> Height(Rebalance(t)) == Height(t) - 1
    ensures Balance(t) == 2 && Balance(t.right) != 0 ==> Height(Rebalance(t)) == Height(t) - 1
  {
    match Choice(t)
    case NoRotation =>
    case LL => RepairLL(t);
    case RR => RepairRR(t);
    case LR => RepairLR(t);
    case RL => RepairRL(t);
  }

  // ---- Insertion -------------------------------------------------------------

  ghost predicate HasPrice(t: Tree, price: u32) {
    exists e :: e in Entries(t) && e.price == price
  }

  /** Rebalancing over a changed left subtree. */
  lemma ReplaceLeft(t: Tree, l: Tree, gain: set<Entry>, loss: set<Entry>)
    requires t.Node? && Ordered(t) && Ordered(l)
    requires Entries(l) == Entries(t.left) + gain - loss
    requires forall e :: e in gain ==> e.price < t.price
    requires forall e :: e in loss ==> e.price < t.price
    ensures var u := Rebalance(t.(left := l));
            Ordered(u) && Entries(u) == Entries(t) + gain - loss
  {
    assert Ordered(t.(left := l));
    RebalanceKeeps(t.(left := l));
  }

  /** Rebalancing over a changed right subtree. */
  lemma ReplaceRight(t: Tree, r: Tree, gain: set<Entry>, loss: set<Entry>)
    requires t.Node? && Ordered(t) && Ordered(r)
    requires Entries(r) == Entries(t.right) + gain - loss
    requires forall e :: e in gain ==> t.price < e.price
    requires forall e :: e in loss ==> t.price < e.price
    ensures var u := Rebalance(t.(right := r));
            Ordered(u) && Entries(u) == Entries(t) + gain - loss
  {
    assert Ordered(t.(right := r));
    RebalanceKeeps(t.(right := r));
  }

  /** Insertion of a fresh price adds exactly that entry. */
  lemma {:induction false} InsertAdds(t: Tree, price: u32, idx: Index)
    requires Ordered(t) && !HasPrice(t, price)
    ensures Ordered(Insert(t, price, idx))
    ensures Entries(Insert(t, price, idx)) == Entries(t) + {Entry(price, idx)}
  {
    if t.Node? {
      assert Entry(t.price, t.idx) in Entries(t);
      assert t.price != price;
      if price < t.price {
        assert !HasPrice(t.left, price);
        InsertAdds(t.left, price, idx);
        ReplaceLeft(t, Insert(t.left, price, idx), {Entry(price, idx)}, {});
      } else {
        assert !HasPrice(t.right, price);
        InsertAdds(t.right, price, idx);
        ReplaceRight(t, Insert(t.right, price, idx), {Entry(price, idx)}, {});
      }
    }
  }

  /** Insertion occupies exactly the new slot. */
  lemma {:induction false} InsertOccupies(t: Tree, price: u32, idx: Index)
    ensures Ids(Insert(t, price, idx)) == Ids(t) + {idx}
    ensures Distinct(t) && idx !in Ids(t) ==> Distinct(Insert(t, price, idx))
  {
    if t.Node? {
      if price < t.price {
        InsertOccupies(t.left, price, idx);
        RebalanceIds(t.(left := Insert(t.left, price, idx)));
        if Distinct(t) && idx !in Ids(t) {
          RebalanceDistinct(t.(left := Insert(t.left, price, idx)));
        }
      } else {
        InsertOccupies(t.right, price, idx);
        RebalanceIds(t.(right := Insert(t.right, price, idx)));
        if Distinct(t) && idx !in Ids(t) {
          RebalanceDistinct(t.(right := Insert(t.right, price, idx)));
        }
      }
    }
  }

  /** Insertion keeps the balance and rotates at most once, because a rotation undoes the growth. */
  lemma {:induction false} InsertBalances(t: Tree, price: u32, idx: Index, c: Counts)
    requires Balanced(t)
    ensures var u := Insert(t, price, idx);
            && Balanced(u)
            && Height(t) <= Height(u) <= Height(t) + 1
            && (Height(u) == Height(t) + 1 && t.Node? ==> u.Node? && Balance(u) != 0)
    ensures var d := InsertCounts(t, price, idx, c);
            && (d == c || (d.Total() == c.Total() + 1 && Height(Insert(t, price, idx)) == Height(t)))
  {
    hide Rebalance;
    if t.Node? {
      if price < t.price {
        InsertBalances(t.left, price, idx, c);
        RebalanceRepairs(t.(left := Insert(t.left, price, idx)));
      } else {
        InsertBalances(t.right, price, idx, c);
        RebalanceRepairs(t.(right := Insert(t.right, price, idx)));
      }
    }
  }

  // ---- Removal ---------------------------------------------------------------

  lemma {:induction false} LeftmostIsLeast(t: Tree)
    requires t.Node? && Ordered(t)
    ensures var m := Leftmost(t);
            && Entry(m.price, m.idx) in Entries(t)
            && forall e :: e in Entries(t) && e.price <= m.price ==> e == Entry(m.price, m.idx)
  {
    if t.left.Node? {
      LeftmostIsLeast(t.left);
    }
  }

  lemma {:induction false} RightmostIsGreatest(t: Tree)
    requires t.Node? && Ordered(t)
    ensures var m := Rightmost(t);
            && Entry(m.price, m.idx) in Entries(t)
            && forall e :: e in Entries(t) && m.price <= e.price ==> e == Entry(m.price, m.idx)
  {
    if t.right.Node? {
      RightmostIsGreatest(t.right);
    }
  }

  /** Prices identify entries. */
  lemma {:induction false} PriceIsKey(t: Tree, d: Entry, e: Entry)
    requires Ordered(t) && d in Entries(t) && e in Entries(t) && d.price == e.price
    ensures d == e
  {
    if d in Entries(t.left) && e in Entries(t.left) {
      PriceIsKey(t.left, d, e);
    } else if d in Entries(t.right) && e in Entries(t.right) {
      PriceIsKey(t.right, d, e);
    }
  }

  /** Removal takes out exactly the entry at that price. */
  lemma {:induction false} RemoveDrops(t: Tree, e: Entry)
    requires Ordered(t) && e in Entries(t)
    ensures Ordered(Remove(t, e.price))
    ensures Entries(Remove(t, e.price)) == Entries(t) - {e}
  {
    hide Rebalance;
    if e.price < t.price {
      RemoveDrops(t.left, e);
      var l := Remove(t.left, e.price);
      ReplaceLeft(t, l, {}, {e});
    } else if e.price > t.price {
      RemoveDrops(t.right, e);
      var r := Remove(t.right, e.price);
      ReplaceRight(t, r, {}, {e});
    } else if t.left.Node? && t.right.Node? {
      LeftmostIsLeast(t.right);
      var m := Entry(Leftmost(t.right).price, Leftmost(t.right).idx);
      RemoveDrops(t.right, m);
      SucceedRoot(t, m, Remove(t.right, m.price));
    }
  }

  /** Putting the successor m in place of the root of t. */
  lemma SucceedRoot(t: Tree, m: Entry, r: Tree)
    requires t.Node? && Ordered(t) && Ordered(r)
    requires m in Entries(t.right) && Entries(r) == Entries(t.right) - {m}
    requires forall e :: e in Entries(t.right) && e.price <= m.price ==> e == m
    ensures var u := Node(t.left, m.price, m.idx, r);
            Ordered(Rebalance(u)) && Entries(Rebalance(u)) == Entries(t) - {Entry(t.price, t.idx)}
  {
    RebalanceKeeps(Node(t.left, m.price, m.idx, r));
  }

  /** Rebalancing over a left subtree that has released slot i. */
  lemma LeftReleases(t: Tree, l: Tree, i: Index)
    requires t.Node? && Distinct(t) && Distinct(l) && i in Ids(t.left) && Ids(l) == Ids(t.left) - {i}
    ensures var u := Rebalance(t.(left := l)); Distinct(u) && Ids(u) == Ids(t) - {i}
  {
    RebalanceIds(t.(left := l));
    RebalanceDistinct(t.(left := l));
  }

  lemma RightReleases(t: Tree, r: Tree, i: Index)
    requires t.Node? && Distinct(t) && Distinct(r) && i in Ids(t.right) && Ids(r) == Ids(t.right) - {i}
    ensures var u := Rebalance(t.(right := r)); Distinct(u) && Ids(u) == Ids(t) - {i}
  {
    RebalanceIds(t.(right := r));
    RebalanceDistinct(t.(right := r));
  }

  /** Rebalancing over the right subtree without slot i, which takes the root's place. */
  lemma RootReleases(t: Tree, price: u32, i: Index, r: Tree)
    requires t.Node? && Distinct(t) && Distinct(r) && i in Ids(t.right) && Ids(r) == Ids(t.right) - {i}
    ensures var u := Rebalance(Node(t.left, price, i, r)); Distinct(u) && Ids(u) == Ids(t) - {t.idx}
  {
    RebalanceIds(Node(t.left, price, i, r));
    RebalanceDistinct(Node(t.left, price, i, r));
  }

  /** Removal releases exactly the slot of the entry, when no slot is used twice. */
  lemma {:induction false} RemoveReleases(t: Tree, e: Entry)
    requires Ordered(t) && Distinct(t) && e in Entries(t)
    ensures Ids(Remove(t, e.price)) == Ids(t) - {e.idx}
    ensures Distinct(Remove(t, e.price))
  {
    hide Rebalance, Leftmost;
    EntrySlots(t.left);
    EntrySlots(t.right);
    if e.price < t.price {
      RemoveReleases(t.left, e);
      LeftReleases(t, Remove(t.left, e.price), e.idx);
    } else if e.price > t.price {
      RemoveReleases(t.right, e);
      RightReleases(t, Remove(t.right, e.price), e.idx);
    } else if t.left.Node? && t.right.Node? {
      LeftmostIsLeast(t.right);
      var m := Entry(Leftmost(t.right).price, Leftmost(t.right).idx);
      RemoveReleases(t.right, m);
      RootReleases(t, m.price, m.idx, Remove(t.right, m.price));
    }
  }

  /** u stands where t stood, one of its subtrees lower by at most one: rebalancing absorbs that. */
  lemma ShrinkBalances(t: Tree, u: Tree)
    requires t.Node? && Balanced(t) && u.Node? && Balanced(u.left) && Balanced(u.right)
    requires Height(t.left) - 1 <= Height(u.left) <= Height(t.left)
    requires Height(t.right) - 1 <= Height(u.right) <= Height(t.right)
    requires Height(u.left) == Height(t.left) || Height(u.right) == Height(t.right)
    ensures Balanced(Rebalance(u)) && Height(t) - 1 <= Height(Rebalance(u)) <= Height(t)
  {
    hide Rebalance;
    RebalanceRepairs(u);
  }

  /** Removal keeps the balance and lowers the tree by at most one. */
  lemma {:induction false} RemoveBalances(t: Tree, price: u32)
    requires Balanced(t)
    ensures Balanced(Remove(t, price))
    ensures Height(t) - 1 <= Height(Remove(t, price)) <= Height(t)
  {
    hide Rebalance, Leftmost;
    if t.Node? {
      if price < t.price {
        RemoveBalances(t.left, price);
        ShrinkBalances(t, t.(left := Remove(t.left, price)));
      } else if price > t.price {
        RemoveBalances(t.right, price);
        ShrinkBalances(t, t.(right := Remove(t.right, price)));
      } else if t.left.Node? && t.right.Node? {
        var succ := Leftmost(t.right);
        RemoveBalances(t.right, succ.price);
        ShrinkBalances(t, Node(t.left, succ.price, succ.idx, Remove(t.right, succ.price)));
      }
    }
  }

  // ---- Height bound ----------------------------------------------------------

  function Fib(n: nat): nat {
    if n < 2 then n else Fib(n - 1) + Fib(n - 2)
  }

  lemma {:induction false} FibMonotone(m: nat, n: nat)
    requires m <= n
    ensures Fib(m) <= Fib(n)
  {
    if m < n {
      FibMonotone(m, n - 1);
    }
  }

  lemma FibStep(h: nat)
    ensures Fib(h + 2) == Fib(h + 1) + Fib(h) && Fib(0) == 0 && Fib(1) == Fib(2) == 1
  {
  }

  /** A balanced tree of height h has at least Fib(h+2) - 1 levels, so height is logarithmic. */
  lemma {:induction false} HeightBound(t: Tree)
    requires Balanced(t)
    ensures Fib(Height(t) + 2) - 1 <= Size(t)
  {
    hide Fib;
    FibStep(Height(t));
    if t.Node? {
      HeightBound(t.left);
      HeightBound(t.right);
      FibMonotone(Height(t), Height(t.left) + 2);
      FibMonotone(Height(t), Height(t.right) + 2);
    }
  }

  /** The height bound counts stored entries: a tree has one node per entry. */
  lemma {:induction false} SizeIsEntries(t: Tree)
    requires Ordered(t)
    ensures Size(t) == |Entries(t)|
  {
    if t.Node? {
      SizeIsEntries(t.left);
      SizeIsEntries(t.right);
      assert Entries(t.left) !! Entries(t.right);
    }
  }
}
