/** One price level of the book, as it sits in its pool slot. */
module PriceLevels {
  import opened Base
  import opened ObjectPools

  /** Tree metadata of a level. */
  datatype AvlNode = AvlNode(left: Index, right: Index, parent: Index, height: nat)

  datatype PriceLevel = PriceLevel(
    price: u32,
    totalQty: u32,
    orderCount: nat,
    headOrder: Index,
    tailOrder: Index,
    node: AvlNode,
    side: Side)

  type LevelSlots = seq<Slot<PriceLevel>>

  ghost predicate IsLevel(s: LevelSlots, i: Index) {
    i < |s| && s[i].Live?
  }

  ghost function WithNode(s: LevelSlots, i: Index, n: AvlNode): LevelSlots
    requires IsLevel(s, i)
  {
    s[i := Live(s[i].obj.(node := n))]
  }

  /** Only tree metadata of the given slots may differ: the levels themselves are untouched. */
  ghost predicate OnlyNodes(s: LevelSlots, s': LevelSlots, ids: set<Index>) {
    && |s'| == |s|
    && (forall i :: 0 <= i < |s| && i !in ids ==> s'[i] == s[i])
    && (forall i :: 0 <= i < |s| && i in ids && s[i].Live? ==>
          s'[i].Live? && s'[i].obj == s[i].obj.(node := s'[i].obj.node))
  }

  lemma OnlyNodesTrans(s: LevelSlots, s1: LevelSlots, s2: LevelSlots, a: set<Index>, b: set<Index>, c: set<Index>)
    requires OnlyNodes(s, s1, a) && OnlyNodes(s1, s2, b) && a <= c && b <= c
    ensures OnlyNodes(s, s2, c)
  {
  }

  /** Everything about a level except its tree metadata. */
  ghost predicate SameLevel(a: PriceLevel, b: PriceLevel) {
    a.(node := b.node) == b
  }

  /** The slots s' agree with s up to tree metadata, except that slot i may differ. */
  ghost predicate LevelsKept(s: LevelSlots, s': LevelSlots, i: Index) {
    && |s'| == |s|
    && forall j :: 0 <= j < |s| && j != i ==>
         (s[j].Live? <==> s'[j].Live?) && (s[j].Live? ==> SameLevel(s[j].obj, s'[j].obj))
  }

  /** Writing one slot and then operating on tree metadata. */
  lemma KeptThrough(s: LevelSlots, s1: LevelSlots, s2: LevelSlots, i: Index, ids: set<Index>)
    requires i < |s| == |s1| && s1 == s[i := s1[i]] && OnlyNodes(s1, s2, ids)
    requires forall j :: 0 <= j < |s1| && j in ids ==> s1[j].Live?
    ensures LevelsKept(s, s2, i)
  {
  }

  lemma SurgeryAt(s: LevelSlots, s1: LevelSlots, ids: set<Index>, i: Index)
    requires OnlyNodes(s, s1, ids) && IsLevel(s, i)
    ensures IsLevel(s1, i) && SameLevel(s[i].obj, s1[i].obj)
  {
  }

  /** Operating on tree metadata and then writing one slot. */
  lemma KeptBefore(s: LevelSlots, s1: LevelSlots, s2: LevelSlots, i: Index, ids: set<Index>)
    requires OnlyNodes(s, s1, ids) && i < |s1| == |s2| && s2 == s1[i := s2[i]]
    requires forall j :: 0 <= j < |s| && j in ids ==> s[j].Live?
    ensures LevelsKept(s, s2, i)
  {
  }

  /** A level without orders, not yet in any tree. */
  function NewLevel(price: u32, side: Side): PriceLevel {
    PriceLevel(price, 0, 0, INVALID, INVALID, AvlNode(INVALID, INVALID, INVALID, 1), side)
  }
}
