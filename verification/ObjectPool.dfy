/** Fixed-capacity slot pool whose free slots form an intrusive index list. */
module ObjectPools {
  import opened Base

  /** A slot holds an object or, once freed, the index of the next free slot. */
  datatype Slot<T> = Live(obj: T) | Free(next: Index)

  ghost function LiveSet<T>(s: seq<Slot<T>>): set<Index> {
    set i | 0 <= i < |s| && s[i].Live?
  }

  /** The index a list link holds for position k of q. */
  ghost function LinkAt(q: seq<Index>, k: nat): Index {
    if k < |q| then q[k] else INVALID
  }

  /** free is the chain hanging off head: duplicate free and exactly the slots that are not live. */
  ghost predicate FreeChain<T>(s: seq<Slot<T>>, head: Index, free: seq<Index>) {
    && NoDup(free)
    && (forall k :: 0 <= k < |free| ==> free[k] < |s| && s[free[k]].Free?)
    && (forall i :: 0 <= i < |s| && s[i].Free? ==> i in free)
    && head == LinkAt(free, 0)
    && (forall k :: 0 <= k < |free| ==> s[free[k]].next == LinkAt(free, k + 1))
  }

  /** {0, .., n-1}. */
  ghost function Range(n: nat): (r: set<nat>)
    ensures forall i :: i in r <==> 0 <= i < n
    ensures |r| == n
  {
    if n == 0 then {} else Range(n - 1) + {n - 1}
  }

  /** The slots on a free chain. */
  ghost function FreeSet(free: seq<Index>): set<Index> {
    set i | i in free
  }

  /** Free and live slots partition the pool. */
  lemma FreeChainSplits<T>(s: seq<Slot<T>>, head: Index, free: seq<Index>)
    requires FreeChain(s, head, free)
    ensures Range(|s|) == LiveSet(s) + FreeSet(free) && LiveSet(s) !! FreeSet(free)
  {
  }

  lemma FreeChainCounts<T>(s: seq<Slot<T>>, head: Index, free: seq<Index>)
    requires FreeChain(s, head, free)
    ensures |LiveSet(s)| + |free| == |s|
  {
    SeqCard(free);
    FreeChainSplits(s, head, free);
  }

  lemma LiveSetCard<T>(s: seq<Slot<T>>)
    ensures |LiveSet(s)| <= |s|
  {
    SubsetCard(LiveSet(s), Range(|s|));
  }

  class ObjectPool<T(!new)> {
    const slots: array<Slot<T>>
    var freeHead: Index
    var activeCount: nat
    ghost var free: seq<Index>

    ghost function Repr(): set<object> {
      {this, slots}
    }

    ghost predicate Valid()
      reads this, slots
    {
      && 1 <= slots.Length <= INVALID
      && FreeChain(slots[..], freeHead, free)
      && activeCount == |LiveSet(slots[..])|
    }

    constructor (capacity: nat)
      requires 1 <= capacity <= INVALID
      ensures Valid() && fresh(Repr()) && allocated(Repr())
      ensures slots.Length == capacity && LiveSet(slots[..]) == {}
    {
      slots := new Slot<T>[capacity](_ => Free(INVALID));
      freeHead, activeCount, free := 0, 0, [];
      new;
      Reset();
    }

    /** Frees every slot: the list runs through the slots in index order. */
    method Reset()
      requires 1 <= slots.Length <= INVALID
      modifies this, slots
      ensures Valid() && LiveSet(slots[..]) == {}
      ensures free == seq(slots.Length, i => i)
    {
      var i := 0;
      while i < slots.Length - 1
        invariant 0 <= i <= slots.Length - 1
        invariant forall k :: 0 <= k < i ==> slots[k] == Free(k + 1)
      {
        slots[i] := Free(i + 1);
        i := i + 1;
      }
      slots[slots.Length - 1] := Free(INVALID);
      freeHead := 0;
      activeCount := 0;
      free := seq(slots.Length, j => j);
      forall k: Index | k < slots.Length ensures k in free { assert free[k] == k; }
      assert LiveSet(slots[..]) == {};
    }

    /** Hands out the head of the free list, or INVALID exactly when every slot is live. */
    method Allocate(v: T) returns (idx: Index)
      requires Valid()
      modifies this, slots
      ensures Valid()
      ensures idx == old(freeHead) && (idx == INVALID <==> |LiveSet(old(slots[..]))| == slots.Length)
      ensures idx == INVALID ==> slots[..] == old(slots[..]) && activeCount == old(activeCount)
      ensures idx != INVALID ==>
                && idx < slots.Length
                && idx !in LiveSet(old(slots[..]))
                && slots[..] == old(slots[..])[idx := Live(v)]
                && LiveSet(slots[..]) == LiveSet(old(slots[..])) + {idx}
                && activeCount == old(activeCount) + 1 && old(free) == [idx] + free
    {
      FreeChainCounts(slots[..], freeHead, free);
      if freeHead == INVALID {
        return INVALID;
      }
      idx := freeHead;
      freeHead := slots[idx].next;
      activeCount := activeCount + 1;
      ghost var was := slots[..];
      slots[idx] := Live(v);
      free := free[1..];
      assert slots[..] == was[idx := Live(v)];
      assert LiveSet(slots[..]) == LiveSet(was) + {idx};
    }

    /** Returns a live slot to the front of the free list. */
    method Deallocate(idx: Index)
      requires Valid()
      requires idx in LiveSet(slots[..])
      modifies this, slots
      ensures Valid()
      ensures slots[..] == old(slots[..])[idx := Free(old(freeHead))]
      ensures LiveSet(slots[..]) == LiveSet(old(slots[..])) - {idx}
      ensures activeCount == old(activeCount) - 1 && freeHead == idx && free == [idx] + old(free)
    {
      ghost var was := slots[..];
      slots[idx] := Free(freeHead);
      freeHead := idx;
      activeCount := activeCount - 1;
      assert idx !in free;
      free := [idx] + free;
      assert slots[..] == was[idx := Free(old(freeHead))];
      assert LiveSet(slots[..]) == LiveSet(was) - {idx};
      assert forall k :: 1 <= k < |free| ==> free[k] == old(free)[k - 1];
    }

    /** Writes through the pointer At(idx) gives. */
    method Put(idx: Index, v: T)
      requires Valid()
      requires idx in LiveSet(slots[..])
      modifies slots
      ensures Valid()
      ensures slots[..] == old(slots[..])[idx := Live(v)]
      ensures LiveSet(slots[..]) == LiveSet(old(slots[..]))
    {
      ghost var was := slots[..];
      slots[idx] := Live(v);
      assert slots[..] == was[idx := Live(v)];
      assert LiveSet(slots[..]) == LiveSet(was);
    }
  }

  /** Writing live slots without freeing any leaves the free chain alone. */
  lemma FreeChainKept<T>(s: seq<Slot<T>>, s': seq<Slot<T>>, head: Index, free: seq<Index>)
    requires FreeChain(s, head, free)
    requires |s'| == |s|
    requires forall i :: 0 <= i < |s| && s[i].Free? ==> s'[i] == s[i]
    requires forall i :: 0 <= i < |s| && s[i].Live? ==> s'[i].Live?
    ensures FreeChain(s', head, free) && LiveSet(s') == LiveSet(s)
  {
  }
}
