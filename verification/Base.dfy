/** Machine widths and sentinels shared by every component. */
module Base {
  const W32: int := 0x1_0000_0000
  const W64: int := 0x1_0000_0000_0000_0000

  type u32 = x: int | 0 <= x < 0x1_0000_0000
  type u64 = x: int | 0 <= x < 0x1_0000_0000_0000_0000

  /** A pool index; every real slot lies below the sentinel. */
  type Index = nat

  /** kInvalidPoolIndex, the all-ones 32-bit index. */
  const INVALID: Index := 0xFFFF_FFFF

  /** Buy is side 0 (bids), Sell is side 1 (asks). */
  datatype Side = Buy | Sell {
    function Opposite(): Side {
      if Buy? then Sell else Buy
    }
  }

  /** Truncation to 32 bits, as unsigned arithmetic does it. */
  function Wrap32(x: int): u32 {
    x % W32
  }

  function Succ64(x: u64): u64 {
    (x + 1) % W64
  }

  function Min(a: int, b: int): int {
    if a <= b then a else b
  }

  function Max(a: int, b: int): int {
    if a >= b then a else b
  }

  lemma WrapShift(x: int, k: int)
    ensures Wrap32(x - W32 * k) == Wrap32(x)
  {
  }

  lemma WrapAdd(a: int, b: int)
    ensures Wrap32(Wrap32(a) + b) == Wrap32(a + b)
    ensures Wrap32(Wrap32(a) - b) == Wrap32(a - b)
  {
    WrapShift(a + b, a / W32);
    WrapShift(a - b, a / W32);
  }

  /** A set included in another of the same size is that set. */
  lemma SubsetCard<T>(a: set<T>, b: set<T>)
    requires a <= b
    ensures |a| <= |b|
    ensures |a| == |b| ==> a == b
  {
    assert b == a + (b - a);
  }

  ghost predicate NoDup<T>(q: seq<T>) {
    forall i, j :: 0 <= i < j < |q| ==> q[i] != q[j]
  }

  lemma SeqCard<T>(q: seq<T>)
    requires NoDup(q)
    ensures |set x | x in q| == |q|
  {
    if q != [] {
      var r := q[..|q| - 1];
      SeqCard(r);
      assert (set x | x in q) == (set x | x in r) + {q[|q| - 1]};
    }
  }
}
