/** Open-addressed map from order ids to pool slots: linear probing, re-insertion on erase. */
module FlatHashMaps {
  import opened Base
  import opened Powers

  /** Key 0 marks an unused slot. */
  const EMPTY: u64 := 0

  // ---- Cyclic positions ------------------------------------------------------

  /** Steps a probe takes from a to b in a table of n slots. */
  function Dist(n: nat, a: nat, b: nat): nat
    requires a < n && b < n
  {
    if a <= b then b - a else b + n - a
  }

  function Next(n: nat, i: nat): (r: nat)
    requires i < n
    ensures r < n
  {
    if i + 1 == n then 0 else i + 1
  }

  /** Stepping by one is addition under the capacity mask. */
  lemma NextIsMasked(n: nat, i: nat)
    requires i < n
    ensures Next(n, i) == (i + 1) % n
  {
  }

  lemma NextDist(n: nat, a: nat, i: nat)
    requires a < n && i < n
    ensures Dist(n, a, Next(n, i)) == if Dist(n, a, i) == n - 1 then 0 else Dist(n, a, i) + 1
  {
  }

  /** The masked hash: any function into the table, positions outside it count as 0. */
  type Hash = u64 -> nat

  function Home(hash: Hash, n: nat, key: u64): (r: nat)
    requires n > 0
    ensures r < n
  {
    if hash(key) < n then hash(key) else 0
  }

  // ---- Table invariants ------------------------------------------------------

  /** The table stores the map m: each key once, with its value. */
  ghost predicate Stores(keys: seq<u64>, values: seq<Index>, m: map<u64, Index>) {
    && |keys| == |values|
    && (forall i, j :: 0 <= i < j < |keys| && keys[i] != EMPTY ==> keys[i] != keys[j])
    && (forall i :: 0 <= i < |keys| && keys[i] != EMPTY ==> keys[i] in m && m[keys[i]] == values[i])
    && (forall k :: k in m ==> k != EMPTY && k in keys)
  }

  /**
    Every entry is reachable by probing from its home slot. While an erase at slot e repairs the cluster and has
    treated the first s offsets, an entry still ahead of the scan may have holes behind the scan on its path.
   */
  ghost predicate Chained(keys: seq<u64>, hash: Hash, e: nat, s: nat)
    requires e < |keys|
  {
    forall j, x :: 0 <= j < |keys| && 0 <= x < |keys| && keys[j] != EMPTY && keys[x] == EMPTY ==>
      var n := |keys|;
      Dist(n, Home(hash, n, keys[j]), x) < Dist(n, Home(hash, n, keys[j]), j) ==>
        Dist(n, e, x) < s <= Dist(n, e, j)
  }

  /** With no offset treated, no hole is excused, whatever the slot. */
  lemma Intact(keys: seq<u64>, hash: Hash, e: nat)
    requires e < |keys| && Chained(keys, hash, e, 0)
    ensures Chained(keys, hash, 0, 0)
  {
  }

  ghost predicate HasHole(keys: seq<u64>) {
    exists i :: 0 <= i < |keys| && keys[i] == EMPTY
  }

  lemma LoadLeavesHole(keys: seq<u64>, values: seq<Index>, m: map<u64, Index>)
    requires Stores(keys, values, m) && |m| < |keys|
    ensures HasHole(keys)
  {
    if !HasHole(keys) {
      assert NoDup(keys);
      SeqCard(keys);
      SubsetCard((set k | k in keys), m.Keys);
    }
  }

  /** idx is where probing for key stops: everything before it is occupied by other keys. */
  ghost predicate Stops(keys: seq<u64>, home: nat, key: u64, idx: nat)
    requires home < |keys|
  {
    && idx < |keys|
    && (keys[idx] == EMPTY || keys[idx] == key)
    && forall x :: 0 <= x < |keys| && Dist(|keys|, home, x) < Dist(|keys|, home, idx) ==>
         keys[x] != EMPTY && keys[x] != key
  }

  /** With unbroken chains, probing stops at the key exactly when the map has it. */
  lemma StopsAtKey(keys: seq<u64>, values: seq<Index>, m: map<u64, Index>, hash: Hash, key: u64, idx: nat)
    requires Stores(keys, values, m) && keys != [] && Chained(keys, hash, 0, 0) && key != EMPTY
    requires Stops(keys, Home(hash, |keys|, key), key, idx)
    ensures keys[idx] == key <==> key in m
  {
    if key in m {
      var i :| 0 <= i < |keys| && keys[i] == key;
      assert Dist(|keys|, Home(hash, |keys|, key), idx) == Dist(|keys|, Home(hash, |keys|, key), i) <==> idx == i;
    }
  }

  lemma StoresAt(keys: seq<u64>, values: seq<Index>, m: map<u64, Index>, idx: nat)
    requires Stores(keys, values, m) && idx < |keys| && keys[idx] != EMPTY
    ensures keys[idx] in m && m[keys[idx]] == values[idx]
  {
  }

  /** Writing a key where probing stopped keeps every chain. */
  lemma PlaceChained(keys: seq<u64>, hash: Hash, e: nat, s: nat, key: u64, idx: nat)
    requires e < |keys| && Chained(keys, hash, e, s) && key != EMPTY
    requires Stops(keys, Home(hash, |keys|, key), key, idx)
    ensures Chained(keys[idx := key], hash, e, s)
  {
  }

  lemma PlaceStores(keys: seq<u64>, values: seq<Index>, m: map<u64, Index>, key: u64, value: Index, idx: nat)
    requires Stores(keys, values, m) && key != EMPTY && idx < |keys|
    requires if key in m then keys[idx] == key else keys[idx] == EMPTY
    ensures Stores(keys[idx := key], values[idx := value], m[key := value])
  {
    var k', v' := keys[idx := key], values[idx := value];
    forall k | k in m[key := value] ensures k in k' {
      if k == key {
        assert k'[idx] == key;
      } else {
        var i :| 0 <= i < |keys| && keys[i] == k;
        assert k'[i] == k;
      }
    }
  }

  lemma ClearStores(keys: seq<u64>, values: seq<Index>, m: map<u64, Index>, idx: nat)
    requires Stores(keys, values, m) && idx < |keys| && keys[idx] != EMPTY
    ensures Stores(keys[idx := EMPTY], values[idx := INVALID], m - {keys[idx]})
  {
    var k', m' := keys[idx := EMPTY], m - {keys[idx]};
    forall k | k in m' ensures k in k' {
      var i :| 0 <= i < |keys| && keys[i] == k;
      assert k'[i] == k;
    }
  }

  // ---- Repair after an erase -------------------------------------------------

  /** Taking out the entry under the scan opens a hole only for entries still ahead, while a hole z is ahead too. */
  lemma LiftChained(keys: seq<u64>, hash: Hash, e: nat, s: nat, idx: nat, z: nat)
    requires e < |keys| && idx < |keys| && z < |keys| && Chained(keys, hash, e, s)
    requires Dist(|keys|, e, idx) == s < Dist(|keys|, e, z) && keys[z] == EMPTY
    ensures Chained(keys[idx := EMPTY], hash, e, s + 1)
  {
  }

  /** The lifted key comes to rest no later than the scan, so the hole z ahead stays a hole. */
  lemma NeverAhead(keys: seq<u64>, values: seq<Index>, m: map<u64, Index>, hash: Hash, e: nat, s: nat, idx: nat, y: nat)
    requires Stores(keys, values, m)
    requires e < |keys| && idx < |keys| && Chained(keys, hash, e, s)
    requires Dist(|keys|, e, idx) == s && keys[idx] != EMPTY
    requires Stops(keys[idx := EMPTY], Home(hash, |keys|, keys[idx]), keys[idx], y)
    ensures Dist(|keys|, e, y) <= s
  {
    var n, h := |keys|, Home(hash, |keys|, keys[idx]);
    assert keys[idx := EMPTY][y] == EMPTY;
    if y != idx {
      assert keys[y] == EMPTY;
      assert Dist(n, h, y) != Dist(n, h, idx);
    }
  }

  /** When the scan meets a hole, all chains are whole again. */
  lemma RepairDone(keys: seq<u64>, hash: Hash, e: nat, s: nat, idx: nat)
    requires e < |keys| && idx < |keys| && Chained(keys, hash, e, s)
    requires Dist(|keys|, e, idx) == s && keys[idx] == EMPTY
    ensures Chained(keys, hash, 0, 0)
  {
    var n := |keys|;
    forall j | 0 <= j < n && keys[j] != EMPTY
      ensures forall x :: 0 <= x < n && keys[x] == EMPTY ==>
                Dist(n, Home(hash, n, keys[j]), x) >= Dist(n, Home(hash, n, keys[j]), j)
    {
      BeyondScan(n, e, s, idx, Home(hash, n, keys[j]), j);
    }
  }

  /** An entry beyond the scan whose path starts behind the scan runs over the scan. */
  lemma BeyondScan(n: nat, e: nat, s: nat, idx: nat, h: nat, j: nat)
    requires e < n && idx < n && h < n && j < n && Dist(n, e, idx) == s && j != idx
    ensures forall x :: 0 <= x < n && Dist(n, h, x) < Dist(n, h, j) && Dist(n, e, x) < s <= Dist(n, e, j) ==>
              Dist(n, h, idx) < Dist(n, h, j)
  {
  }

  /** Emptying one slot of an intact table leaves only itself as a hole for the entries beyond. */
  lemma EraseOpens(keys: seq<u64>, hash: Hash, e: nat)
    requires e < |keys| && Chained(keys, hash, 0, 0)
    ensures Chained(keys[e := EMPTY], hash, e, 1)
  {
  }

  lemma PutBack(m: map<u64, Index>, key: u64)
    requires key in m
    ensures (m - {key})[key := m[key]] == m
  {
  }

  // ---- The map ---------------------------------------------------------------

  /** Smallest power of two not below n. */
  function NextPowerOfTwo(n: nat): (r: nat)
    ensures r >= n && r >= 1
    ensures if n <= 1 then r == 1 else r < 2 * n
    ensures IsPowerOfTwo(r)
  {
    if n <= 1 then assert Power(2, 0) == 1; 1
    else DoubleIsPower(NextPowerOfTwo((n + 1) / 2)); 2 * NextPowerOfTwo((n + 1) / 2)
  }

  class FlatHashMap {
    const capacity: nat
    const hash: Hash
    const keys: array<u64>
    const values: array<Index>
    var size: nat
    ghost var contents: map<u64, Index>

    ghost function Repr(): set<object> {
      {this, keys, values}
    }

    /** Everything but the probe chains. */
    ghost predicate Filled()
      reads this, keys, values
    {
      && keys.Length == values.Length == capacity >= 1 && keys != values as object
      && Stores(keys[..], values[..], contents)
      && size == |contents| && 4 * size < 3 * capacity
    }

    ghost predicate Valid()
      reads this, keys, values
    {
      Filled() && Chained(keys[..], hash, 0, 0)
    }

    lemma LoadBelowLimit()
      requires Valid()
      ensures 4 * |contents| < 3 * capacity
    {
    }

    constructor (n: nat, hash: Hash)
      ensures Valid() && contents == map[] && fresh(Repr()) && allocated(Repr())
      ensures capacity == NextPowerOfTwo(n)
      ensures forall k :: Home(this.hash, capacity, k) == hash(k) % capacity
    {
      capacity := NextPowerOfTwo(n);
      this.hash := k => hash(k) % NextPowerOfTwo(n);
      keys := new u64[NextPowerOfTwo(n)](_ => EMPTY);
      values := new Index[NextPowerOfTwo(n)](_ => INVALID);
      size, contents := 0, map[];
    }

    /** Linear probing: stops at the key or at the first unused slot. */
    method Probe(key: u64) returns (idx: nat)
      requires keys.Length == capacity >= 1 && HasHole(keys[..])
      ensures Stops(keys[..], Home(hash, capacity, key), key, idx)
    {
      idx := Home(hash, capacity, key);
      ghost var home := idx;
      ghost var hole :| 0 <= hole < capacity && keys[hole] == EMPTY;
      while keys[idx] != EMPTY && keys[idx] != key
        invariant idx < capacity
        invariant Dist(capacity, home, idx) <= Dist(capacity, home, hole)
        invariant forall x :: 0 <= x < capacity && Dist(capacity, home, x) < Dist(capacity, home, idx) ==>
                    keys[x] != EMPTY && keys[x] != key
        decreases Dist(capacity, home, hole) - Dist(capacity, home, idx)
      {
        NextDist(capacity, home, idx);
        idx := Next(capacity, idx);
      }
    }

    /** Insert or update; refused exactly when one more entry would reach three quarters of the capacity. */
    method Insert(key: u64, value: Index) returns (ok: bool)
      requires Valid() && key != EMPTY
      modifies this, keys, values
      ensures Valid()
      ensures ok <==> 4 * (|old(contents)| + 1) < 3 * capacity
      ensures contents == if ok then old(contents)[key := value] else old(contents)
    {
      ghost var y;
      ok, y := Place(key, value, 0, 0);
    }

    /** The insertion itself, also used while an erase at slot e is being repaired. */
    method Place(key: u64, value: Index, ghost e: nat, ghost s: nat) returns (ok: bool, ghost y: nat)
      requires Filled() && key != EMPTY
      requires e < capacity && Chained(keys[..], hash, e, s)
      requires s == 0 || key !in contents
      modifies this, keys, values
      ensures Filled() && Chained(keys[..], hash, e, s)
      ensures ok <==> 4 * (|old(contents)| + 1) < 3 * capacity
      ensures !ok ==> contents == old(contents) && keys[..] == old(keys[..])
      ensures ok ==> contents == old(contents)[key := value]
      ensures ok ==> Stops(old(keys[..]), Home(hash, capacity, key), key, y)
      ensures ok ==> keys[..] == old(keys[..])[y := key]
    {
      hide Chained, Home, Dist, HasHole, Stores;
      if 4 * (size + 1) >= 3 * capacity {
        return false, 0;
      }
      ghost var k, v := keys[..], values[..];
      LoadLeavesHole(k, v, contents);
      var idx := Probe(key);
      if s == 0 {
        Intact(k, hash, e);
        StopsAtKey(k, v, contents, hash, key, idx);
      }
      if keys[idx] != EMPTY {
        StoresAt(k, v, contents, idx);
      }
      PlaceChained(k, hash, e, s, key, idx);
      Occupy(idx, key, value);
      return true, idx;
    }

    /** Writes an entry where its key is or may go. */
    method Occupy(idx: nat, key: u64, value: Index)
      requires Filled() && key != EMPTY && idx < capacity && 4 * (size + 1) < 3 * capacity
      requires if key in contents then keys[idx] == key else keys[idx] == EMPTY
      modifies this, keys, values
      ensures Filled() && contents == old(contents)[key := value]
      ensures keys[..] == old(keys[..])[idx := key]
    {
      hide HasHole, Stores;
      ghost var k, v := keys[..], values[..];
      PlaceStores(k, v, contents, key, value, idx);
      if keys[idx] == EMPTY {
        size := size + 1;
      }
      keys[idx] := key;
      values[idx] := value;
      contents := contents[key := value];
      assert keys[..] == k[idx := key] && values[..] == v[idx := value];
    }

    /** Lookup; INVALID stands for an absent key. */
    method Find(key: u64) returns (value: Index)
      requires Valid() && key != EMPTY
      ensures value == if key in contents then contents[key] else INVALID
    {
      LoadLeavesHole(keys[..], values[..], contents);
      var idx := Probe(key);
      StopsAtKey(keys[..], values[..], contents, hash, key, idx);
      value := if keys[idx] == EMPTY then INVALID else values[idx];
    }

    /** Erase; reports whether the key was present. */
    method Erase(key: u64) returns (found: bool)
      requires Valid() && key != EMPTY
      modifies this, keys, values
      ensures Valid()
      ensures found <==> key in old(contents)
      ensures contents == old(contents) - {key}
    {
      ghost var k, v := keys[..], values[..];
      LoadLeavesHole(k, v, contents);
      var idx := Probe(key);
      StopsAtKey(k, v, contents, hash, key, idx);
      if keys[idx] == EMPTY {
        return false;
      }
      ghost var hole :| 0 <= hole < capacity && k[hole] == EMPTY;
      EraseOpens(k, hash, idx);
      Vacate(idx);
      RehashFrom(idx, hole);
      return true;
    }

    /** Empties an occupied slot. */
    method Vacate(idx: nat)
      requires Filled() && idx < capacity && keys[idx] != EMPTY
      modifies this, keys, values
      ensures Filled()
      ensures keys[..] == old(keys[..])[idx := EMPTY]
      ensures contents == old(contents) - {old(keys[idx])}
      ensures size == old(size) - 1
    {
      ghost var k, v := keys[..], values[..];
      ClearStores(k, v, contents, idx);
      assert keys[idx] in contents;
      contents := contents - {keys[idx]};
      keys[idx] := EMPTY;
      values[idx] := INVALID;
      size := size - 1;
      assert keys[..] == k[idx := EMPTY] && values[..] == v[idx := INVALID];
    }

    /** Takes out the entry under the scan and inserts it again; the inner insertion never fails. */
    method Reinsert(idx: nat, ghost e: nat, ghost s: nat, ghost hole: nat)
      requires Filled() && e < capacity && idx < capacity && hole < capacity
      requires keys[idx] != EMPTY && keys[hole] == EMPTY && Chained(keys[..], hash, e, s)
      requires Dist(capacity, e, idx) == s < Dist(capacity, e, hole)
      modifies this, keys, values
      ensures Filled() && contents == old(contents)
      ensures keys[hole] == EMPTY && Chained(keys[..], hash, e, s + 1)
    {
      hide Stores, Chained, Stops, Dist, Home;
      ghost var k, v, m := keys[..], values[..], contents;
      var displacedKey, displacedValue := Lift(idx, e, s, hole);
      ghost var y;
      var reinserted;
      reinserted, y := Place(displacedKey, displacedValue, e, s + 1);
      assert reinserted;
      PutBack(m, displacedKey);
      NeverAhead(k, v, m, hash, e, s, idx, y);
    }

    method Lift(idx: nat, ghost e: nat, ghost s: nat, ghost hole: nat) returns (key: u64, value: Index)
      requires Filled() && e < capacity && idx < capacity && hole < capacity
      requires keys[idx] != EMPTY && keys[hole] == EMPTY && Chained(keys[..], hash, e, s)
      requires Dist(capacity, e, idx) == s < Dist(capacity, e, hole)
      modifies this, keys, values
      ensures Filled() && Chained(keys[..], hash, e, s + 1)
      ensures keys[..] == old(keys[..])[idx := EMPTY] && key == old(keys[idx])
      ensures key in old(contents) && value == old(contents)[key] && contents == old(contents) - {key}
      ensures size == old(size) - 1
    {
      key, value := keys[idx], values[idx];
      StoresAt(keys[..], values[..], contents, idx);
      LiftChained(keys[..], hash, e, s, idx, hole);
      Vacate(idx);
    }

    /** Re-inserts the rest of the cluster behind an erased slot, so that no chain is left broken. */
    method RehashFrom(erased: nat, ghost hole: nat)
      requires Filled() && erased < capacity && hole < capacity && hole != erased
      requires keys[erased] == EMPTY && keys[hole] == EMPTY && Chained(keys[..], hash, erased, 1)
      modifies this, keys, values
      ensures Valid() && contents == old(contents)
    {
      hide Stores, Chained;
      NextDist(capacity, erased, erased);
      var idx: nat := Next(capacity, erased);
      ghost var s: nat := 1;
      while keys[idx] != EMPTY
        invariant Filled() && contents == old(contents)
        invariant idx < capacity && Dist(capacity, erased, idx) == s <= Dist(capacity, erased, hole)
        invariant keys[hole] == EMPTY && Chained(keys[..], hash, erased, s)
        decreases Dist(capacity, erased, hole) - s
      {
        Reinsert(idx, erased, s, hole);
        NextDist(capacity, erased, idx);
        idx := Next(capacity, idx);
        s := s + 1;
      }
      RepairDone(keys[..], hash, erased, s, idx);
    }

    /** Forgets every entry. */
    method Clear()
      requires keys.Length == values.Length == capacity >= 1 && keys != values as object
      modifies this, keys, values
      ensures Valid() && contents == map[]
    {
      forall i | 0 <= i < capacity {
        keys[i] := EMPTY;
      }
      forall i | 0 <= i < capacity {
        values[i] := INVALID;
      }
      size, contents := 0, map[];
    }
  }
}
