/** Dense table from price offsets to level slots. */
module FlatPriceArrays {
  import opened Base

  /** Position of a price in a window; a price below the anchor maps past every window. */
  function PriceToIndex(price: u32, anchor: u32, tick: nat): (k: nat)
    requires tick > 0
    ensures price < anchor ==> k == W64 - 1
    ensures price >= anchor ==> anchor + k * tick <= price < anchor + (k + 1) * tick
  {
    if price < anchor then W64 - 1 else TickOf(price - anchor, tick); (price - anchor) / tick
  }

  lemma TickOf(d: nat, tick: nat)
    requires tick > 0
    ensures d / tick >= 0 && d / tick * tick <= d < (d / tick + 1) * tick
  {
    assert d == tick * (d / tick) + d % tick;
  }

  /** best is the greatest occupied position, INVALID exactly when the table is empty. */
  ghost predicate IsTop(s: seq<Index>, best: Index) {
    && (best == INVALID || (best < |s| && s[best] != INVALID))
    && forall j :: 0 <= j < |s| && s[j] != INVALID ==> best != INVALID && j <= best
  }

  class FlatPriceArray {
    const levelIndices: array<Index>
    const anchorPrice: u32
    const tickSize: nat
    var bestIdx: Index

    ghost function Repr(): set<object> {
      {this, levelIndices}
    }

    ghost predicate Valid()
      reads this, levelIndices
    {
      tickSize > 0 && levelIndices.Length < INVALID && IsTop(levelIndices[..], bestIdx)
    }

    constructor (maxTicks: nat, anchor: u32, tick: nat)
      requires maxTicks < INVALID && tick > 0
      ensures Valid() && fresh(levelIndices)
      ensures levelIndices.Length == maxTicks && anchorPrice == anchor && tickSize == tick
      ensures forall i :: 0 <= i < maxTicks ==> levelIndices[i] == INVALID
    {
      levelIndices := new Index[maxTicks](_ => INVALID);
      anchorPrice, tickSize, bestIdx := anchor, tick, INVALID;
    }

    /** A price outside the window is reported as having no level here. */
    method Find(price: u32) returns (i: Index)
      requires Valid()
      ensures var k := PriceToIndex(price, anchorPrice, tickSize);
              i == if k < levelIndices.Length then levelIndices[k] else INVALID
    {
      var k := PriceToIndex(price, anchorPrice, tickSize);
      i := if k >= levelIndices.Length then INVALID else levelIndices[k];
    }

    method Insert(price: u32, level: Index)
      requires Valid() && level != INVALID
      requires PriceToIndex(price, anchorPrice, tickSize) < levelIndices.Length
      modifies this`bestIdx, levelIndices
      ensures Valid()
      ensures levelIndices[..] == old(levelIndices[..])[PriceToIndex(price, anchorPrice, tickSize) := level]
    {
      var k := PriceToIndex(price, anchorPrice, tickSize);
      levelIndices[k] := level;
      if bestIdx == INVALID || k > bestIdx {
        bestIdx := k;
      }
    }

    method Remove(price: u32)
      requires Valid()
      requires PriceToIndex(price, anchorPrice, tickSize) < levelIndices.Length
      modifies this`bestIdx, levelIndices
      ensures Valid()
      ensures levelIndices[..] == old(levelIndices[..])[PriceToIndex(price, anchorPrice, tickSize) := INVALID]
    {
      var k := PriceToIndex(price, anchorPrice, tickSize);
      levelIndices[k] := INVALID;
      if k == bestIdx {
        Rescan();
      }
    }

    /** Recomputes the top position over the whole table. */
    method Rescan()
      requires tickSize > 0 && levelIndices.Length < INVALID
      modifies this`bestIdx
      ensures Valid()
    {
      bestIdx := INVALID;
      var i := 0;
      while i < levelIndices.Length
        invariant i <= levelIndices.Length
        invariant bestIdx == INVALID || (bestIdx < i && levelIndices[bestIdx] != INVALID)
        invariant forall j :: 0 <= j < i && levelIndices[j] != INVALID ==> bestIdx != INVALID && j <= bestIdx
      {
        if levelIndices[i] != INVALID && (bestIdx == INVALID || i > bestIdx) {
          bestIdx := i;
        }
        i := i + 1;
      }
    }
  }
}
