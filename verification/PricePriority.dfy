/** Which price is served first on each side of the book. */
module PricePriority {
  import opened Base

  /** Bids rank high prices first, asks low prices first. */
  predicate Better(side: Side, p: u32, q: u32) {
    if side.Buy? then p > q else p < q
  }

  ghost predicate IsBest(side: Side, p: u32, prices: set<u32>) {
    p in prices && forall q :: q in prices ==> !Better(side, q, p)
  }

  lemma {:induction false} BestExists(side: Side, prices: set<u32>)
    requires prices != {}
    ensures exists p :: IsBest(side, p, prices)
  {
    var x :| x in prices;
    if prices == {x} {
      assert IsBest(side, x, prices);
    } else {
      BestExists(side, prices - {x});
      var p :| IsBest(side, p, prices - {x});
      var b := if Better(side, x, p) then x else p;
      forall q | q in prices ensures !Better(side, q, b) {
        assert q == x || q in prices - {x};
      }
      assert IsBest(side, b, prices);
    }
  }

  ghost function Best(side: Side, prices: set<u32>): (p: u32)
    requires prices != {}
    ensures IsBest(side, p, prices)
  {
    BestExists(side, prices);
    var p :| IsBest(side, p, prices);
    p
  }

  /** The prices, first served first. */
  ghost function Ranked(side: Side, prices: set<u32>): seq<u32> {
    if prices == {} then []
    else
      var p := Best(side, prices);
      [p] + Ranked(side, prices - {p})
  }

  ghost predicate StrictlyRanked(side: Side, q: seq<u32>) {
    forall i, j :: 0 <= i < j < |q| ==> Better(side, q[i], q[j])
  }

  /** Ranking is canonical: the only strictly ranked listing of a set of prices is Ranked. */
  lemma {:induction false} RankedUnique(side: Side, q: seq<u32>, prices: set<u32>)
    requires StrictlyRanked(side, q)
    requires forall p :: p in q <==> p in prices
    ensures q == Ranked(side, prices)
  {
    if q == [] {
      assert prices == {};
    } else {
      assert q[0] in q;
      assert IsBest(side, q[0], prices);
      var rest := q[1..];
      assert forall p :: p in rest <==> p in prices - {q[0]};
      RankedUnique(side, rest, prices - {q[0]});
    }
  }

  /** Ranked lists exactly the prices, strictly best first. */
  lemma {:induction false} RankedSound(side: Side, prices: set<u32>)
    ensures StrictlyRanked(side, Ranked(side, prices))
    ensures forall p :: p in Ranked(side, prices) <==> p in prices
  {
    if prices != {} {
      var p := Best(side, prices);
      RankedSound(side, prices - {p});
    }
  }
}
