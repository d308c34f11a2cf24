/** Price-time priority, stated without the sweep: who is filled, in which order, for how much. */
module PriceTime {
  import opened Base
  import opened PricePriority
  import opened BookSpec
  import opened MatchSpec

  /** The queues at the given prices, one after the other. */
  ghost function LineOf(queues: map<u32, seq<u64>>, prices: seq<u32>): seq<u64> {
    if prices == [] then []
    else (if prices[0] in queues then queues[prices[0]] else []) + LineOf(queues, prices[1..])
  }

  /** All orders of a side in the order they are served: best price first, then first come first served. */
  ghost function Line(b: Book, side: Side): seq<u64> {
    LineOf(b.On(side), Ranked(side, b.On(side).Keys))
  }

  lemma {:induction false} LineFrame(m: map<u32, seq<u64>>, m': map<u32, seq<u64>>, prices: seq<u32>)
    requires forall k :: 0 <= k < |prices| ==>
               (prices[k] in m <==> prices[k] in m') && (prices[k] in m ==> m[prices[k]] == m'[prices[k]])
    ensures LineOf(m, prices) == LineOf(m', prices)
  {
    if prices != [] {
      LineFrame(m, m', prices[1..]);
    }
  }

  /** Taking the first order of a side away. */
  lemma DropFirst(b: Book, side: Side)
    requires WellFormed(b) && b.On(side) != map[]
    requires First(b, side) in b.orders && Queued(b, First(b, side))
    ensures var p, b' := Best(side, b.On(side).Keys), Drop(b, First(b, side));
            var q := b.On(side)[p];
            && b'.orders == b.orders - {First(b, side)}
            && b'.On(side.Opposite()) == b.On(side.Opposite())
            && b'.On(side) == if |q| == 1 then b.On(side) - {p} else b.On(side)[p := q[1..]]
  {
    var p := Best(side, b.On(side).Keys);
    var q := b.On(side)[p];
    FirstIsLive(b, side);
    assert QueueOk(b, side, p, q);
    assert Position(q, q[0]) == 0 && Without(q, 0) == q[1..];
  }

  lemma LineStep(m: map<u32, seq<u64>>, p: u32, rest: seq<u32>)
    requires p in m
    ensures LineOf(m, [p] + rest) == m[p] + LineOf(m, rest)
  {
    assert ([p] + rest)[1..] == rest;
  }

  lemma RankedStep(side: Side, prices: set<u32>)
    requires prices != {}
    ensures Ranked(side, prices) == [Best(side, prices)] + Ranked(side, prices - {Best(side, prices)})
  {
  }

  lemma TailOfConcat(q: seq<u64>, r: seq<u64>)
    requires q != []
    ensures q + r != [] && (q + r)[0] == q[0] && (q + r)[1..] == q[1..] + r
  {
  }

  lemma LineWithoutFirst(m: map<u32, seq<u64>>, m': map<u32, seq<u64>>, side: Side)
    requires m != map[] && m[Best(side, m.Keys)] != []
    requires var p := Best(side, m.Keys); m' == if |m[p]| == 1 then m - {p} else m[p := m[p][1..]]
    ensures var l := LineOf(m, Ranked(side, m.Keys));
            && l != [] && l[0] == m[Best(side, m.Keys)][0]
            && LineOf(m', Ranked(side, m'.Keys)) == l[1..]
  {
    hide Best, Ranked, LineOf;
    var p := Best(side, m.Keys);
    var rest := Ranked(side, m.Keys - {p});
    RankedStep(side, m.Keys);
    RankedSound(side, m.Keys - {p});
    assert forall k :: 0 <= k < |rest| ==> rest[k] in rest;
    LineFrame(m, m', rest);
    LineStep(m, p, rest);
    TailOfConcat(m[p], LineOf(m, rest));
    if |m[p]| == 1 {
      assert m'.Keys == m.Keys - {p};
      assert m[p][1..] == [];
    } else {
      assert m'.Keys == m.Keys;
      LineStep(m', p, rest);
    }
  }

  /** Serving the first order either leaves the line as it is or takes its head off. */
  lemma ServeFirst(b: Book, side: Side, qty: u32)
    requires WellFormed(b) && b.On(side) != map[]
    requires First(b, side) in b.orders && Queued(b, First(b, side)) && qty <= b.orders[First(b, side)].qty
    ensures var id, b' := First(b, side), Reduce(b, First(b, side), qty);
            && Line(b, side) != [] && Line(b, side)[0] == id
            && Line(b', side) == (if qty < b.orders[id].qty then Line(b, side) else Line(b, side)[1..])
            && b'.On(side.Opposite()) == b.On(side.Opposite())
  {
    var id := First(b, side);
    DropFirst(b, side);
    LineWithoutFirst(b.On(side), Drop(b, id).On(side), side);
    if qty < b.orders[id].qty {
      assert SetQty(b, id, b.orders[id].qty - qty).On(side) == b.On(side);
    }
  }

  // ---- The sweep serves a prefix of the line ---------------------------------

  /** The i-th fill goes to the i-th order in the line, at that order's price and for at most its quantity. */
  ghost predicate FillsLine(b: Book, a: OrderAction, next: u64, line: seq<u64>, fills: seq<Fill>) {
    && |fills| <= |line|
    && forall i :: 0 <= i < |fills| ==>
         && line[i] in b.orders
         && var o, f := b.orders[line[i]], fills[i];
            f == Fill((next + i) % W64, a.orderId, line[i], o.price, f.qty) && 0 < f.qty <= o.qty && Admits(a, o.price)
  }

  /** All fills but the last exhaust their orders; the last may not only when the incoming order is done. */
  ghost predicate Exhausts(b: Book, line: seq<u64>, fills: seq<Fill>, left: u32)
    requires |fills| <= |line| && forall i :: 0 <= i < |fills| ==> line[i] in b.orders
  {
    && (forall i :: 0 <= i < |fills| - 1 ==> fills[i].qty == b.orders[line[i]].qty)
    && (Partial(b, line, fills) ==> left == 0)
  }

  ghost predicate Partial(b: Book, line: seq<u64>, fills: seq<Fill>)
    requires |fills| <= |line| && forall i :: 0 <= i < |fills| ==> line[i] in b.orders
  {
    fills != [] && fills[|fills| - 1].qty < b.orders[line[|fills| - 1]].qty
  }

  function SumFills(fills: seq<Fill>): nat {
    if fills == [] then 0 else fills[0].qty + SumFills(fills[1..])
  }

  lemma SuccAdd(next: u64, i: nat)
    ensures (Succ64(next) + i) % W64 == (next + (i + 1)) % W64
  {
  }

  /** One full fill in front of fills that serve the rest of the line. */
  lemma ServeFull(b: Book, b': Book, a: OrderAction, next: u64, line: seq<u64>, fills: seq<Fill>, left: u32)
    requires line != [] && line[0] in b.orders && b'.orders == b.orders - {line[0]}
    requires b.orders[line[0]].qty > 0 && Admits(a, b.orders[line[0]].price)
    requires FillsLine(b', a, Succ64(next), line[1..], fills) && Exhausts(b', line[1..], fills, left)
    ensures var o := b.orders[line[0]];
            var all := [Fill(next, a.orderId, line[0], o.price, o.qty)] + fills;
            && FillsLine(b, a, next, line, all) && Exhausts(b, line, all, left)
            && (Partial(b, line, all) <==> Partial(b', line[1..], fills))
  {
    hide Admits, Succ64;
    var o := b.orders[line[0]];
    var all := [Fill(next, a.orderId, line[0], o.price, o.qty)] + fills;
    forall i | 0 < i < |all|
      ensures all[i] == fills[i - 1] && line[i] == line[1..][i - 1] && line[i] in b'.orders && line[i] != line[0]
      ensures all[i] == Fill((next + i) % W64, a.orderId, line[i], b.orders[line[i]].price, all[i].qty)
    {
      SuccAdd(next, i - 1);
    }
  }

  /**
    Price-time priority: the fills serve the line of the opposite side from its head, without a gap, and what
    remains of the line is the rest of it, headed by the last order if that one was filled in part.
   */
  ghost predicate Serves(b: Book, a: OrderAction, left: u32, next: u64, line: seq<u64>, s: Swept) {
    && FillsLine(b, a, next, line, s.fills)
    && Exhausts(b, line, s.fills, s.left)
    && Line(s.book, a.side.Opposite()) == line[if Partial(b, line, s.fills) then |s.fills| - 1 else |s.fills|..]
    && SumFills(s.fills) + s.left == left
    && Stuck(s.book, a, s.left)
  }

  lemma ServesFull(b: Book, b': Book, a: OrderAction, left: u32, next: u64, line: seq<u64>, rest: Swept)
    requires line != [] && line[0] in b.orders && b'.orders == b.orders - {line[0]}
    requires 0 < b.orders[line[0]].qty <= left && Admits(a, b.orders[line[0]].price)
    requires Serves(b', a, left - b.orders[line[0]].qty, Succ64(next), line[1..], rest)
    ensures var o := b.orders[line[0]];
            Serves(b, a, left, next, line,
                   rest.(fills := [Fill(next, a.orderId, line[0], o.price, o.qty)] + rest.fills))
  {
    ServeFull(b, b', a, next, line, rest.fills, rest.left);
    var n := if Partial(b', line[1..], rest.fills) then |rest.fills| - 1 else |rest.fills|;
    assert line[1..][n..] == line[n + 1..];
  }

  lemma ServesPartial(b: Book, b': Book, a: OrderAction, left: u32, next: u64, line: seq<u64>)
    requires line != [] && line[0] in b.orders && 0 < left < b.orders[line[0]].qty && Admits(a, b.orders[line[0]].price)
    requires Line(b', a.side.Opposite()) == line
    ensures Serves(b, a, left, next, line,
                   Swept(b', [Fill(next, a.orderId, line[0], b.orders[line[0]].price, left)], 0, Succ64(next)))
  {
    hide Line, Admits;
    var f := Fill(next, a.orderId, line[0], b.orders[line[0]].price, left);
    assert SumFills([f]) == left;
    StuckAtZero(b', a);
    assert line[0..] == line;
  }

  lemma StuckAtZero(b: Book, a: OrderAction)
    ensures Stuck(b, a, 0)
  {
  }

  lemma ServesNone(b: Book, a: OrderAction, left: u32, next: u64)
    requires Stuck(b, a, left)
    ensures Serves(b, a, left, next, Line(b, a.side.Opposite()), Swept(b, [], left, next))
  {
    var line := Line(b, a.side.Opposite());
    assert line[0..] == line;
  }

  lemma {:induction false} SweepServesLine(b: Book, a: OrderAction, left: u32, next: u64)
    requires WellFormed(b)
    ensures Serves(b, a, left, next, Line(b, a.side.Opposite()), Sweep(b, a, left, next))
    decreases left
  {
    hide Serves, Line, Core, Lively, Sweep, Queued;
    var opp := a.side.Opposite();
    if Stuck(b, a, left) {
      SweepStuck(b, a, left, next);
      ServesNone(b, a, left, next);
    } else {
      SweepStep(b, a, left, next);
      var id := First(b, opp);
      var qty := Min(left, b.orders[id].qty);
      var b' := Reduce(b, id, qty);
      ServeFirst(b, opp, qty);
      if qty == b.orders[id].qty {
        DropFirst(b, opp);
        SweepServesLine(b', a, left - qty, Succ64(next));
        ServesFull(b, b', a, left, next, Line(b, opp), Sweep(b', a, left - qty, Succ64(next)));
      } else {
        SweepStuck(b', a, 0, Succ64(next));
        ServesPartial(b, b', a, left, next, Line(b, opp));
        var f := Fill(next, a.orderId, id, b.orders[id].price, left);
        assert [f] + [] == [f];
      }
    }
  }
}
