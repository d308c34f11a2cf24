/** Replaying a stream of actions: the result is a function of the actions, not of clocks, layouts or hashing. */
module Replays {
  import opened Base
  import opened BookSpec
  import opened MatchSpec
  import opened MatchingEngines
  import opened OrderBooks
  import Admission
  import Runs
  import MatchTerms
  import BookDigests

  /** The outcomes of a stream of actions. */
  ghost function Outcomes(b: Book, next: u64, risk: OrderAction -> bool, actions: seq<OrderAction>): (os: seq<Outcome>)
    requires WellFormed(b) && Enters(b, next, risk, actions)
    ensures |os| == |actions|
    ensures forall i :: 0 <= i < |os| ==> WellFormed(os[i].book)
    decreases |actions|
  {
    if actions == [] then []
    else
      var o := MatchSpec.Match(b, actions[0], risk(actions[0]), next);
      Runs.MatchWellFormed(b, actions[0], risk(actions[0]), next);
      [o] + Outcomes(o.book, o.nextId, risk, actions[1..])
  }

  /** Rests that enter the book do so under fresh ids. */
  ghost predicate Enters(b: Book, next: u64, risk: OrderAction -> bool, actions: seq<OrderAction>)
    requires WellFormed(b)
    decreases |actions|
  {
    actions == [] ||
    (&& Enterable(b, actions[0], risk(actions[0]), next)
     && var o := MatchSpec.Match(b, actions[0], risk(actions[0]), next);
        Runs.MatchWellFormed(b, actions[0], risk(actions[0]), next);
        Enters(o.book, o.nextId, risk, actions[1..]))
  }

  ghost function FinalBook(b: Book, os: seq<Outcome>): Book {
    if os == [] then b else os[|os| - 1].book
  }

  /** All trades of a stream, in order. */
  function AllFills(os: seq<Outcome>): seq<Fill> {
    if os == [] then [] else os[0].fills + AllFills(os[1..])
  }

  /** The k-th trade has the k-th number from next on, wrapping at 2^64. */
  ghost predicate Numbered(fills: seq<Fill>, next: u64) {
    forall k :: 0 <= k < |fills| ==> fills[k].tradeId == (next + k) % W64
  }

  lemma NumberedConcat(fs: seq<Fill>, gs: seq<Fill>, next: u64)
    requires Numbered(fs, next) && Numbered(gs, (next + |fs|) % W64)
    ensures Numbered(fs + gs, next)
  {
    forall k | |fs| <= k < |fs + gs| ensures (fs + gs)[k].tradeId == (next + k) % W64 {
      NumberOn(next, |fs|, k - |fs|);
    }
  }

  /** The trades of a whole stream are numbered one by one. */
  lemma {:induction false} StreamNumbers(b: Book, next: u64, risk: OrderAction -> bool, actions: seq<OrderAction>)
    requires WellFormed(b) && Enters(b, next, risk, actions)
    ensures Numbered(AllFills(Outcomes(b, next, risk, actions)), next)
    decreases |actions|
  {
    hide Core, Lively, Enterable, MatchSpec.Match;
    if actions != [] {
      var o := MatchSpec.Match(b, actions[0], risk(actions[0]), next);
      Runs.MatchWellFormed(b, actions[0], risk(actions[0]), next);
      MatchTerms.MatchNumbers(b, actions[0], risk(actions[0]), next);
      StreamNumbers(o.book, o.nextId, risk, actions[1..]);
      var os, rest := Outcomes(b, next, risk, actions), Outcomes(o.book, o.nextId, risk, actions[1..]);
      assert os == [o] + rest && os[1..] == rest;
      NumberedConcat(o.fills, AllFills(rest), next);
    }
  }

  lemma NumberOn(next: u64, i: nat, j: nat)
    ensures ((next + i) % W64 + j) % W64 == (next + (i + j)) % W64
  {
  }

  /** Fewer than 2^64 trades of one stream never share a number. */
  lemma StreamNumbersDiffer(b: Book, next: u64, risk: OrderAction -> bool, actions: seq<OrderAction>, i: nat, j: nat)
    requires WellFormed(b) && Enters(b, next, risk, actions)
    requires i < j < |AllFills(Outcomes(b, next, risk, actions))| && j - i < W64
    ensures var fills := AllFills(Outcomes(b, next, risk, actions)); fills[i].tradeId != fills[j].tradeId
  {
    hide Core, Lively, Outcomes, Enters;
    StreamNumbers(b, next, risk, actions);
    assert (next + i) % W64 != (next + j) % W64;
  }

  /** The engine has room for the whole stream. */
  ghost predicate TakesAll(e: MatchingEngine, b: Book, next: u64, actions: seq<OrderAction>)
    requires WellFormed(b)
    decreases |actions|
  {
    actions == [] ||
    (&& e.Takes(b, next, actions[0])
     && var o := MatchSpec.Match(b, actions[0], e.risk(actions[0]), next);
        Admission.TakenEnters(e, b, next, actions[0]);
        Runs.MatchWellFormed(b, actions[0], e.risk(actions[0]), next);
        TakesAll(e, o.book, o.nextId, actions[1..]))
  }

  /** Same statuses and the same trades apart from their timestamps. */
  ghost predicate Reports(results: seq<ExecutionResult>, os: seq<Outcome>) {
    && |results| == |os|
    && forall i :: 0 <= i < |os| ==> results[i].status == os[i].status && Fills(results[i].trades) == os[i].fills
  }

  lemma {:induction false} TakenEnters(e: MatchingEngine, b: Book, next: u64, actions: seq<OrderAction>)
    requires WellFormed(b) && TakesAll(e, b, next, actions)
    ensures Enters(b, next, e.risk, actions)
    decreases |actions|
  {
    hide Core, Lively, Enterable, MatchSpec.Match, MatchingEngine.Takes;
    if actions != [] {
      Admission.TakenEnters(e, b, next, actions[0]);
      Runs.MatchWellFormed(b, actions[0], e.risk(actions[0]), next);
      var o := MatchSpec.Match(b, actions[0], e.risk(actions[0]), next);
      TakenEnters(e, o.book, o.nextId, actions[1..]);
    }
  }

  /** The first action of a stream the engine has room for, and the rest of the stream. */
  lemma TakesFirst(e: MatchingEngine, b: Book, next: u64, actions: seq<OrderAction>)
    requires WellFormed(b) && TakesAll(e, b, next, actions) && actions != []
    ensures Enterable(b, actions[0], e.risk(actions[0]), next) && e.Takes(b, next, actions[0])
    ensures var o := MatchSpec.Match(b, actions[0], e.risk(actions[0]), next);
            WellFormed(o.book) && TakesAll(e, o.book, o.nextId, actions[1..])
  {
    hide Core, Lively, Enterable, MatchSpec.Match, MatchingEngine.Takes;
    Admission.TakenEnters(e, b, next, actions[0]);
    Runs.MatchWellFormed(b, actions[0], e.risk(actions[0]), next);
  }

  lemma NoReports(b: Book)
    ensures Reports([], []) && FinalBook(b, []) == b && AllFills([]) == []
  {
  }

  /** A report of the first action in front of a report of the rest. */
  lemma ReportsFirst(b: Book, next: u64, risk: OrderAction -> bool, actions: seq<OrderAction>,
                     r: ExecutionResult, rest: seq<ExecutionResult>)
    requires WellFormed(b) && actions != [] && Enterable(b, actions[0], risk(actions[0]), next)
    requires var o := MatchSpec.Match(b, actions[0], risk(actions[0]), next);
             && WellFormed(o.book) && Enters(o.book, o.nextId, risk, actions[1..])
             && r.status == o.status && Fills(r.trades) == o.fills
             && Reports(rest, Outcomes(o.book, o.nextId, risk, actions[1..]))
    ensures Enters(b, next, risk, actions)
    ensures var o := MatchSpec.Match(b, actions[0], risk(actions[0]), next);
            var os := Outcomes(b, next, risk, actions);
            && Reports([r] + rest, os)
            && FinalBook(b, os) == FinalBook(o.book, Outcomes(o.book, o.nextId, risk, actions[1..]))
            && |AllFills(os)| == |o.fills| + |AllFills(Outcomes(o.book, o.nextId, risk, actions[1..]))|
  {
    hide Core, Lively, Enterable, MatchSpec.Match, Fills;
  }

  /** Matches the actions one after the other. */
  method Replay(e: MatchingEngine, actions: seq<OrderAction>) returns (results: seq<ExecutionResult>)
    requires e.Valid() && WellFormed(e.book.book) && TakesAll(e, e.book.book, e.nextTradeId, actions)
    modifies e`nextTradeId, e.book.Repr()
    ensures e.Valid() && Enters(old(e.book.book), old(e.nextTradeId), e.risk, actions)
    ensures var os := Outcomes(old(e.book.book), old(e.nextTradeId), e.risk, actions);
            && Reports(results, os) && e.book.book == FinalBook(old(e.book.book), os)
            && Numbered(AllFills(os), old(e.nextTradeId))
            && e.nextTradeId == (old(e.nextTradeId) + |AllFills(os)|) % W64
    decreases |actions|
  {
    hide Core, Lively, Enterable, MatchSpec.Match, MatchingEngine.Takes, OrderBook.Valid, Fills,
         TakesAll, Reports, FinalBook, AllFills, Numbered;
    ghost var b, n := e.book.book, e.nextTradeId;
    TakenEnters(e, b, n, actions);
    StreamNumbers(b, n, e.risk, actions);
    if actions == [] {
      results := [];
      NoReports(b);
    } else {
      TakesFirst(e, b, n, actions);
      MatchTerms.MatchNumbers(b, actions[0], e.risk(actions[0]), n);
      var r := e.Match(actions[0]);
      ghost var c, m := e.book.book, e.nextTradeId;
      var rest := Replay(e, actions[1..]);
      NumberOn(n, |r.trades|, |AllFills(Outcomes(c, m, e.risk, actions[1..]))|);
      results := [r] + rest;
      ReportsFirst(b, n, e.risk, actions, r, rest);
    }
  }

  /** Replays and takes the digest of the book that results. */
  method ReplayDigest(e: MatchingEngine, actions: seq<OrderAction>)
    returns (results: seq<ExecutionResult>, digest: bv64)
    requires e.Valid() && WellFormed(e.book.book) && TakesAll(e, e.book.book, e.nextTradeId, actions)
    modifies e`nextTradeId, e.book.Repr()
    ensures Enters(old(e.book.book), old(e.nextTradeId), e.risk, actions)
    ensures var b := old(e.book.book);
            var os := Outcomes(b, old(e.nextTradeId), e.risk, actions);
            Reports(results, os) && Core(FinalBook(b, os)) && digest == BookDigests.Digest(FinalBook(b, os))
  {
    hide Lively, Core, OrderBook.Shows, TakesAll, Outcomes, BookDigests.Digest;
    results := Replay(e, actions);
    digest := BookDigests.Compute(e.book);
  }

  lemma SameReports(re: seq<ExecutionResult>, rf: seq<ExecutionResult>, os: seq<Outcome>)
    requires Reports(re, os) && Reports(rf, os)
    ensures |re| == |rf| == |os|
    ensures forall i :: 0 <= i < |os| ==> re[i].status == rf[i].status && Fills(re[i].trades) == Fills(rf[i].trades)
  {
  }

  /**
    Two engines with the same contents and the same risk rules, whatever their clocks, pool sizes, slot layouts and
    hash functions, report the same statuses and trades and end with the same digest.
   */
  method ReplayTwice(e: MatchingEngine, f: MatchingEngine, actions: seq<OrderAction>)
    returns (re: seq<ExecutionResult>, rf: seq<ExecutionResult>, de: bv64, df: bv64)
    requires e.Valid() && f.Valid() && e.Repr() !! f.Repr()
    requires e.book.book == f.book.book && e.nextTradeId == f.nextTradeId && e.risk == f.risk
    requires WellFormed(e.book.book)
    requires TakesAll(e, e.book.book, e.nextTradeId, actions) && TakesAll(f, f.book.book, f.nextTradeId, actions)
    modifies e`nextTradeId, e.book.Repr(), f`nextTradeId, f.book.Repr()
    ensures |re| == |rf| == |actions|
    ensures forall i :: 0 <= i < |actions| ==>
              re[i].status == rf[i].status && Fills(re[i].trades) == Fills(rf[i].trades)
    ensures de == df
  {
    hide OrderBook.Shows, OrderBook.Store, Core, Lively, Enters, Outcomes, TakesAll, Reports, BookDigests.Digest;
    ghost var b, n := e.book.book, e.nextTradeId;
    f.book.MemoryExists();
    assert forall o :: o in f.Repr() ==> o != e && o !in e.book.Repr();
    re, de := ReplayDigest(e, actions);
    assert f.Valid() && f.book.book == b && f.nextTradeId == n;
    rf, df := ReplayDigest(f, actions);
    SameReports(re, rf, Outcomes(b, n, e.risk, actions));
  }
}
