/** A whole run through the engine object: actions by the matcher, updates by the dispatcher. */
module EngineRuns {
  import opened Base
  import opened PriceLevels
  import opened PricePriority
  import opened BookSpec
  import opened MatchSpec
  import opened OrderBooks
  import opened MatchingEngines
  import opened Runs
  import opened Admission

  /** The event is one of this engine's, and its pools and tables have room for it. */
  ghost predicate Fits(e: MatchingEngine, s: State, ev: Event)
    requires WellFormed(s.book)
  {
    match ev
    case Act(a, ok) => ok == e.risk(a) && e.Takes(s.book, s.nextId, a)
    case Update(u) => e.book.Accepts(s.book, u)
  }

  lemma FitsIsLegal(e: MatchingEngine, s: State, ev: Event)
    requires WellFormed(s.book) && Fits(e, s, ev)
    ensures Legal(s, ev)
  {
    hide Core, Lively, Queued, Drop, Enterable, MatchingEngine.Takes;
    match ev
    case Act(a, _) => TakenEnters(e, s.book, s.nextId, a);
    case Update(_) =>
  }

  /** Every event fits when its turn comes. */
  ghost predicate FitsRun(e: MatchingEngine, s: State, es: seq<Event>)
    requires WellFormed(s.book)
    decreases |es|
  {
    es == [] ||
    (Fits(e, s, es[0]) && (FitsIsLegal(e, s, es[0]); StepWellFormed(s, es[0]); FitsRun(e, Step(s, es[0]), es[1..])))
  }

  lemma {:induction false} FitsRunIsLegal(e: MatchingEngine, s: State, es: seq<Event>)
    requires WellFormed(s.book) && FitsRun(e, s, es)
    ensures LegalRun(s, es)
    decreases |es|
  {
    hide Core, Lively, Legal, Step, Fits;
    if es != [] {
      FitsIsLegal(e, s, es[0]);
      StepWellFormed(s, es[0]);
      FitsRunIsLegal(e, Step(s, es[0]), es[1..]);
    }
  }

  /** The cached best bid is strictly below the cached best ask. */
  ghost predicate BboApart(book: OrderBook)
    reads book.Store()
  {
    var s, bid, ask := book.levelPool.slots[..], book.bids.bboIdx, book.asks.bboIdx;
    bid != INVALID && ask != INVALID ==> IsLevel(s, bid) && IsLevel(s, ask) && s[bid].obj.price < s[ask].obj.price
  }

  lemma UncrossedBbo(book: OrderBook)
    requires book.Valid() && Uncrossed(book.book)
    ensures BboApart(book)
  {
    hide OrderBook.Shows, Lively;
    book.BestFacts(Buy);
    book.BestFacts(Sell);
    if book.bids.bboIdx != INVALID && book.asks.bboIdx != INVALID {
      book.HeadFacts(Buy, Best(Buy, book.book.bids.Keys));
      book.HeadFacts(Sell, Best(Sell, book.book.asks.Keys));
    }
  }

  ghost function StateOf(e: MatchingEngine): State
    reads e, e.book
  {
    State(e.book.book, e.nextTradeId)
  }

  /** One event. */
  method Handle(e: MatchingEngine, ev: Event)
    requires e.Valid() && WellFormed(e.book.book) && Fits(e, StateOf(e), ev)
    modifies e`nextTradeId, e.book.Repr()
    ensures e.Valid() && WellFormed(e.book.book)
    ensures Legal(old(StateOf(e)), ev) && StateOf(e) == Step(old(StateOf(e)), ev)
  {
    hide OrderBook.Shows, Core, Lively, MatchSpec.Match, MatchingEngine.Takes, Legal;
    FitsIsLegal(e, StateOf(e), ev);
    StepWellFormed(StateOf(e), ev);
    match ev {
      case Act(a, _) =>
        var result := e.Match(a);
      case Update(u) =>
        e.book.Dispatch(u);
    }
  }

  /**
    Plays a run of actions and updates: the engine ends up where the run does, its ledger balances, and after a passive
    run the cached best prices do not cross.
   */
  method Play(e: MatchingEngine, es: seq<Event>, ghost l: Ledger)
    requires e.Valid() && WellFormed(e.book.book) && FitsRun(e, StateOf(e), es) && Balanced(e.book.book, l)
    modifies e`nextTradeId, e.book.Repr()
    ensures e.Valid() && LegalRun(old(StateOf(e)), es) && StateOf(e) == Run(old(StateOf(e)), es)
    ensures Balanced(e.book.book, RunLedger(old(StateOf(e)), es, l))
    ensures Uncrossed(old(e.book.book)) && PassiveRun(old(StateOf(e)), es) ==>
              Uncrossed(e.book.book) && BboApart(e.book)
    decreases |es|
  {
    hide OrderBook.Shows, Core, Lively, Legal, Step, Fits, Balanced, Uncrossed, BboApart, Post, Passive;
    ghost var s := StateOf(e);
    FitsRunIsLegal(e, s, es);
    RunBalanced(s, es, l);
    if Uncrossed(s.book) && PassiveRun(s, es) {
      RunUncrossed(s, es);
    }
    var i := 0;
    while i < |es|
      invariant 0 <= i <= |es| && e.Valid() && WellFormed(e.book.book)
      invariant FitsRun(e, StateOf(e), es[i..]) && LegalRun(StateOf(e), es[i..])
      invariant Run(StateOf(e), es[i..]) == Run(s, es)
    {
      Handle(e, es[i]);
      assert es[i..][1..] == es[i + 1..];
      i := i + 1;
    }
    if Uncrossed(e.book.book) {
      UncrossedBbo(e.book);
    }
  }
}
