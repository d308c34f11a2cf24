/** Many producers, one consumer: an array of single-producer queues polled round-robin. */
module MpscQueues {
  import opened SpscMachine
  import opened SpscQueues

  /** One line of waiting items per producer, and the queue to poll first. */
  datatype Poll<T> = Poll(lines: seq<seq<T>>, next: nat) {
    predicate Sound() {
      next == 0 || next < |lines|
    }
  }

  /** A stale queue may refuse an item it has room for, and may hide the items it holds. */
  datatype Event<T> =
    | Offer(producer: nat, item: T, accepted: bool)
    | Take(shows: set<nat>)

  // ---- One poll --------------------------------------------------------------

  /** The queue polled i places after next, in a ring of n. */
  function Turn(next: nat, i: nat, n: nat): (q: nat)
    requires next < n && i <= n
    ensures q < n
  {
    if next + i < n then next + i else next + i - n
  }

  lemma TurnIsModulo(next: nat, i: nat, n: nat)
    requires next < n && i < n
    ensures (next + i) % n == Turn(next, i, n) < n
    ensures (Turn(next, i, n) + 1) % n == Turn(Turn(next, i, n), 1, n)
  {
    var k := if next + i < n then 0 else 1;
    ModUnique(next + i, n, k, Turn(next, i, n));
    var t := Turn(next, i, n);
    ModUnique(t + 1, n, if t + 1 < n then 0 else 1, Turn(t, 1, n));
  }

  /** The first place from i on whose queue shows an item, or n. */
  function FirstShowing(next: nat, i: nat, n: nat, shows: set<nat>): (k: nat)
    requires next < n && i <= n
    ensures i <= k <= n
    ensures k < n ==> Turn(next, k, n) in shows
    ensures forall j :: i <= j < k ==> Turn(next, j, n) !in shows
    decreases n - i
  {
    if i == n || Turn(next, i, n) in shows then i else FirstShowing(next, i + 1, n, shows)
  }

  /** The queue a take serves, or the number of queues when none shows an item. */
  function Served<T>(s: Poll<T>, shows: set<nat>): (q: nat)
    requires s.Sound()
    ensures q <= |s.lines|
    ensures q < |s.lines| ==> q in shows
  {
    var n := |s.lines|;
    if n == 0 then 0
    else
      var k := FirstShowing(s.next, 0, n, shows);
      if k == n then n else Turn(s.next, k, n)
  }

  /** How many queues are polled before q. */
  function Distance(next: nat, q: nat, n: nat): nat
    requires next < n && q < n
  {
    if next <= q then q - next else q + n - next
  }

  ghost predicate Legal<T>(s: Poll<T>, e: Event<T>) {
    && s.Sound()
    && match e
       case Offer(p, _, _) => p < |s.lines|
       case Take(shows) => forall q :: q in shows ==> q < |s.lines| && s.lines[q] != []
  }

  ghost function Step<T>(s: Poll<T>, e: Event<T>): Poll<T>
    requires Legal(s, e)
  {
    match e
    case Offer(p, item, accepted) =>
      if accepted then s.(lines := s.lines[p := s.lines[p] + [item]]) else s
    case Take(shows) =>
      var q := Served(s, shows);
      if q == |s.lines| then s
      else Poll(s.lines[q := s.lines[q][1..]], Turn(q, 1, |s.lines|))
  }

  /** A take serves the shown queue q, or polls it strictly sooner next time and leaves it alone. */
  lemma TakeApproaches<T>(s: Poll<T>, shows: set<nat>, q: nat)
    requires Legal(s, Take(shows)) && q in shows
    ensures var p, t, n := Served(s, shows), Step(s, Take(shows)), |s.lines|;
            && p < n && |t.lines| == n && t.Sound()
            && (p != q ==> t.lines[q] == s.lines[q] && Distance(t.next, q, n) < Distance(s.next, q, n))
  {
    var n := |s.lines|;
    assert q < n;
    assert Turn(s.next, Distance(s.next, q, n), n) == q;
  }

  // ---- Runs ------------------------------------------------------------------

  ghost predicate Play<T>(s: Poll<T>, es: seq<Event<T>>)
    decreases |es|
  {
    es == [] || (Legal(s, es[0]) && Play(Step(s, es[0]), es[1..]))
  }

  ghost function After<T>(s: Poll<T>, es: seq<Event<T>>): Poll<T>
    requires Play(s, es)
    decreases |es|
  {
    if es == [] then s else After(Step(s, es[0]), es[1..])
  }

  /** What the consumer gets from producer q. */
  ghost function Taken<T>(s: Poll<T>, es: seq<Event<T>>, q: nat): seq<T>
    requires Play(s, es)
    decreases |es|
  {
    if es == [] then []
    else
      var rest := Taken(Step(s, es[0]), es[1..], q);
      if es[0].Take? && q < |s.lines| && Served(s, es[0].shows) == q then [s.lines[q][0]] + rest else rest
  }

  /** What producer q got accepted. */
  function Offered<T>(es: seq<Event<T>>, q: nat): seq<T> {
    if es == [] then []
    else (if es[0].Offer? && es[0].accepted && es[0].producer == q then [es[0].item] else []) + Offered(es[1..], q)
  }

  function Takes<T>(es: seq<Event<T>>): nat {
    if es == [] then 0 else (if es[0].Take? then 1 else 0) + Takes(es[1..])
  }

  /** The consumer's polls never miss the items waiting in q. */
  predicate AlwaysShown<T>(es: seq<Event<T>>, q: nat) {
    forall i :: 0 <= i < |es| && es[i].Take? ==> q in es[i].shows
  }

  lemma PlayCons<T>(s: Poll<T>, e: Event<T>, es: seq<Event<T>>)
    requires Legal(s, e) && Play(Step(s, e), es)
    ensures Play(s, [e] + es) && After(s, [e] + es) == After(Step(s, e), es)
  {
    hide Legal, Step;
    assert ([e] + es)[1..] == es;
  }

  lemma StepLine<T>(s: Poll<T>, e: Event<T>, q: nat)
    requires Legal(s, e) && q < |s.lines|
    ensures |Step(s, e).lines| == |s.lines| && Step(s, e).Sound()
    ensures Taken(s, [e], q) + Step(s, e).lines[q] == s.lines[q] + Offered([e], q)
  {
    var t := Step(s, e);
    assert Play(t, []) && Taken(t, [], q) == [];
    assert [e][1..] == [];
    assert Offered([e], q) == (if e.Offer? && e.accepted && e.producer == q then [e.item] else []) + [];
    if e.Take? && Served(s, e.shows) == q {
      assert s.lines[q] == [s.lines[q][0]] + s.lines[q][1..];
    }
  }

  lemma SplitFirst<T>(s: Poll<T>, es: seq<Event<T>>, q: nat)
    requires es != [] && Play(s, es)
    ensures Play(s, [es[0]]) && Taken(s, es, q) == Taken(s, [es[0]], q) + Taken(Step(s, es[0]), es[1..], q)
    ensures Offered(es, q) == Offered([es[0]], q) + Offered(es[1..], q)
  {
    hide Step, Legal, Served;
    var t, es1 := Step(s, es[0]), [es[0]];
    assert es1[1..] == [];
    assert Play(t, es1[1..]) && Taken(t, es1[1..], q) == [] && Offered(es1[1..], q) == [];
  }

  lemma Regroup<T>(a: seq<T>, b: seq<T>, c: seq<T>, d: seq<T>, e: seq<T>, f: seq<T>, g: seq<T>)
    requires b + c == d + e && a + d == f + g
    ensures (a + b) + c == f + (g + e)
  {
    assert (a + b) + c == a + (b + c);
    assert a + (d + e) == (a + d) + e;
  }

  /** In every run each producer's items come out in the order they were accepted, none lost, none twice. */
  lemma {:induction false} ProducerFifo<T>(s: Poll<T>, es: seq<Event<T>>, q: nat)
    requires Play(s, es) && q < |s.lines|
    ensures q < |After(s, es).lines|
    ensures Taken(s, es, q) + After(s, es).lines[q] == s.lines[q] + Offered(es, q)
    decreases |es|
  {
    hide Legal, Step, Served;
    if es != [] {
      var t := Step(s, es[0]);
      StepLine(s, es[0], q);
      SplitFirst(s, es, q);
      ProducerFifo(t, es[1..], q);
      Regroup(Taken(s, [es[0]], q), Taken(t, es[1..], q), After(t, es[1..]).lines[q],
              t.lines[q], Offered(es[1..], q), s.lines[q], Offered([es[0]], q));
    }
  }

  /** A run that does not serve q has fewer takes than the distance to q allows. */
  lemma {:induction false} UnservedIsShort<T>(s: Poll<T>, es: seq<Event<T>>, q: nat)
    requires Play(s, es) && s.Sound() && q < |s.lines| && AlwaysShown(es, q) && Taken(s, es, q) == []
    ensures Takes(es) <= Distance(s.next, q, |s.lines|)
    decreases |es|
  {
    if es != [] {
      var t := Step(s, es[0]);
      if es[0].Take? {
        TakeApproaches(s, es[0].shows, q);
      }
      assert AlwaysShown(es[1..], q);
      UnservedIsShort(t, es[1..], q);
    }
  }

  /** While its items are shown, q is served within as many takes as there are producers, oldest item first. */
  lemma FairPolling<T>(s: Poll<T>, es: seq<Event<T>>, q: nat)
    requires Play(s, es) && s.Sound() && q < |s.lines| && s.lines[q] != [] && AlwaysShown(es, q)
    requires Takes(es) >= |s.lines|
    ensures Taken(s, es, q) != [] && Taken(s, es, q)[0] == s.lines[q][0]
  {
    if Taken(s, es, q) == [] {
      UnservedIsShort(s, es, q);
      assert false;
    }
    ProducerFifo(s, es, q);
    assert (Taken(s, es, q) + After(s, es).lines[q])[0] == s.lines[q][0];
  }

  // ---- The queue -------------------------------------------------------------

  /** The producers whose queue holds an item; a poll with fresh counters shows them all. */
  function Nonempty<T>(lines: seq<seq<T>>): set<nat> {
    set q: nat | q < |lines| && lines[q] != []
  }

  /** What a poll with fresh counters gets: the oldest item of the queue it serves. */
  ghost function Front<T>(s: Poll<T>): Option<T>
    requires s.Sound()
  {
    var q := Served(s, Nonempty(s.lines));
    if q < |s.lines| then Some(s.lines[q][0]) else None
  }

  /** When the first i queues polled are empty, the poll serves the i-th if that one holds an item. */
  lemma PollReaches<T>(s: Poll<T>, i: nat)
    requires s.next < |s.lines| && i < |s.lines|
    requires forall j :: 0 <= j < i ==> s.lines[Turn(s.next, j, |s.lines|)] == []
    ensures var n, q := |s.lines|, (s.next + i) % |s.lines|;
            && q < n && q == Turn(s.next, i, n)
            && (s.lines[q] != [] ==>
                  && Front(s) == Some(s.lines[q][0])
                  && Step(s, Take(Nonempty(s.lines))) == Poll(s.lines[q := s.lines[q][1..]], (q + 1) % n))
  {
    TurnIsModulo(s.next, i, |s.lines|);
  }

  lemma PollFails<T>(s: Poll<T>)
    requires s.Sound()
    requires forall j :: 0 <= j < |s.lines| ==> s.lines[Turn(s.next, j, |s.lines|)] == []
    ensures Front(s) == None && Step(s, Take(Nonempty(s.lines))) == s
  {
  }

  class MpscQueue<T(0)> {
    var queues: seq<SpscQueue<T>>
    var nextPoll: nat

    /** The queues with their buffers. */
    ghost function Parts(): set<object>
      reads this`queues
    {
      (set i | 0 <= i < |queues| :: queues[i] as object) + (set i | 0 <= i < |queues| :: queues[i].buffer as object)
    }

    ghost predicate Apart()
      reads this`queues
    {
      forall i, j :: 0 <= i < j < |queues| ==> queues[i] != queues[j] && queues[i].buffer != queues[j].buffer
    }

    ghost function Line(i: nat): seq<T>
      reads this`queues, Parts()
      requires i < |queues|
    {
      var q := queues[i];
      assert q.buffer in Parts();
      q.Contents()
    }

    ghost function View(): Poll<T>
      reads this, Parts()
    {
      Poll(seq(|queues|, i requires 0 <= i < |queues| reads this`queues, Parts() => Line(i)), nextPoll)
    }

    ghost predicate Valid()
      reads this, Parts()
    {
      && Apart()
      && (forall i :: 0 <= i < |queues| ==> queues[i].Valid())
      && (nextPoll == 0 || nextPoll < |queues|)
    }

    constructor (capacity: nat, producers: nat)
      requires Capacity(capacity)
      ensures Valid() && fresh(Parts()) && |queues| == producers
      ensures View() == Poll(seq(producers, i => []), 0)
      ensures forall q :: q in queues ==> q.buffer.Length == capacity
    {
      queues, nextPoll := [], 0;
      new;
      for k := 0 to producers
        invariant |queues| == k && nextPoll == 0 && Apart()
        invariant forall i :: 0 <= i < k ==> fresh(queues[i]) && fresh(queues[i].buffer)
        invariant forall i :: 0 <= i < k ==> queues[i].Valid() && queues[i].Contents() == []
        invariant forall i :: 0 <= i < k ==> queues[i].buffer.Length == capacity
      {
        var q := new SpscQueue<T>(capacity);
        queues := queues + [q];
      }
    }

    /** Refused exactly when the producer's own queue is full. */
    method Push(producer: nat, item: T) returns (ok: bool)
      requires Valid() && producer < |queues|
      modifies queues[producer], queues[producer].buffer
      ensures Valid()
      ensures ok <==> |old(View()).lines[producer]| < queues[producer].buffer.Length
      ensures View() == Step(old(View()), Offer(producer, item, ok))
    {
      hide SpscQueue.Valid, SpscQueue.Contents;
      ok := queues[producer].Push(item);
    }

    /** Takes from one queue if it holds an item. */
    method PopFrom(index: nat) returns (r: Option<T>)
      requires Valid() && index < |queues|
      modifies queues[index]
      ensures Valid()
      ensures var lines := old(View()).lines;
              && (r.None? <==> lines[index] == [])
              && (r.None? ==> View() == old(View()))
              && (r.Some? ==>
                    && r.value == lines[index][0]
                    && View() == Poll(lines[index := lines[index][1..]], old(nextPoll)))
    {
      hide SpscQueue.Valid, SpscQueue.Contents;
      r := queues[index].Pop();
    }

    /** Polls every queue once from the next on, and serves the first that holds an item. */
    method Pop() returns (r: Option<T>)
      requires Valid()
      modifies this`nextPoll, (set q | q in queues)
      ensures Valid()
      ensures View() == Step(old(View()), Take(Nonempty(old(View()).lines)))
      ensures r == Front(old(View()))
    {
      hide SpscQueue.Valid, SpscQueue.Contents, Step, Front, Nonempty, Turn;
      ghost var s, n := View(), |queues|;
      for i := 0 to |queues|
        invariant Valid() && View() == s
        invariant forall j :: 0 <= j < i ==> s.lines[Turn(s.next, j, n)] == []
      {
        PollReaches(s, i);
        var index := (nextPoll + i) % |queues|;
        r := PopFrom(index);
        if r.Some? {
          nextPoll := (index + 1) % |queues|;
          return;
        }
      }
      PollFails(s);
      r := None;
    }
  }
}
