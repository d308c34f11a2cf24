/**
  The many-producer queue as a transition system: one ring per producer, every atomic step of every producer and of the
  one polling consumer, freely interleaved. Each ring sees a run of its own, and the whole refines polling over lines.
 */
module MpscMachine {
  import Q = SpscMachine
  import P = MpscQueues

  /** How many queues the pop under way has found empty. */
  datatype Scan = NoScan | Scanning(passed: nat)

  datatype State<T> = State(queues: seq<Q.State<T>>, next: nat, scan: Scan)

  datatype Label<T> =
    | Produce(producer: nat, push: Q.Label<T>)
    | BeginPop
    | Poll(pop: Q.Label<T>)

  predicate IsPush<T>(l: Q.Label<T>) {
    l.PushBegin? || l.PushRefresh? || l.PushWrite? || l.PushPublish?
  }

  predicate IsPop<T>(l: Q.Label<T>) {
    l.PopBegin? || l.PopRefresh? || l.PopRead? || l.PopRelease?
  }

  function Init<T>(buffers: seq<seq<T>>): State<T> {
    State(seq(|buffers|, i requires 0 <= i < |buffers| => Q.Init(buffers[i])), 0, NoScan)
  }

  /** The starting point and the scan lie within the ring of queues. */
  predicate Sound<T>(s: State<T>) {
    && (s.next == 0 || s.next < |s.queues|)
    && (s.scan.Scanning? ==> s.scan.passed < |s.queues|)
  }

  /** The queue being polled. */
  function Polled<T>(s: State<T>): (q: nat)
    requires Sound(s) && s.scan.Scanning?
    ensures q < |s.queues|
  {
    P.Turn(s.next, s.scan.passed, |s.queues|)
  }

  predicate Enabled<T>(s: State<T>, l: Label<T>) {
    && Sound(s)
    && match l
       case Produce(p, push) => p < |s.queues| && IsPush(push) && Works(s.queues[p], push)
       case BeginPop => s.scan.NoScan? && |s.queues| > 0
       case Poll(pop) => s.scan.Scanning? && IsPop(pop) && Works(s.queues[Polled(s)], pop)
  }

  predicate Works<T>(q: Q.State<T>, l: Q.Label<T>) {
    |q.buffer| > 0 && Q.Enabled(q, l)
  }

  /** The poll has just found its queue empty. */
  predicate Refuses<T>(s: State<T>, l: Label<T>)
    requires Enabled(s, l)
  {
    l.Poll? && !l.pop.PopRelease? && Q.Next(s.queues[Polled(s)], l.pop).consumer.ConsumerIdle?
  }

  function Next<T>(s: State<T>, l: Label<T>): State<T>
    requires Enabled(s, l)
  {
    var n := |s.queues|;
    match l
    case Produce(p, push) => s.(queues := s.queues[p := Q.Next(s.queues[p], push)])
    case BeginPop => s.(scan := Scanning(0))
    case Poll(pop) =>
      var q := Polled(s);
      var t := s.(queues := s.queues[q := Q.Next(s.queues[q], pop)]);
      if pop.PopRelease? then t.(next := P.Turn(q, 1, n), scan := NoScan)
      else if Refuses(s, l) then t.(scan := if s.scan.passed + 1 == n then NoScan else Scanning(s.scan.passed + 1))
      else t
  }

  /** Every ring is intact, and the consumer is busy at no queue but the one being polled. */
  ghost predicate Inv<T>(s: State<T>) {
    && Sound(s)
    && (forall j :: 0 <= j < |s.queues| ==> Q.Inv(s.queues[j]))
    && (forall j :: 0 <= j < |s.queues| && !(s.scan.Scanning? && j == Polled(s)) ==> s.queues[j].consumer.ConsumerIdle?)
  }

  lemma InitInv<T>(buffers: seq<seq<T>>)
    requires forall i :: 0 <= i < |buffers| ==> Q.Capacity(|buffers[i]|)
    ensures Inv(Init(buffers))
  {
    forall i | 0 <= i < |buffers| ensures Q.Inv(Q.Init(buffers[i])) {
      Q.InitInv(buffers[i]);
    }
  }

  lemma PushLeavesConsumer<T>(q: Q.State<T>, l: Q.Label<T>)
    requires Works(q, l) && IsPush(l)
    ensures Q.Next(q, l).consumer == q.consumer
  {
  }

  lemma ReleaseIdles<T>(q: Q.State<T>)
    requires Works(q, Q.PopRelease)
    ensures Q.Next(q, Q.PopRelease).consumer.ConsumerIdle?
  {
  }

  /** Every step of a producer or of the consumer keeps all rings intact. */
  lemma StepInv<T>(s: State<T>, l: Label<T>)
    requires Inv(s) && Enabled(s, l)
    ensures Inv(Next(s, l)) && |Next(s, l).queues| == |s.queues|
  {
    hide Q.Inv, Q.Enabled, Q.Next;
    match l
    case Produce(p, push) =>
      Q.StepInv(s.queues[p], push);
      PushLeavesConsumer(s.queues[p], push);
    case BeginPop =>
    case Poll(pop) =>
      Q.StepInv(s.queues[Polled(s)], pop);
      if pop.PopRelease? {
        ReleaseIdles(s.queues[Polled(s)]);
      }
  }

  // ---- Interleavings ---------------------------------------------------------

  ghost predicate Schedule<T>(s: State<T>, ls: seq<Label<T>>)
    decreases |ls|
  {
    ls == [] || (Enabled(s, ls[0]) && Schedule(Next(s, ls[0]), ls[1..]))
  }

  ghost function After<T>(s: State<T>, ls: seq<Label<T>>): State<T>
    requires Schedule(s, ls)
    decreases |ls|
  {
    if ls == [] then s else After(Next(s, ls[0]), ls[1..])
  }

  /** What step l is to queue p. */
  function StepOf<T>(s: State<T>, l: Label<T>, p: nat): seq<Q.Label<T>>
    requires Enabled(s, l)
  {
    match l
    case Produce(q, push) => if q == p then [push] else []
    case BeginPop => []
    case Poll(pop) => if Polled(s) == p then [pop] else []
  }

  /** What the run is to queue p. */
  ghost function RunOf<T>(s: State<T>, ls: seq<Label<T>>, p: nat): seq<Q.Label<T>>
    requires Schedule(s, ls)
    decreases |ls|
  {
    if ls == [] then [] else StepOf(s, ls[0], p) + RunOf(Next(s, ls[0]), ls[1..], p)
  }

  lemma StepProjects<T>(s: State<T>, l: Label<T>, p: nat)
    requires Enabled(s, l) && p < |s.queues|
    ensures var steps, q, t := StepOf(s, l, p), s.queues[p], Next(s, l);
            && |steps| <= 1 && |t.queues| == |s.queues|
            && (if steps == [] then t.queues[p] == q else Works(q, steps[0]) && t.queues[p] == Q.Next(q, steps[0]))
  {
    hide Q.Enabled, Q.Next;
  }

  /** Whatever the others do, each producer and the consumer run the single-queue protocol on the producer's ring. */
  lemma {:induction false} RunProjects<T>(s: State<T>, ls: seq<Label<T>>, p: nat)
    requires Schedule(s, ls) && p < |s.queues|
    ensures |After(s, ls).queues| == |s.queues|
    ensures Q.Leads(s.queues[p], RunOf(s, ls, p), After(s, ls).queues[p])
    decreases |ls|
  {
    hide Enabled, Next, StepOf, Q.Enabled, Q.Next;
    if ls != [] {
      var t, rest := Next(s, ls[0]), RunOf(Next(s, ls[0]), ls[1..], p);
      var steps := StepOf(s, ls[0], p);
      StepProjects(s, ls[0], p);
      RunProjects(t, ls[1..], p);
      if steps == [] {
        assert steps + rest == rest;
      } else {
        Q.RunCons(s.queues[p], steps[0], rest);
        assert [steps[0]] + rest == steps + rest;
      }
    }
  }

  // ---- What goes in and what comes out ---------------------------------------

  /** What a step gets accepted from producer p: the item it publishes. */
  function AcceptedAt<T>(s: State<T>, l: Label<T>, p: nat): seq<T>
    requires Enabled(s, l)
  {
    if l.Produce? && l.producer == p && l.push.PushPublish? then [s.queues[p].producer.item] else []
  }

  /** What a step hands the consumer from producer p: the item it releases. */
  function ReceivedAt<T>(s: State<T>, l: Label<T>, p: nat): seq<T>
    requires Enabled(s, l)
  {
    if l.Poll? && l.pop.PopRelease? && Polled(s) == p then [s.queues[p].consumer.item] else []
  }

  ghost function Accepted<T>(s: State<T>, ls: seq<Label<T>>, p: nat): seq<T>
    requires Schedule(s, ls)
    decreases |ls|
  {
    if ls == [] then [] else AcceptedAt(s, ls[0], p) + Accepted(Next(s, ls[0]), ls[1..], p)
  }

  ghost function Received<T>(s: State<T>, ls: seq<Label<T>>, p: nat): seq<T>
    requires Schedule(s, ls)
    decreases |ls|
  {
    if ls == [] then [] else ReceivedAt(s, ls[0], p) + Received(Next(s, ls[0]), ls[1..], p)
  }

  lemma QueueHistory<T>(q: Q.State<T>, l: Q.Label<T>)
    requires Works(q, l)
    ensures Q.Next(q, l).pushed == q.pushed + if l.PushPublish? then [q.producer.item] else []
    ensures Q.Next(q, l).popped == q.popped + if l.PopRelease? then [q.consumer.item] else []
  {
  }

  lemma StepHistory<T>(s: State<T>, l: Label<T>, p: nat)
    requires Enabled(s, l) && p < |s.queues|
    ensures |Next(s, l).queues| == |s.queues|
    ensures Next(s, l).queues[p].pushed == s.queues[p].pushed + AcceptedAt(s, l, p)
    ensures Next(s, l).queues[p].popped == s.queues[p].popped + ReceivedAt(s, l, p)
  {
    hide Q.Enabled, Q.Next;
    match l
    case Produce(q, push) => QueueHistory(s.queues[q], push);
    case BeginPop =>
    case Poll(pop) => QueueHistory(s.queues[Polled(s)], pop);
  }

  lemma {:induction false} RunHistory<T>(s: State<T>, ls: seq<Label<T>>, p: nat)
    requires Schedule(s, ls) && p < |s.queues|
    ensures |After(s, ls).queues| == |s.queues|
    ensures After(s, ls).queues[p].pushed == s.queues[p].pushed + Accepted(s, ls, p)
    ensures After(s, ls).queues[p].popped == s.queues[p].popped + Received(s, ls, p)
    decreases |ls|
  {
    hide Enabled, Next, AcceptedAt, ReceivedAt;
    if ls != [] {
      StepHistory(s, ls[0], p);
      RunHistory(Next(s, ls[0]), ls[1..], p);
    }
  }

  /**
    In every interleaving of all producers and the consumer: what was received from a producer, followed by what is in
    flight in its ring, is what it got accepted, in that order; and no ring holds more than its capacity.
   */
  lemma ProducerFifo<T>(buffers: seq<seq<T>>, ls: seq<Label<T>>, p: nat)
    requires forall i :: 0 <= i < |buffers| ==> Q.Capacity(|buffers[i]|)
    requires Schedule(Init(buffers), ls) && p < |buffers|
    ensures var s, t := Init(buffers), After(Init(buffers), ls);
            && |t.queues| == |buffers|
            && var q := t.queues[p];
               && |q.buffer| > 0 && |q.popped| <= |q.pushed| <= |q.popped| + |q.buffer|
               && Received(s, ls, p) + Q.InFlight(q) == Accepted(s, ls, p)
  {
    hide Enabled, Next, Received, Accepted, Q.InFlight, Q.Schedule, Q.After;
    var s := Init(buffers);
    RunProjects(s, ls, p);
    RunHistory(s, ls, p);
    assert s.queues[p] == Q.Init(buffers[p]);
    Q.FifoSafety(buffers[p], RunOf(s, ls, p));
    assert [] + Received(s, ls, p) == Received(s, ls, p) && [] + Accepted(s, ls, p) == Accepted(s, ls, p);
  }

  // ---- Refinement of polling over lines --------------------------------------

  /** The items waiting in each ring, and where the next pop starts. */
  function View<T>(s: State<T>): P.Poll<T> {
    P.Poll(seq(|s.queues|, j requires 0 <= j < |s.queues| => Line(s.queues[j])), s.next)
  }

  function Line<T>(q: Q.State<T>): seq<T> {
    if |q.popped| <= |q.pushed| then q.pushed[|q.popped|..] else []
  }

  /** The queues the pop under way has already found empty. */
  function Passed<T>(s: State<T>): set<nat>
    requires Sound(s)
  {
    if s.scan.NoScan? then {} else set i | 0 <= i < s.scan.passed :: P.Turn(s.next, i, |s.queues|)
  }

  /** What the pop under way can find: items in queues it has not passed over yet. */
  function Shown<T>(s: State<T>): set<nat>
    requires Sound(s)
  {
    (set j | 0 <= j < |s.queues| && Line(s.queues[j]) != []) - Passed(s)
  }

  /** The steps at which items appear and disappear. */
  function EventsAt<T>(s: State<T>, l: Label<T>): (es: seq<P.Event<T>>)
    requires Enabled(s, l)
    ensures |es| <= 1
  {
    match l
    case Produce(p, push) => if push.PushPublish? then [P.Offer(p, s.queues[p].producer.item, true)] else []
    case BeginPop => []
    case Poll(pop) => if pop.PopRelease? then [P.Take(Shown(s))] else []
  }

  lemma LineStep<T>(q: Q.State<T>, l: Q.Label<T>)
    requires Q.Inv(q) && Works(q, l)
    ensures l.PopRelease? ==> Line(q) != [] && q.consumer.item == Line(q)[0]
    ensures Line(Q.Next(q, l)) ==
            if l.PushPublish? then Line(q) + [q.producer.item] else if l.PopRelease? then Line(q)[1..] else Line(q)
  {
    hide Q.Capacity, Q.Sub64;
  }

  /** A release serves, of all queues not passed over, the first one that holds an item. */
  lemma ReleaseServes<T>(s: State<T>)
    requires Inv(s) && s.scan.Scanning? && Line(s.queues[Polled(s)]) != []
    ensures View(s).Sound() && P.Served(View(s), Shown(s)) == Polled(s)
  {
    var n, i := |s.queues|, s.scan.passed;
    assert Polled(s) in Shown(s) by {
      forall j | 0 <= j < i ensures P.Turn(s.next, j, n) != Polled(s) {
      }
    }
    forall j | 0 <= j < i ensures P.Turn(s.next, j, n) !in Shown(s) {
      assert P.Turn(s.next, j, n) in Passed(s);
    }
  }

  /** A step is at most one event of the polled lines, and leads where that event does. */
  lemma StepRefines<T>(s: State<T>, l: Label<T>)
    requires Inv(s) && Enabled(s, l)
    ensures P.Play(View(s), EventsAt(s, l)) && P.After(View(s), EventsAt(s, l)) == View(Next(s, l))
  {
    hide Q.Inv, Q.Next, Q.Enabled, Line, P.Served, Shown;
    match l
    case Produce(p, push) =>
      LineStep(s.queues[p], push);
    case BeginPop =>
    case Poll(pop) =>
      LineStep(s.queues[Polled(s)], pop);
      if pop.PopRelease? {
        ReleaseServes(s);
        ShownHold(s);
      }
  }

  lemma ShownHold<T>(s: State<T>)
    requires Sound(s)
    ensures forall q :: q in Shown(s) ==> q < |s.queues| && Line(s.queues[q]) != []
  {
  }

  ghost function EventsOf<T>(s: State<T>, ls: seq<Label<T>>): seq<P.Event<T>>
    requires Schedule(s, ls)
    decreases |ls|
  {
    if ls == [] then [] else EventsAt(s, ls[0]) + EventsOf(Next(s, ls[0]), ls[1..])
  }

  /** Every interleaving is a run of polling over lines. */
  lemma {:induction false} RunRefines<T>(s: State<T>, ls: seq<Label<T>>)
    requires Inv(s) && Schedule(s, ls)
    ensures Inv(After(s, ls))
    ensures P.Play(View(s), EventsOf(s, ls)) && P.After(View(s), EventsOf(s, ls)) == View(After(s, ls))
    decreases |ls|
  {
    hide Inv, Enabled, Next, View, P.Legal, P.Step;
    if ls != [] {
      StepInv(s, ls[0]);
      StepRefines(s, ls[0]);
      RunRefines(Next(s, ls[0]), ls[1..]);
      var es, rest := EventsAt(s, ls[0]), EventsOf(Next(s, ls[0]), ls[1..]);
      if es == [] {
        assert es + rest == rest;
      } else {
        P.PlayCons(View(s), es[0], rest);
      }
    }
  }

  // ---- Fairness --------------------------------------------------------------

  /** The consumer never takes queue q for empty. */
  ghost predicate NeverRefused<T>(s: State<T>, ls: seq<Label<T>>, q: nat)
    requires Schedule(s, ls)
    decreases |ls|
  {
    ls == [] || (!(Refuses(s, ls[0]) && Polled(s) == q) && NeverRefused(Next(s, ls[0]), ls[1..], q))
  }

  /** How many items the consumer gets. */
  function Releases<T>(ls: seq<Label<T>>): nat {
    if ls == [] then 0 else (if ls[0].Poll? && ls[0].pop.PopRelease? then 1 else 0) + Releases(ls[1..])
  }

  lemma StepTaken<T>(s: State<T>, l: Label<T>, q: nat)
    requires Inv(s) && Enabled(s, l) && q < |s.queues|
    ensures P.Play(View(s), EventsAt(s, l))
    ensures P.Taken(View(s), EventsAt(s, l), q) == ReceivedAt(s, l, q)
    ensures P.Takes(EventsAt(s, l)) == Releases([l])
  {
    hide Q.Inv, Q.Next, Q.Enabled, Line, P.Served, Shown;
    StepRefines(s, l);
    if l.Poll? && l.pop.PopRelease? {
      LineStep(s.queues[Polled(s)], l.pop);
      ReleaseServes(s);
    }
  }

  /** The polled lines hand out what the rings do. */
  lemma {:induction false} RunTaken<T>(s: State<T>, ls: seq<Label<T>>, q: nat)
    requires Inv(s) && Schedule(s, ls) && q < |s.queues|
    ensures P.Play(View(s), EventsOf(s, ls))
    ensures P.Taken(View(s), EventsOf(s, ls), q) == Received(s, ls, q)
    ensures P.Takes(EventsOf(s, ls)) == Releases(ls)
    decreases |ls|
  {
    hide Inv, Enabled, Next, View, P.Legal, P.Step, EventsAt, ReceivedAt;
    RunRefines(s, ls);
    if ls != [] {
      var l, t, es, rest := ls[0], Next(s, ls[0]), EventsAt(s, ls[0]), EventsOf(Next(s, ls[0]), ls[1..]);
      StepInv(s, l);
      StepRefines(s, l);
      StepTaken(s, l, q);
      RunTaken(t, ls[1..], q);
      assert [l][1..] == [];
      if es == [] {
        assert es + rest == rest;
      } else {
        P.SplitFirst(View(s), es + rest, q);
        assert (es + rest)[1..] == rest && [(es + rest)[0]] == es;
      }
    }
  }

  /** A queue with items that is neither served nor taken for empty can be found by the pop under way. */
  lemma StaysVisible<T>(s: State<T>, l: Label<T>, q: nat)
    requires Inv(s) && Enabled(s, l) && q < |s.queues| && Line(s.queues[q]) != [] && q !in Passed(s)
    requires !(Refuses(s, l) && Polled(s) == q) && ReceivedAt(s, l, q) == []
    ensures Line(Next(s, l).queues[q]) != [] && q !in Passed(Next(s, l))
    ensures P.AlwaysShown(EventsAt(s, l), q)
  {
    hide Q.Inv, Q.Next, Q.Enabled, Line;
    match l
    case Produce(p, push) => LineStep(s.queues[p], push);
    case BeginPop =>
    case Poll(pop) => LineStep(s.queues[Polled(s)], pop);
  }

  lemma {:induction false} UnservedIsShown<T>(s: State<T>, ls: seq<Label<T>>, q: nat)
    requires Inv(s) && Schedule(s, ls) && q < |s.queues| && Line(s.queues[q]) != [] && q !in Passed(s)
    requires NeverRefused(s, ls, q) && Received(s, ls, q) == []
    ensures P.AlwaysShown(EventsOf(s, ls), q)
    decreases |ls|
  {
    hide Inv, Enabled, Next, Line, EventsAt, ReceivedAt, Refuses, Passed;
    if ls != [] {
      StepInv(s, ls[0]);
      StaysVisible(s, ls[0], q);
      UnservedIsShown(Next(s, ls[0]), ls[1..], q);
    }
  }

  /**
    Fairness over all interleavings: a queue that holds an item and is never taken for empty is served within as many
    items as there are producers, its oldest item first.
   */
  lemma ServedInTime<T>(s: State<T>, ls: seq<Label<T>>, q: nat)
    requires Inv(s) && s.scan.NoScan? && Schedule(s, ls) && q < |s.queues| && Line(s.queues[q]) != []
    requires NeverRefused(s, ls, q) && Releases(ls) >= |s.queues|
    ensures Received(s, ls, q) != [] && Received(s, ls, q)[0] == Line(s.queues[q])[0]
  {
    hide Q.Inv, Line, P.Play, P.Taken, P.AlwaysShown;
    var v, es := View(s), EventsOf(s, ls);
    RunTaken(s, ls, q);
    if Received(s, ls, q) == [] {
      UnservedIsShown(s, ls, q);
      P.UnservedIsShort(v, es, q);
      assert false;
    }
    P.ProducerFifo(v, es, q);
    assert (P.Taken(v, es, q) + P.After(v, es).lines[q])[0] == Line(s.queues[q])[0];
  }
}
