/**
  The single-producer single-consumer ring as a transition system: every atomic action of the two threads is one
  step, and the threads interleave freely. An acquire load may return any value between the last one seen and the
  current one.
 */
module SpscMachine {
  import opened Base
  import opened Powers

  datatype Producer<T> = ProducerIdle | Refreshing(item: T) | Writing(item: T) | Publishing(item: T)

  datatype Consumer<T> = ConsumerIdle | Rechecking | Reading | Releasing(item: T)

  /** Who asks for the size: one of the two threads, or one of any number of others. */
  datatype Looker = ByProducer | ByConsumer | ByObserver(id: nat)

  /**
    Counters are 64-bit and wrap; pushed, popped, seenHead and seenTail record the history they stand for. Whoever asks
    for the size loads the tail first, which looks keeps until the head is loaded as well.
   */
  datatype State<T> = State(
    buffer: seq<T>,
    tail: u64,
    headCached: u64,
    head: u64,
    tailCached: u64,
    producer: Producer<T>,
    consumer: Consumer<T>,
    pushed: seq<T>,
    popped: seq<T>,
    seenHead: nat,
    seenTail: nat,
    looks: map<Looker, nat>)

  datatype Label<T> =
    | PushBegin(item: T)
    | PushRefresh(headSeen: nat)
    | PushWrite
    | PushPublish
    | PopBegin
    | PopRefresh(tailSeen: nat)
    | PopRead
    | PopRelease
    | SizeTail(who: Looker, tailSeen: nat)
    | SizeHead(who: Looker, headSeen: nat)

  /** a - b as unsigned 64-bit arithmetic does it. */
  function Sub64(a: int, b: int): u64 {
    (a - b) % W64
  }

  // ---- Counters and slots ----------------------------------------------------

  /** The capacity is a power of two representable in the counters. */
  ghost predicate Capacity(c: nat) {
    IsPowerOfTwo(c) && c < W64
  }

  lemma CounterRange()
    ensures Power(2, 64) == W64
  {
    hide Power;
    PowerOne(2);
    PowerSum(2, 1, 1);
    PowerSum(2, 2, 2);
    PowerSum(2, 4, 4);
    PowerSum(2, 8, 8);
    PowerSum(2, 16, 16);
    PowerSum(2, 32, 32);
  }

  /** Wrapping the counters at 2^64 does not disturb slot positions. */
  lemma CapacityDivides(c: nat)
    requires Capacity(c)
    ensures 1 <= c && 2 * c <= W64 && exists m: nat :: W64 == c * m
  {
    var k: nat :| c == Power(2, k);
    CounterRange();
    PowerPositive(2, k);
    if k >= 64 {
      PowerGrows(2, 64, k);
      assert false;
    }
    PowerSum(2, k, 64 - k);
    PowerPositive(2, 63 - k);
    ProductMonotone(c, c, 2, Power(2, 64 - k));
  }

  lemma BelowHalf(c: nat)
    requires Capacity(c)
    ensures 2 * c <= W64
  {
    CapacityDivides(c);
  }

  lemma ModUnique(x: int, c: nat, k: int, r: int)
    requires c > 0 && 0 <= r < c && x == c * k + r
    ensures x % c == r
  {
    var q, s := x / c, x % c;
    assert x == c * q + s && 0 <= s < c;
    assert c * (k - q) == s - r && c * (q - k) == r - s;
    if k - q >= 1 {
      ProductMonotone(c, c, 1, k - q);
    } else if k - q <= -1 {
      ProductMonotone(c, c, 1, q - k);
    }
  }

  /** The slot of a wrapped counter is the slot of the true count. */
  lemma SlotOfWrapped(n: nat, c: nat)
    requires Capacity(c)
    ensures c > 0 && (n % W64) % c == n % c
  {
    CapacityDivides(c);
    var m: nat :| W64 == c * m;
    var r := n % W64;
    var k := n / W64;
    assert n == W64 * k + r;
    assert W64 * k == c * (m * k);
    assert n == c * (m * k + r / c) + r % c;
    ModUnique(n, c, m * k + r / c, r % c);
  }

  /** Counts less than a capacity apart use different slots. */
  lemma SlotsApart(i: nat, j: nat, c: nat)
    requires c > 0 && i < j < i + c
    ensures i % c != j % c
  {
    if i % c == j % c {
      var d := j / c - i / c;
      assert j - i == c * d;
      if d >= 1 {
        ProductMonotone(c, c, 1, d);
      } else {
        ProductMonotone(c, c, -d, 0);
      }
      assert false;
    }
  }

  /** Differences below 2^64 survive the wrap. */
  lemma WrappedDifference(a: nat, b: nat)
    requires b <= a < b + W64
    ensures Sub64(a % W64, b % W64) == a - b
    ensures a % W64 == b % W64 <==> a == b
    ensures a + 1 < b + W64 ==> Sub64(a % W64 + 1, b % W64) == a + 1 - b
  {
  }

  lemma SuccWraps(n: nat)
    ensures Succ64(n % W64) == (n + 1) % W64
  {
  }

  // ---- Steps -----------------------------------------------------------------

  function Init<T>(buffer: seq<T>): State<T> {
    State(buffer, 0, 0, 0, 0, ProducerIdle, ConsumerIdle, [], [], 0, 0, map[])
  }

  /** A thread does one call at a time. */
  predicate MayLook<T>(s: State<T>, who: Looker, tail: nat) {
    && who !in s.looks
    && match who
       case ByProducer => s.producer.ProducerIdle? && tail == |s.pushed|
       case ByConsumer => s.consumer.ConsumerIdle? && s.seenTail <= tail <= |s.pushed|
       case ByObserver(_) => tail <= |s.pushed|
  }

  /** An observer's tail was published after the head that made room for it, so that head is the oldest it may see. */
  predicate MaySee<T>(s: State<T>, who: Looker, head: nat) {
    && who in s.looks
    && match who
       case ByProducer => s.seenHead <= head <= |s.popped|
       case ByConsumer => head == |s.popped|
       case ByObserver(_) => s.looks[who] - |s.buffer| <= head <= |s.popped|
  }

  predicate Enabled<T>(s: State<T>, l: Label<T>) {
    match l
    case PushBegin(_) => s.producer.ProducerIdle? && ByProducer !in s.looks
    case PushRefresh(h) => s.producer.Refreshing? && s.seenHead <= h <= |s.popped|
    case PushWrite => s.producer.Writing?
    case PushPublish => s.producer.Publishing?
    case PopBegin => s.consumer.ConsumerIdle? && ByConsumer !in s.looks
    case PopRefresh(t) => s.consumer.Rechecking? && s.seenTail <= t <= |s.pushed|
    case PopRead => s.consumer.Reading?
    case PopRelease => s.consumer.Releasing?
    case SizeTail(who, t) => MayLook(s, who, t)
    case SizeHead(who, h) => MaySee(s, who, h)
  }

  function Next<T>(s: State<T>, l: Label<T>): State<T>
    requires |s.buffer| > 0 && Enabled(s, l)
  {
    var c := |s.buffer|;
    match l
    case PushBegin(item) =>
      s.(producer := if Sub64(s.tail + 1, s.headCached) > c then Refreshing(item) else Writing(item))
    case PushRefresh(h) =>
      s.(headCached := h % W64, seenHead := h,
         producer := if Sub64(s.tail + 1, h % W64) > c then ProducerIdle else Writing(s.producer.item))
    case PushWrite =>
      s.(buffer := s.buffer[s.tail % c := s.producer.item], producer := Publishing(s.producer.item))
    case PushPublish =>
      s.(tail := Succ64(s.tail), pushed := s.pushed + [s.producer.item], producer := ProducerIdle)
    case PopBegin =>
      s.(consumer := if s.head == s.tailCached then Rechecking else Reading)
    case PopRefresh(t) =>
      s.(tailCached := t % W64, seenTail := t, consumer := if s.head == t % W64 then ConsumerIdle else Reading)
    case PopRead =>
      s.(consumer := Releasing(s.buffer[s.head % c]))
    case PopRelease =>
      s.(head := Succ64(s.head), popped := s.popped + [s.consumer.item], consumer := ConsumerIdle)
    case SizeTail(who, t) =>
      s.(looks := s.looks[who := t])
    case SizeHead(who, _) =>
      s.(looks := s.looks - {who})
  }

  // ---- The invariant ---------------------------------------------------------

  /** Counters agree with the history, stale copies lag behind, and at most a bufferful is in flight. */
  ghost predicate Counted<T>(s: State<T>) {
    var c, t, h := |s.buffer|, |s.pushed|, |s.popped|;
    && Capacity(c)
    && s.tail == t % W64 && s.head == h % W64
    && s.headCached == s.seenHead % W64 && s.tailCached == s.seenTail % W64
    && s.seenHead <= h <= s.seenTail <= t <= s.seenHead + c
    && (s.producer.Writing? || s.producer.Publishing? ==> t < s.seenHead + c)
    && (s.consumer.Reading? || s.consumer.Releasing? ==> h < s.seenTail)
  }

  /** Every published, unreleased item sits in its slot; the item about to be published does too. */
  ghost predicate Stored<T>(s: State<T>)
    requires |s.buffer| > 0
  {
    var c, t, h := |s.buffer|, |s.pushed|, |s.popped|;
    && (forall i :: h <= i < t ==> s.buffer[i % c] == s.pushed[i])
    && (s.producer.Publishing? ==> s.buffer[t % c] == s.producer.item)
    && (s.consumer.Releasing? && h < t ==> s.consumer.item == s.pushed[h])
  }

  /** A loaded tail is a tail that was published; the owners of the counters wait while they look. */
  ghost predicate Looking<T>(s: State<T>) {
    && (forall who :: who in s.looks ==> s.looks[who] <= |s.pushed|)
    && (ByProducer in s.looks ==> s.producer.ProducerIdle? && s.looks[ByProducer] == |s.pushed|)
    && (ByConsumer in s.looks ==> s.consumer.ConsumerIdle? && |s.popped| <= s.looks[ByConsumer])
  }

  ghost predicate Inv<T>(s: State<T>) {
    && |s.buffer| > 0 && Counted(s) && Stored(s) && Looking(s)
    && s.popped <= s.pushed
  }

  lemma InitInv<T>(buffer: seq<T>)
    requires Capacity(|buffer|)
    ensures Inv(Init(buffer))
  {
    CapacityDivides(|buffer|);
  }

  /** The producer never writes over an unread item: its slot differs from all slots in flight. */
  lemma NoOverwrite<T>(s: State<T>)
    requires Inv(s) && s.producer.Writing?
    ensures forall i :: |s.popped| <= i < |s.pushed| ==> i % |s.buffer| != |s.pushed| % |s.buffer|
    ensures s.tail % |s.buffer| == |s.pushed| % |s.buffer|
  {
    var c, t := |s.buffer|, |s.pushed|;
    SlotOfWrapped(t, c);
    forall i | |s.popped| <= i < t ensures i % c != t % c {
      SlotsApart(i, t, c);
    }
  }

  /** The consumer reads a published item, the oldest one not yet popped. */
  lemma ReadsPublished<T>(s: State<T>)
    requires Inv(s) && s.consumer.Reading?
    ensures |s.popped| < |s.pushed| && s.buffer[s.head % |s.buffer|] == s.pushed[|s.popped|]
  {
    SlotOfWrapped(|s.popped|, |s.buffer|);
  }

  lemma CountedProducer<T>(s: State<T>, l: Label<T>)
    requires |s.buffer| > 0 && Counted(s) && Enabled(s, l) && (l.PushBegin? || l.PushRefresh?)
    ensures Counted(Next(s, l))
  {
    hide Sub64, Power, Capacity;
    BelowHalf(|s.buffer|);
    WrappedDifference(|s.pushed|, if l.PushBegin? then s.seenHead else l.headSeen);
  }

  lemma CountedConsumer<T>(s: State<T>, l: Label<T>)
    requires |s.buffer| > 0 && Counted(s) && Enabled(s, l) && (l.PopBegin? || l.PopRefresh?)
    ensures Counted(Next(s, l))
  {
    hide Sub64, Power, Capacity;
    BelowHalf(|s.buffer|);
    WrappedDifference(if l.PopBegin? then s.seenTail else l.tailSeen, |s.popped|);
  }

  lemma CountedAccess<T>(s: State<T>, l: Label<T>)
    requires |s.buffer| > 0 && Counted(s) && Enabled(s, l)
    requires l.PushWrite? || l.PushPublish? || l.PopRead? || l.PopRelease? || l.SizeTail? || l.SizeHead?
    ensures Counted(Next(s, l))
  {
    hide Succ64, Power, Capacity;
    SuccWraps(|s.pushed|);
    SuccWraps(|s.popped|);
  }

  lemma CountedStep<T>(s: State<T>, l: Label<T>)
    requires |s.buffer| > 0 && Counted(s) && Enabled(s, l)
    ensures Counted(Next(s, l))
  {
    hide Counted, Next;
    match l
    case PushBegin(_) => CountedProducer(s, l);
    case PushRefresh(_) => CountedProducer(s, l);
    case PopBegin => CountedConsumer(s, l);
    case PopRefresh(_) => CountedConsumer(s, l);
    case _ => CountedAccess(s, l);
  }

  lemma StoredStep<T>(s: State<T>, l: Label<T>)
    requires Inv(s) && Enabled(s, l)
    ensures |Next(s, l).buffer| == |s.buffer| && Stored(Next(s, l)) && Next(s, l).popped <= Next(s, l).pushed
  {
    hide Power, Capacity;
    if l.PushWrite? {
      NoOverwrite(s);
    } else if l.PopRead? {
      ReadsPublished(s);
    }
  }

  lemma LookingStep<T>(s: State<T>, l: Label<T>)
    requires Inv(s) && Enabled(s, l)
    ensures Looking(Next(s, l))
  {
    hide Power, Capacity, Stored, Sub64, Succ64;
  }

  /** Every step of a thread or an observer keeps the invariant. */
  lemma StepInv<T>(s: State<T>, l: Label<T>)
    requires Inv(s) && Enabled(s, l)
    ensures Inv(Next(s, l))
  {
    CountedStep(s, l);
    StoredStep(s, l);
    LookingStep(s, l);
  }

  // ---- Interleavings ---------------------------------------------------------

  /** Every step is enabled when its turn comes. */
  ghost predicate Schedule<T>(s: State<T>, ls: seq<Label<T>>)
    decreases |ls|
  {
    ls == [] || (|s.buffer| > 0 && Enabled(s, ls[0]) && Schedule(Next(s, ls[0]), ls[1..]))
  }

  ghost function After<T>(s: State<T>, ls: seq<Label<T>>): State<T>
    requires Schedule(s, ls)
    decreases |ls|
  {
    if ls == [] then s else After(Next(s, ls[0]), ls[1..])
  }

  /** The steps ls lead from s to t. */
  ghost predicate Leads<T>(s: State<T>, ls: seq<Label<T>>, t: State<T>) {
    Schedule(s, ls) && After(s, ls) == t
  }

  lemma RunCons<T>(s: State<T>, l: Label<T>, ls: seq<Label<T>>)
    requires |s.buffer| > 0 && Enabled(s, l) && Schedule(Next(s, l), ls)
    ensures Schedule(s, [l] + ls) && After(s, [l] + ls) == After(Next(s, l), ls)
  {
    hide Enabled, Next;
    assert ([l] + ls)[1..] == ls;
  }

  lemma {:induction false} RunSnoc<T>(s: State<T>, ls: seq<Label<T>>, t: State<T>, l: Label<T>)
    requires Leads(s, ls, t) && |t.buffer| > 0 && Enabled(t, l)
    ensures Leads(s, ls + [l], Next(t, l))
    decreases |ls|
  {
    hide Enabled, Next;
    if ls == [] {
      RunCons(s, l, []);
      assert [l] + [] == [] + [l];
    } else {
      RunSnoc(Next(s, ls[0]), ls[1..], t, l);
      RunCons(s, ls[0], ls[1..] + [l]);
      assert [ls[0]] + (ls[1..] + [l]) == ls + [l];
    }
  }

  lemma {:induction false} RunInv<T>(s: State<T>, ls: seq<Label<T>>)
    requires Inv(s) && Schedule(s, ls)
    ensures Inv(After(s, ls))
    decreases |ls|
  {
    hide Inv, Enabled, Next;
    if ls != [] {
      StepInv(s, ls[0]);
      RunInv(Next(s, ls[0]), ls[1..]);
    }
  }

  /** The published items not yet released, as they sit in the buffer. */
  function InFlight<T>(s: State<T>): seq<T>
    requires |s.buffer| > 0 && |s.popped| <= |s.pushed|
  {
    seq(|s.pushed| - |s.popped|, i requires 0 <= i => s.buffer[(|s.popped| + i) % |s.buffer|])
  }

  /** In every interleaving: popped items followed by those in flight are the pushed items, and occupancy is bounded. */
  lemma FifoSafety<T>(buffer: seq<T>, ls: seq<Label<T>>)
    requires Capacity(|buffer|) && Schedule(Init(buffer), ls)
    ensures var s := After(Init(buffer), ls);
            && |s.buffer| > 0 && |s.popped| <= |s.pushed| <= |s.popped| + |s.buffer|
            && s.popped + InFlight(s) == s.pushed
  {
    InitInv(buffer);
    RunInv(Init(buffer), ls);
  }

  /** A push is refused exactly when the queue is full as far as the producer can see. */
  lemma PushRefused<T>(s: State<T>, l: Label<T>)
    requires Inv(s) && Enabled(s, l) && l.PushRefresh?
    ensures Next(s, l).producer.ProducerIdle? <==> |s.pushed| - l.headSeen == |s.buffer|
  {
    hide Sub64, Power, Capacity, Stored;
    BelowHalf(|s.buffer|);
    WrappedDifference(|s.pushed|, l.headSeen);
  }

  /** A pop is refused exactly when the queue is empty as far as the consumer can see. */
  lemma PopRefused<T>(s: State<T>, l: Label<T>)
    requires Inv(s) && Enabled(s, l) && l.PopRefresh?
    ensures Next(s, l).consumer.ConsumerIdle? <==> |s.popped| == l.tailSeen
  {
    hide Sub64, Power, Capacity, Stored;
    BelowHalf(|s.buffer|);
    WrappedDifference(l.tailSeen, |s.popped|);
  }

  // ---- Asking for the size ---------------------------------------------------

  /** What size returns once the head is loaded. */
  function SizeSeen<T>(s: State<T>, l: Label<T>): u64
    requires Enabled(s, l) && l.SizeHead?
  {
    Sub64(s.looks[l.who] % W64, l.headSeen % W64)
  }

  /** Either owning thread gets a size within Capacity: the producer never too little, the consumer never too much. */
  lemma SizeByOwner<T>(s: State<T>, l: Label<T>)
    requires Inv(s) && Enabled(s, l) && l.SizeHead? && !l.who.ByObserver?
    ensures SizeSeen(s, l) == s.looks[l.who] - l.headSeen <= |s.buffer|
    ensures l.who.ByProducer? ==> SizeSeen(s, l) >= |s.pushed| - |s.popped|
    ensures l.who.ByConsumer? ==> SizeSeen(s, l) <= |s.pushed| - |s.popped|
  {
    hide Sub64, Power, Capacity, Stored;
    BelowHalf(|s.buffer|);
    WrappedDifference(s.looks[l.who], l.headSeen);
  }

  /** b lies at most c behind a, up to whole turns of the counter. */
  ghost predicate Follows(a: int, b: int, c: nat) {
    exists k: nat :: b <= a + k * W64 <= b + c
  }

  /**
    Another thread gets a size within Capacity exactly when the pops have not overtaken the tail it loaded (but for
    whole turns of the counter), and then the difference; otherwise the difference wraps, at first to nearly 2^64.
   */
  lemma SizeByObserver<T>(s: State<T>, l: Label<T>)
    requires Inv(s) && Enabled(s, l) && l.SizeHead? && l.who.ByObserver?
    ensures var t, h, n := s.looks[l.who], l.headSeen, SizeSeen(s, l);
            && (n <= |s.buffer| <==> Follows(t, h, |s.buffer|))
            && (h <= t ==> n == t - h <= |s.buffer|)
            && (t < h <= t + W64 ==> n == W64 - (h - t))
  {
    hide Power, Capacity, Stored;
    BelowHalf(|s.buffer|);
    SizeWraps(s.looks[l.who], l.headSeen, |s.buffer|);
  }

  lemma SizeWraps(t: nat, h: nat, c: nat)
    requires t <= h + c && 2 * c <= W64
    ensures var n := Sub64(t % W64, h % W64);
            && (n <= c <==> Follows(t, h, c))
            && (h <= t ==> n == t - h)
            && (t < h <= t + W64 ==> n == W64 - (h - t))
  {
    var n := (t - h) % W64;
    assert Sub64(t % W64, h % W64) == n;
    if n <= c {
      var k := -((t - h) / W64);
      assert h <= t + k * W64 <= h + c;
    }
  }

  lemma NoSteps<T>(s: State<T>)
    ensures Leads(s, [], s)
  {
  }

  lemma OneMore<T>(buffer: seq<T>, ls: seq<Label<T>>, s: State<T>, l: Label<T>)
    returns (ls': seq<Label<T>>, s': State<T>)
    requires Leads(Init(buffer), ls, s) && |s.buffer| > 0 && Enabled(s, l)
    ensures Leads(Init(buffer), ls', s') && s' == Next(s, l)
  {
    RunSnoc(Init(buffer), ls, s, l);
    ls', s' := ls + [l], Next(s, l);
  }

  /** One push and one pop between the two loads are enough: the observer gets 2^64 - 1. */
  lemma ObserverCanOvershoot<T>(buffer: seq<T>, item: T) returns (ls: seq<Label<T>>)
    requires Capacity(|buffer|)
    ensures var l := SizeHead(ByObserver(0), 1);
            Schedule(Init(buffer), ls) && Enabled(After(Init(buffer), ls), l)
            && SizeSeen(After(Init(buffer), ls), l) == W64 - 1
  {
    hide Power, Capacity, Schedule, After;
    CapacityDivides(|buffer|);
    NoSteps(Init(buffer));
    var s := Init(buffer);
    ls := [];
    ls, s := OneMore(buffer, ls, s, SizeTail(ByObserver(0), 0));
    ls, s := OneMore(buffer, ls, s, PushBegin(item));
    ls, s := OneMore(buffer, ls, s, PushWrite);
    ls, s := OneMore(buffer, ls, s, PushPublish);
    ls, s := OneMore(buffer, ls, s, PopBegin);
    ls, s := OneMore(buffer, ls, s, PopRefresh(1));
    ls, s := OneMore(buffer, ls, s, PopRead);
    ls, s := OneMore(buffer, ls, s, PopRelease);
  }
}
