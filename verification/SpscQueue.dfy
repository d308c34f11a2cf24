/** The single-producer single-consumer queue as an object; each call is one run of the transition system. */
module SpscQueues {
  import opened Base
  import opened Powers
  import opened SpscMachine

  datatype Option<+T> = None | Some(value: T)

  /** Between calls both threads are idle. */
  ghost predicate Idle<T>(s: State<T>) {
    && Inv(s) && |s.popped| <= |s.pushed|
    && s.looks == map[] && s.producer.ProducerIdle? && s.consumer.ConsumerIdle?
  }

  /** What the consumer has still to pop. */
  ghost function Waiting<T>(s: State<T>): seq<T> {
    if |s.popped| <= |s.pushed| then s.pushed[|s.popped|..] else []
  }

  /** The producer can see a free slot without loading the head. */
  predicate CacheShowsRoom<T>(s: State<T>) {
    Sub64(s.tail + 1, s.headCached) <= |s.buffer|
  }

  /** The steps of one push that no consumer step interrupts. */
  ghost function PushSteps<T>(s: State<T>, item: T): seq<Label<T>> {
    if CacheShowsRoom(s) then
      [PushBegin(item), PushWrite, PushPublish]
    else if |Waiting(s)| < |s.buffer| then
      [PushBegin(item), PushRefresh(|s.popped|), PushWrite, PushPublish]
    else
      [PushBegin(item), PushRefresh(|s.popped|)]
  }

  /** The steps of one pop that no producer step interrupts. */
  ghost function PopSteps<T>(s: State<T>): seq<Label<T>> {
    if s.head != s.tailCached then
      [PopBegin, PopRead, PopRelease]
    else if Waiting(s) != [] then
      [PopBegin, PopRefresh(|s.pushed|), PopRead, PopRelease]
    else
      [PopBegin, PopRefresh(|s.pushed|)]
  }

  /** The state after an uninterrupted push, by cases on room and on what the cache shows. */
  ghost function Pushed<T>(s: State<T>, item: T): State<T>
    requires Idle(s)
  {
    var r := if CacheShowsRoom(s) then s else s.(headCached := s.head, seenHead := |s.popped|);
    if |Waiting(s)| < |s.buffer| then
      r.(buffer := s.buffer[s.tail % |s.buffer| := item], tail := Succ64(s.tail), pushed := s.pushed + [item])
    else r
  }

  ghost function Popped<T>(s: State<T>): State<T>
    requires Idle(s)
  {
    var r := if s.head != s.tailCached then s else s.(tailCached := s.tail, seenTail := |s.pushed|);
    if Waiting(s) != [] then
      r.(head := Succ64(s.head), popped := s.popped + [s.pushed[|s.popped|]])
    else r
  }

  lemma Ordered<T>(s: State<T>)
    requires Inv(s)
    ensures |s.buffer| > 0 && s.popped <= s.pushed && s.seenHead <= |s.popped| <= s.seenTail <= |s.pushed|
    ensures s.tail == |s.pushed| % W64 && s.head == |s.popped| % W64
  {
  }

  lemma NextTail(t: u64, h: u64)
    ensures Sub64(Succ64(t), h) == Sub64(t + 1, h)
  {
  }

  lemma SizeIsWaiting<T>(s: State<T>)
    requires Idle(s)
    ensures Sub64(s.tail, s.head) == |Waiting(s)|
  {
    hide Sub64, Power, Capacity, Stored;
    BelowHalf(|s.buffer|);
    WrappedDifference(|s.pushed|, |s.popped|);
  }

  /** The wrapped comparisons decide what they mean: a visible free slot is free, and a fresh head shows every one. */
  lemma PushChecks<T>(s: State<T>)
    requires Idle(s)
    ensures Sub64(s.tail + 1, s.headCached) <= |s.buffer| <==> |s.pushed| < s.seenHead + |s.buffer|
    ensures Sub64(s.tail + 1, s.head) <= |s.buffer| <==> |Waiting(s)| < |s.buffer|
  {
    hide Sub64, Power, Capacity, Stored;
    BelowHalf(|s.buffer|);
    WrappedDifference(|s.pushed|, s.seenHead);
    WrappedDifference(|s.pushed|, |s.popped|);
  }

  lemma PopChecks<T>(s: State<T>)
    requires Idle(s)
    ensures s.head == s.tailCached <==> |s.popped| == s.seenTail
    ensures s.head == s.tail <==> Waiting(s) == []
    ensures Waiting(s) != [] ==> s.buffer[s.head % |s.buffer|] == s.pushed[|s.popped|]
  {
    hide Sub64, Power, Capacity;
    BelowHalf(|s.buffer|);
    SlotOfWrapped(|s.popped|, |s.buffer|);
    WrappedDifference(s.seenTail, |s.popped|);
    WrappedDifference(|s.pushed|, |s.popped|);
  }

  /** An uninterrupted push is a run of the machine, and it ends in Pushed. */
  lemma PushIsRun<T>(s: State<T>, item: T)
    requires Idle(s)
    ensures Leads(s, PushSteps(s, item), Pushed(s, item))
    ensures Idle(Pushed(s, item))
  {
    hide Inv, Sub64, Succ64;
    PushChecks(s);
    Ordered(s);
    var s1 := Next(s, PushBegin(item));
    var s2 := if CacheShowsRoom(s) then s1 else Next(s1, PushRefresh(|s.popped|));
    var tail: seq<Label<T>> := if |Waiting(s)| < |s.buffer| then [PushWrite, PushPublish] else [];
    if tail != [] {
      RunCons(Next(s2, PushWrite), PushPublish, []);
      RunCons(s2, PushWrite, [PushPublish]);
      assert [PushWrite] + [PushPublish] == tail;
    }
    if !CacheShowsRoom(s) {
      RunCons(s1, PushRefresh(|s.popped|), tail);
      RunCons(s, PushBegin(item), [PushRefresh(|s.popped|)] + tail);
      assert [PushBegin(item)] + ([PushRefresh(|s.popped|)] + tail) == PushSteps(s, item);
    } else {
      RunCons(s, PushBegin(item), tail);
      assert [PushBegin(item)] + tail == PushSteps(s, item);
    }
    RunInv(s, PushSteps(s, item));
  }

  /** An uninterrupted pop is a run of the machine, and it ends in Popped. */
  lemma PopIsRun<T>(s: State<T>)
    requires Idle(s)
    ensures Leads(s, PopSteps(s), Popped(s))
    ensures Idle(Popped(s))
  {
    hide Inv, Sub64, Succ64;
    PopChecks(s);
    Ordered(s);
    var s1 := Next(s, PopBegin);
    var s2 := if s.head != s.tailCached then s1 else Next(s1, PopRefresh(|s.pushed|));
    var tail: seq<Label<T>> := if Waiting(s) != [] then [PopRead, PopRelease] else [];
    if tail != [] {
      RunCons(Next(s2, PopRead), PopRelease, []);
      RunCons(s2, PopRead, [PopRelease]);
      assert [PopRead] + [PopRelease] == tail;
    }
    if s.head == s.tailCached {
      RunCons(s1, PopRefresh(|s.pushed|), tail);
      RunCons(s, PopBegin, [PopRefresh(|s.pushed|)] + tail);
      assert [PopBegin] + ([PopRefresh(|s.pushed|)] + tail) == PopSteps(s);
    } else {
      RunCons(s, PopBegin, tail);
      assert [PopBegin] + tail == PopSteps(s);
    }
    RunInv(s, PopSteps(s));
  }

  class SpscQueue<T(0)> {
    const buffer: array<T>
    var tail: u64
    var headCached: u64
    var head: u64
    var tailCached: u64
    ghost var pushed: seq<T>
    ghost var popped: seq<T>
    ghost var seenHead: nat
    ghost var seenTail: nat

    ghost function View(): State<T>
      reads this, buffer
    {
      State(buffer[..], tail, headCached, head, tailCached, ProducerIdle, ConsumerIdle,
            pushed, popped, seenHead, seenTail, map[])
    }

    ghost predicate Valid()
      reads this, buffer
    {
      Idle(View())
    }

    /** The queue's contents, oldest first. */
    ghost function Contents(): seq<T>
      reads this, buffer
    {
      Waiting(View())
    }

    constructor (capacity: nat)
      requires Capacity(capacity)
      ensures Valid() && fresh(buffer) && buffer.Length == capacity
      ensures Contents() == []
    {
      buffer := new T[capacity];
      tail, headCached, head, tailCached := 0, 0, 0, 0;
      pushed, popped, seenHead, seenTail := [], [], 0, 0;
      new;
      InitInv(buffer[..]);
    }

    /** Refused exactly when full; otherwise the item joins the end. */
    method Push(item: T) returns (ok: bool)
      requires Valid()
      modifies this, buffer
      ensures Valid()
      ensures Leads(old(View()), PushSteps(old(View()), item), View())
      ensures ok <==> |old(Contents())| < buffer.Length
      ensures Contents() == if ok then old(Contents()) + [item] else old(Contents())
    {
      hide Inv, Sub64, Power;
      ghost var s := View();
      PushChecks(s);
      Ordered(s);
      PushIsRun(s, item);
      var nextTail := Succ64(tail);
      NextTail(tail, headCached);
      NextTail(tail, head);
      if Sub64(nextTail, headCached) > buffer.Length {
        headCached := head;
        seenHead := |popped|;
        if Sub64(nextTail, headCached) > buffer.Length {
          assert View() == Pushed(s, item);
          return false;
        }
      }
      buffer[tail % buffer.Length] := item;
      tail := nextTail;
      pushed := pushed + [item];
      assert View() == Pushed(s, item);
      ok := true;
    }

    /** Refused exactly when empty; otherwise the oldest item leaves. */
    method Pop() returns (r: Option<T>)
      requires Valid()
      modifies this
      ensures Valid()
      ensures Leads(old(View()), PopSteps(old(View())), View())
      ensures old(Contents()) == [] ==> r == None && Contents() == []
      ensures old(Contents()) != [] ==> r == Some(old(Contents())[0]) && Contents() == old(Contents())[1..]
    {
      hide Inv, Sub64, Power;
      ghost var s := View();
      PopChecks(s);
      Ordered(s);
      PopIsRun(s);
      if head == tailCached {
        tailCached := tail;
        seenTail := |pushed|;
        if head == tailCached {
          assert View() == Popped(s);
          return None;
        }
      }
      var item := buffer[head % buffer.Length];
      head := Succ64(head);
      popped := popped + [item];
      assert View() == Popped(s);
      r := Some(item);
    }

    /** The number of items waiting, though the counters wrap. */
    method Size() returns (n: nat)
      requires Valid()
      ensures n == |Contents()|
    {
      SizeIsWaiting(View());
      n := Sub64(tail, head);
    }
  }
}
