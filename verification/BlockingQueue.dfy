/** The blocking queue between loggers and workers, as atomic steps of any number of producers and consumers.
    A step is what a thread does while it holds the mutex, or one notification. */
module BlockingQueue {
  import CircularQueue

  /** A thread that enqueues: not in a call, waiting on the pop condition, woken up from there and due to look again,
      or done with the push and due to notify a consumer. */
  datatype Producer<T> = Free | Blocked(item: T) | Awake(waiting: T) | Notifying

  /** A thread that dequeues, likewise. A woken one may have been woken by its time-out. */
  datatype Consumer<T> = Ready | Asleep | Roused(timedOut: bool) | Took(item: T)

  /** How an item left the queue. */
  datatype Exit<T> = Popped(item: T) | Overrun(item: T)

  datatype State<T> = State(
    cap: nat, q: seq<T>, producers: seq<Producer<T>>, consumers: seq<Consumer<T>>,
    pushed: seq<T>, gone: seq<Exit<T>>)

  datatype Step<T> =
    | Enqueue(p: nat, item: T)
    | EnqueueNowait(p: nat, item: T)
    | WakeProducer(p: nat)
    | RetryPush(p: nat)
    | NotifyPush(p: nat, c: nat)
    | Dequeue(c: nat)
    | WakeConsumer(c: nat, timedOut: bool)
    | RetryPop(c: nat)
    | NotifyPop(c: nat, p: nat)

  predicate IsNotifying<T>(p: Producer<T>) { p.Notifying? }
  predicate IsAwake<T>(p: Producer<T>) { p.Awake? }
  predicate IsBlocked<T>(p: Producer<T>) { p.Blocked? }
  predicate IsRoused<T>(c: Consumer<T>) { c.Roused? }
  predicate IsAsleep<T>(c: Consumer<T>) { c.Asleep? }
  predicate IsTook<T>(c: Consumer<T>) { c.Took? }

  function Count<T>(s: seq<T>, test: T -> bool): nat {
    if s == [] then 0 else Count(s[..|s| - 1], test) + if test(s[|s| - 1]) then 1 else 0
  }

  lemma {:induction false} CountUpdate<T>(s: seq<T>, test: T -> bool, i: nat, x: T)
    requires i < |s|
    ensures Count(s[i := x], test) == Count(s, test) - (if test(s[i]) then 1 else 0) + (if test(x) then 1 else 0)
  {
    var n := |s| - 1;
    if i < n {
      assert s[i := x][..n] == s[..n][i := x];
      CountUpdate(s[..n], test, i, x);
    } else {
      assert s[i := x][..n] == s[..n];
    }
  }

  lemma {:induction false} CountNone<T>(s: seq<T>, test: T -> bool)
    requires forall i :: 0 <= i < |s| ==> !test(s[i])
    ensures Count(s, test) == 0
  {
    if s != [] {
      CountNone(s[..|s| - 1], test);
    }
  }

  lemma {:induction false} CountSome<T>(s: seq<T>, test: T -> bool, i: nat)
    requires i < |s| && test(s[i])
    ensures Count(s, test) > 0
  {
    if i < |s| - 1 {
      CountSome(s[..|s| - 1], test, i);
    }
  }

  function Items<T>(gone: seq<Exit<T>>): seq<T> {
    seq(|gone|, i requires 0 <= i < |gone| => gone[i].item)
  }

  /** The item goes in at the end; if there is no room for it, the oldest goes. */
  function Push<T>(s: State<T>, item: T): State<T> {
    var all := s.q + [item];
    var t := s.(pushed := s.pushed + [item]);
    if |all| > s.cap then t.(q := all[1..], gone := s.gone + [Overrun(all[0])]) else t.(q := all)
  }

  /** This is the push of the ring underneath: the newest cap items stay. */
  lemma PushIsNewest<T>(s: State<T>, item: T)
    requires |s.q| <= s.cap
    ensures Push(s, item).q == CircularQueue.Newest(s.q + [item], s.cap)
  {
  }

  function Pop<T>(s: State<T>): State<T>
    requires s.q != []
  {
    s.(q := s.q[1..], gone := s.gone + [Popped(s.q[0])])
  }

  /** Holding the mutex, with the item in hand: push it if there is room, otherwise wait. */
  function PushOrWait<T>(s: State<T>, p: nat, item: T): State<T>
    requires p < |s.producers|
  {
    if |s.q| < s.cap then Push(s, item).(producers := s.producers[p := Notifying])
    else s.(producers := s.producers[p := Blocked(item)])
  }

  predicate Enabled<T>(s: State<T>, step: Step<T>) {
    match step
    case Enqueue(p, item) => p < |s.producers| && s.producers[p].Free?
    case EnqueueNowait(p, item) => p < |s.producers| && s.producers[p].Free?
    case WakeProducer(p) => p < |s.producers| && s.producers[p].Blocked?
    case RetryPush(p) => p < |s.producers| && s.producers[p].Awake?
    case NotifyPush(p, c) =>
      && p < |s.producers| && s.producers[p].Notifying?
      && if Count(s.consumers, IsAsleep) == 0 then c == |s.consumers| else c < |s.consumers| && s.consumers[c].Asleep?
    case Dequeue(c) => c < |s.consumers| && s.consumers[c].Ready?
    case WakeConsumer(c, timedOut) => c < |s.consumers| && s.consumers[c].Asleep?
    case RetryPop(c) => c < |s.consumers| && s.consumers[c].Roused?
    case NotifyPop(c, p) =>
      && c < |s.consumers| && s.consumers[c].Took?
      && if Count(s.producers, IsBlocked) == 0 then p == |s.producers| else p < |s.producers| && s.producers[p].Blocked?
  }

  function Next<T>(s: State<T>, step: Step<T>): State<T>
    requires Enabled(s, step)
  {
    match step
    case Enqueue(p, item) => PushOrWait(s, p, item)
    case EnqueueNowait(p, item) => Push(s, item).(producers := s.producers[p := Notifying])
    case WakeProducer(p) => s.(producers := s.producers[p := Awake(s.producers[p].item)])
    case RetryPush(p) => PushOrWait(s, p, s.producers[p].waiting)
    case NotifyPush(p, c) =>
      var t := s.(producers := s.producers[p := Free]);
      if c == |s.consumers| then t else t.(consumers := s.consumers[c := Roused(false)])
    case Dequeue(c) =>
      if s.q != [] then Pop(s).(consumers := s.consumers[c := Took(s.q[0])])
      else s.(consumers := s.consumers[c := Asleep])
    case WakeConsumer(c, timedOut) => s.(consumers := s.consumers[c := Roused(timedOut)])
    case RetryPop(c) =>
      if s.q != [] then Pop(s).(consumers := s.consumers[c := Took(s.q[0])])
      else s.(consumers := s.consumers[c := if s.consumers[c].timedOut then Ready else Asleep])
    case NotifyPop(c, p) =>
      var t := s.(consumers := s.consumers[c := Ready]);
      if p == |s.producers| then t else t.(producers := s.producers[p := Awake(s.producers[p].item)])
  }

  /** While a consumer sleeps, every queued item has a notification on its way or a consumer about to look. */
  ghost predicate ConsumersServed<T>(s: State<T>) {
    Count(s.consumers, IsAsleep) > 0 ==> |s.q| <= Count(s.producers, IsNotifying) + Count(s.consumers, IsRoused)
  }

  /** While a producer sleeps, every free slot has a notification on its way or a producer about to look. */
  ghost predicate ProducersServed<T>(s: State<T>) {
    Count(s.producers, IsBlocked) > 0 ==> s.cap - |s.q| <= Count(s.consumers, IsTook) + Count(s.producers, IsAwake)
  }

  /** First in, first out: what was pushed is what left, in order, and then what is queued. */
  ghost predicate InOrder<T>(s: State<T>) {
    |s.q| <= s.cap && s.pushed == Items(s.gone) + s.q
  }

  ghost predicate Inv<T>(s: State<T>) {
    InOrder(s) && ConsumersServed(s) && ProducersServed(s)
  }

  lemma ItemsSnoc<T>(gone: seq<Exit<T>>, e: Exit<T>)
    ensures Items(gone + [e]) == Items(gone) + [e.item]
  {
  }

  lemma PushInOrder<T>(s: State<T>, item: T)
    requires InOrder(s)
    ensures InOrder(Push(s, item))
  {
    var all := s.q + [item];
    ItemsSnoc(s.gone, Overrun(all[0]));
    assert all == [all[0]] + all[1..];
  }

  lemma PopInOrder<T>(s: State<T>)
    requires InOrder(s) && s.q != []
    ensures InOrder(Pop(s))
  {
    ItemsSnoc(s.gone, Popped(s.q[0]));
    assert s.q == [s.q[0]] + s.q[1..];
  }

  lemma ProducerChange<T>(ps: seq<Producer<T>>, p: nat, x: Producer<T>)
    requires p < |ps|
    ensures Count(ps[p := x], IsNotifying) ==
            Count(ps, IsNotifying) - (if ps[p].Notifying? then 1 else 0) + (if x.Notifying? then 1 else 0)
    ensures Count(ps[p := x], IsAwake) ==
            Count(ps, IsAwake) - (if ps[p].Awake? then 1 else 0) + (if x.Awake? then 1 else 0)
    ensures Count(ps[p := x], IsBlocked) ==
            Count(ps, IsBlocked) - (if ps[p].Blocked? then 1 else 0) + (if x.Blocked? then 1 else 0)
  {
    CountUpdate(ps, IsNotifying, p, x);
    CountUpdate(ps, IsAwake, p, x);
    CountUpdate(ps, IsBlocked, p, x);
  }

  lemma ConsumerChange<T>(cs: seq<Consumer<T>>, c: nat, x: Consumer<T>)
    requires c < |cs|
    ensures Count(cs[c := x], IsRoused) ==
            Count(cs, IsRoused) - (if cs[c].Roused? then 1 else 0) + (if x.Roused? then 1 else 0)
    ensures Count(cs[c := x], IsTook) ==
            Count(cs, IsTook) - (if cs[c].Took? then 1 else 0) + (if x.Took? then 1 else 0)
    ensures Count(cs[c := x], IsAsleep) ==
            Count(cs, IsAsleep) - (if cs[c].Asleep? then 1 else 0) + (if x.Asleep? then 1 else 0)
  {
    CountUpdate(cs, IsRoused, c, x);
    CountUpdate(cs, IsTook, c, x);
    CountUpdate(cs, IsAsleep, c, x);
  }

  lemma PushOrWaitKeeps<T>(s: State<T>, p: nat, item: T)
    requires Inv(s) && p < |s.producers| && (s.producers[p].Free? || s.producers[p].Awake?)
    ensures Inv(PushOrWait(s, p, item))
  {
    hide Count, Items;
    PushInOrder(s, item);
    ProducerChange(s.producers, p, Notifying);
    ProducerChange(s.producers, p, Blocked(item));
  }

  lemma PopKeeps<T>(s: State<T>, c: nat)
    requires Inv(s) && s.q != [] && c < |s.consumers| && (s.consumers[c].Ready? || s.consumers[c].Roused?)
    ensures Inv(Pop(s).(consumers := s.consumers[c := Took(s.q[0])]))
  {
    hide Count, Items;
    PopInOrder(s);
    ConsumerChange(s.consumers, c, Took(s.q[0]));
  }

  /** Every step keeps the invariant, spurious wake-ups and time-outs included. */
  lemma StepKeeps<T>(s: State<T>, step: Step<T>)
    requires Inv(s) && Enabled(s, step)
    ensures Inv(Next(s, step))
  {
    hide Count, Items;
    match step
    case Enqueue(p, item) => PushOrWaitKeeps(s, p, item);
    case EnqueueNowait(p, item) =>
      PushInOrder(s, item);
      ProducerChange(s.producers, p, Notifying);
    case WakeProducer(p) => ProducerChange(s.producers, p, Awake(s.producers[p].item));
    case RetryPush(p) => PushOrWaitKeeps(s, p, s.producers[p].waiting);
    case NotifyPush(p, c) =>
      ProducerChange(s.producers, p, Free);
      if c < |s.consumers| {
        ConsumerChange(s.consumers, c, Roused(false));
      }
    case Dequeue(c) =>
      if s.q != [] {
        PopKeeps(s, c);
      } else {
        ConsumerChange(s.consumers, c, Asleep);
      }
    case WakeConsumer(c, timedOut) => ConsumerChange(s.consumers, c, Roused(timedOut));
    case RetryPop(c) =>
      if s.q != [] {
        PopKeeps(s, c);
      } else {
        ConsumerChange(s.consumers, c, Asleep);
        ConsumerChange(s.consumers, c, Ready);
      }
    case NotifyPop(c, p) =>
      ConsumerChange(s.consumers, c, Ready);
      if p < |s.producers| {
        ProducerChange(s.producers, p, Awake(s.producers[p].item));
      }
  }

  /** A schedule that can happen. */
  ghost predicate Runs<T>(s: State<T>, steps: seq<Step<T>>)
    decreases |steps|
  {
    steps == [] || (Enabled(s, steps[0]) && Runs(Next(s, steps[0]), steps[1..]))
  }

  ghost function After<T>(s: State<T>, steps: seq<Step<T>>): State<T>
    requires Runs(s, steps)
    decreases |steps|
  {
    if steps == [] then s else After(Next(s, steps[0]), steps[1..])
  }

  ghost predicate Initial<T>(s: State<T>) {
    && s.q == [] && s.pushed == [] && s.gone == []
    && (forall i :: 0 <= i < |s.producers| ==> s.producers[i] == Free)
    && (forall i :: 0 <= i < |s.consumers| ==> s.consumers[i] == Ready)
  }

  lemma {:induction false} RunKeeps<T>(s: State<T>, steps: seq<Step<T>>)
    requires Inv(s) && Runs(s, steps)
    ensures Inv(After(s, steps))
    decreases |steps|
  {
    if steps != [] {
      StepKeeps(s, steps[0]);
      RunKeeps(Next(s, steps[0]), steps[1..]);
    }
  }

  lemma InitialInv<T>(s: State<T>)
    requires Initial(s)
    ensures Inv(s)
  {
    CountNone(s.consumers, IsAsleep);
    CountNone(s.producers, IsBlocked);
  }

  /** No wake-up is lost, in any run: when no notification is on its way and nobody was woken, a sleeping consumer
      means an empty queue, and a sleeping producer a full one. */
  lemma NoLostWakeUp<T>(s: State<T>, steps: seq<Step<T>>)
    requires Initial(s) && Runs(s, steps)
    ensures var t := After(s, steps);
      && Inv(t)
      && (Count(t.producers, IsNotifying) == Count(t.consumers, IsRoused) == 0 ==>
            Count(t.consumers, IsAsleep) > 0 ==> t.q == [])
      && (Count(t.consumers, IsTook) == Count(t.producers, IsAwake) == 0 ==>
            Count(t.producers, IsBlocked) > 0 ==> |t.q| == t.cap)
  {
    InitialInv(s);
    RunKeeps(s, steps);
  }

  ghost predicate SomeoneAwake<T>(s: State<T>) {
    || (exists i :: 0 <= i < |s.producers| && !s.producers[i].Blocked?)
    || (exists i :: 0 <= i < |s.consumers| && !s.consumers[i].Asleep?)
  }

  /** Producers and consumers never all sleep. */
  lemma NoDeadlock<T>(s: State<T>)
    requires Inv(s) && s.cap > 0 && s.producers != [] && s.consumers != []
    ensures SomeoneAwake(s)
  {
    if !SomeoneAwake(s) {
      CountNone(s.producers, IsNotifying);
      CountNone(s.producers, IsAwake);
      CountNone(s.consumers, IsRoused);
      CountNone(s.consumers, IsTook);
      CountSome(s.producers, IsBlocked, 0);
      CountSome(s.consumers, IsAsleep, 0);
    }
  }
}
