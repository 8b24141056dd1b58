/** How the calls of the blocking queue end, told from the steps of a run. */
module QueueCalls {
  import opened BlockingQueue

  /** What woke a consumer up last. */
  datatype Wake = Never | Notified | TimedOut

  ghost function LastWake<T>(steps: seq<Step<T>>, c: nat): Wake {
    if steps == [] then Never
    else
      var before, last := steps[..|steps| - 1], steps[|steps| - 1];
      if last.WakeConsumer? && last.c == c then if last.timedOut then TimedOut else Notified
      else if last.NotifyPush? && last.c == c then Notified
      else LastWake(before, c)
  }

  /** Everything the producers came with, and what is still in their hands. */
  ghost function Offered<T>(steps: seq<Step<T>>): multiset<T> {
    if steps == [] then multiset{}
    else
      var before, last := steps[..|steps| - 1], steps[|steps| - 1];
      Offered(before) + if last.Enqueue? || last.EnqueueNowait? then multiset{last.item} else multiset{}
  }

  ghost function Waiting<T>(p: Producer<T>): multiset<T> {
    if p.Blocked? then multiset{p.item} else if p.Awake? then multiset{p.waiting} else multiset{}
  }

  ghost function AllWaiting<T>(ps: seq<Producer<T>>): multiset<T> {
    if ps == [] then multiset{} else AllWaiting(ps[..|ps| - 1]) + Waiting(ps[|ps| - 1])
  }

  lemma {:induction false} OneMoreStep<T>(s: State<T>, steps: seq<Step<T>>, step: Step<T>)
    requires Runs(s, steps + [step])
    ensures Runs(s, steps) && Enabled(After(s, steps), step)
    ensures After(s, steps + [step]) == Next(After(s, steps), step)
    decreases |steps|
  {
    if steps == [] {
      assert [step][1..] == [];
      assert steps + [step] == [step];
      assert After(Next(s, step), []) == Next(s, step);
    } else {
      assert (steps + [step])[1..] == steps[1..] + [step];
      OneMoreStep(Next(s, steps[0]), steps[1..], step);
    }
  }

  ghost predicate WakesKnown<T>(s: State<T>, steps: seq<Step<T>>) {
    forall c :: 0 <= c < |s.consumers| && s.consumers[c].Roused? ==>
      (s.consumers[c].timedOut <==> LastWake(steps, c) == TimedOut)
  }

  lemma WakeStep<T>(s: State<T>, steps: seq<Step<T>>, step: Step<T>)
    requires Enabled(s, step) && WakesKnown(s, steps)
    ensures WakesKnown(Next(s, step), steps + [step])
  {
    hide Count;
    var t, all := Next(s, step), steps + [step];
    assert all[..|steps|] == steps;
    forall c | 0 <= c < |t.consumers| && t.consumers[c].Roused?
      ensures t.consumers[c].timedOut <==> LastWake(all, c) == TimedOut
    {
    }
  }

  lemma {:induction false} WakesInRun<T>(s: State<T>, steps: seq<Step<T>>)
    requires Initial(s) && Runs(s, steps)
    ensures WakesKnown(After(s, steps), steps) && |After(s, steps).consumers| == |s.consumers|
  {
    if steps != [] {
      hide WakesKnown, Next, Enabled, LastWake, Runs, After;
      var before, last := steps[..|steps| - 1], steps[|steps| - 1];
      assert steps == before + [last];
      OneMoreStep(s, before, last);
      WakesInRun(s, before);
      WakeStep(After(s, before), before, last);
      SameThreads(After(s, before), last);
    }
  }

  lemma SameThreads<T>(s: State<T>, step: Step<T>)
    requires Enabled(s, step)
    ensures |Next(s, step).consumers| == |s.consumers| && |Next(s, step).producers| == |s.producers|
    ensures Next(s, step).cap == s.cap
  {
    hide Count;
  }

  /** Inside dequeue_for, with no item yet. */
  predicate Inside<T>(c: Consumer<T>) {
    c.Asleep? || c.Roused?
  }

  /** A call of dequeue_for comes back without an item if and only if it looks after its time-out and finds the queue
      empty. Looking after its time-out it never goes back to sleep, and looking for any other reason at an empty queue
      it does. It has an item if and only if it looked at a queue that is not empty, and that was the oldest one. */
  lemma DequeueEndsIff<T>(s: State<T>, steps: seq<Step<T>>, step: Step<T>, c: nat)
    requires Initial(s) && Runs(s, steps) && Enabled(After(s, steps), step) && c < |s.consumers|
    ensures c < |After(s, steps).consumers| == |Next(After(s, steps), step).consumers|
    ensures var t := After(s, steps);
      var was, now, looks := t.consumers[c], Next(t, step).consumers[c], step == Dequeue(c) || step == RetryPop(c);
      && (Inside(was) && now.Ready? <==> step == RetryPop(c) && t.q == [] && LastWake(steps, c) == TimedOut)
      && (step == RetryPop(c) && LastWake(steps, c) == TimedOut ==> !now.Asleep?)
      && ((step == Dequeue(c) || (step == RetryPop(c) && LastWake(steps, c) != TimedOut)) ==>
            (now.Asleep? <==> t.q == []))
      && (!was.Took? && now.Took? <==> looks && t.q != [])
      && (!was.Took? && now.Took? ==> now.item == t.q[0] && Next(t, step).q == t.q[1..])
      && (was.Took? && now != was ==> now.Ready? && step.NotifyPop? && step.c == c)
  {
    hide Count;
    WakesInRun(s, steps);
  }

  // Producers.

  lemma {:induction false} WaitingUpdate<T>(ps: seq<Producer<T>>, p: nat, x: Producer<T>)
    requires p < |ps|
    ensures AllWaiting(ps[p := x]) + Waiting(ps[p]) == AllWaiting(ps) + Waiting(x)
  {
    hide Waiting;
    var n := |ps| - 1;
    if p < n {
      assert ps[p := x][..n] == ps[..n][p := x];
      WaitingUpdate(ps[..n], p, x);
      Beside(AllWaiting(ps[..n][p := x]), AllWaiting(ps[..n]), Waiting(ps[p]), Waiting(x), Waiting(ps[n]));
    } else {
      assert ps[p := x][..n] == ps[..n];
      Swapped(AllWaiting(ps[..n]), Waiting(x), Waiting(ps[p]));
    }
  }

  lemma Beside<T>(a: multiset<T>, b: multiset<T>, c: multiset<T>, d: multiset<T>, more: multiset<T>)
    requires a + c == b + d
    ensures (a + more) + c == (b + more) + d
  {
    assert (a + more) + c == (a + c) + more;
    assert (b + more) + d == (b + d) + more;
  }

  lemma Swapped<T>(a: multiset<T>, b: multiset<T>, c: multiset<T>)
    ensures (a + b) + c == (a + c) + b
  {
  }

  lemma Cancel<T>(a: multiset<T>, b: multiset<T>, c: multiset<T>)
    requires a + c == b + c
    ensures a == b
  {
    forall x
      ensures a[x] == b[x]
    {
      assert (a + c)[x] == (b + c)[x];
    }
  }

  lemma Plus<T>(a: multiset<T>, b: multiset<T>, c: multiset<T>, d: multiset<T>, e: multiset<T>)
    requires b + c == d + e
    ensures a + b + c == a + d + e
  {
    assert a + b + c == a + (b + c) && a + d + e == a + (d + e);
  }

  /** A producer whose hands change without a push holds the same as before. */
  lemma SameHands<T>(ps: seq<Producer<T>>, p: nat, x: Producer<T>)
    requires p < |ps| && Waiting(x) == Waiting(ps[p])
    ensures AllWaiting(ps[p := x]) == AllWaiting(ps)
  {
    hide AllWaiting, Waiting;
    WaitingUpdate(ps, p, x);
    Cancel(AllWaiting(ps[p := x]), AllWaiting(ps), Waiting(x));
  }

  /** Pushing moves an item from the hands of p, or from its new call, into the queue. */
  lemma PushOffer<T>(s: State<T>, p: nat, item: T)
    requires p < |s.producers|
    ensures multiset(Push(s, item).pushed) + AllWaiting(s.producers[p := Notifying]) + Waiting(s.producers[p])
         == multiset(s.pushed) + AllWaiting(s.producers) + multiset{item}
  {
    hide AllWaiting;
    WaitingUpdate(s.producers, p, Notifying);
    var a, b, w := multiset(s.pushed), AllWaiting(s.producers), Waiting(s.producers[p]);
    var now := AllWaiting(s.producers[p := Notifying]);
    assert multiset(s.pushed + [item]) == a + multiset{item};
    Plus(a, now, w, b, multiset{});
    assert (a + multiset{item}) + now + w == (a + now + w) + multiset{item};
  }

  lemma KeepOffer<T>(s: State<T>, p: nat, item: T)
    requires p < |s.producers|
    ensures multiset(s.pushed) + AllWaiting(s.producers[p := Blocked(item)]) + Waiting(s.producers[p])
         == multiset(s.pushed) + AllWaiting(s.producers) + multiset{item}
  {
    hide AllWaiting;
    WaitingUpdate(s.producers, p, Blocked(item));
    Plus(multiset(s.pushed), AllWaiting(s.producers[p := Blocked(item)]), Waiting(s.producers[p]),
         AllWaiting(s.producers), multiset{item});
  }

  /** What is pushed or in somebody's hands. */
  ghost function Known<T>(s: State<T>): multiset<T> {
    multiset(s.pushed) + AllWaiting(s.producers)
  }

  lemma PushOrWaitOffer<T>(s: State<T>, p: nat, item: T)
    requires p < |s.producers|
    ensures Known(PushOrWait(s, p, item)) + Waiting(s.producers[p]) == Known(s) + multiset{item}
  {
    hide AllWaiting, Waiting;
    PushOffer(s, p, item);
    KeepOffer(s, p, item);
  }

  lemma QuietStep<T>(s: State<T>, step: Step<T>)
    requires Enabled(s, step) && !step.Enqueue? && !step.EnqueueNowait?
    ensures Known(Next(s, step)) == Known(s)
  {
    hide Count, AllWaiting;
    match step
    case WakeProducer(p) => SameHands(s.producers, p, Awake(s.producers[p].item));
    case RetryPush(p) =>
      PushOrWaitOffer(s, p, s.producers[p].waiting);
      Cancel(Known(Next(s, step)), Known(s), Waiting(s.producers[p]));
    case NotifyPush(p, c) => SameHands(s.producers, p, Free);
    case NotifyPop(c, p) =>
      if p < |s.producers| {
        SameHands(s.producers, p, Awake(s.producers[p].item));
      }
    case _ =>
  }

  lemma CallStep<T>(s: State<T>, step: Step<T>)
    requires Enabled(s, step) && (step.Enqueue? || step.EnqueueNowait?)
    ensures Known(Next(s, step)) == Known(s) + multiset{step.item}
  {
    hide Count, AllWaiting;
    PushOrWaitOffer(s, step.p, step.item);
    PushOffer(s, step.p, step.item);
  }

  ghost predicate NothingMissing<T>(s: State<T>, steps: seq<Step<T>>) {
    Offered(steps) == Known(s)
  }

  lemma OfferStep<T>(s: State<T>, steps: seq<Step<T>>, step: Step<T>)
    requires Enabled(s, step) && NothingMissing(s, steps)
    ensures NothingMissing(Next(s, step), steps + [step])
  {
    hide Known, Next, Enabled;
    assert (steps + [step])[..|steps|] == steps;
    if step.Enqueue? || step.EnqueueNowait? {
      CallStep(s, step);
    } else {
      QuietStep(s, step);
    }
  }

  /** In any run, every item a producer came with was pushed once or is still in its hands. */
  lemma {:induction false} EveryOfferPushed<T>(s: State<T>, steps: seq<Step<T>>)
    requires Initial(s) && Runs(s, steps)
    ensures NothingMissing(After(s, steps), steps)
  {
    if steps != [] {
      hide NothingMissing, Next, Enabled, Runs, After;
      var before, last := steps[..|steps| - 1], steps[|steps| - 1];
      assert steps == before + [last];
      OneMoreStep(s, before, last);
      EveryOfferPushed(s, before);
      OfferStep(After(s, before), before, last);
    } else {
      NobodyWaits(s.producers);
    }
  }

  lemma {:induction false} NobodyWaits<T>(ps: seq<Producer<T>>)
    requires forall p :: 0 <= p < |ps| ==> ps[p] == Free
    ensures AllWaiting(ps) == multiset{}
  {
    if ps != [] {
      NobodyWaits(ps[..|ps| - 1]);
    }
  }

  /** How an item leaves the queue: dropped by an enqueue that does not wait, when the queue is full, as the oldest one;
      or taken by a consumer that looks; and in no other way. */
  lemma LeavesIff<T>(s: State<T>, step: Step<T>)
    requires Inv(s) && Enabled(s, step)
    ensures var t, looks := Next(s, step), step.Dequeue? || step.RetryPop?;
      if step.EnqueueNowait? && |s.q| == s.cap then t.gone == s.gone + [Overrun((s.q + [step.item])[0])]
      else if looks && s.q != [] then t.gone == s.gone + [Popped(s.q[0])]
      else t.gone == s.gone
  {
    hide Count, Items;
  }

  /** A call of enqueue sleeps, at first or again, if and only if it looks at a full queue; otherwise its item is
      pushed. */
  lemma EnqueueSleepsIff<T>(s: State<T>, step: Step<T>, p: nat)
    requires Inv(s) && Enabled(s, step) && p < |s.producers|
    ensures var was, t := s.producers[p], Next(s, step);
      var looks := (step.Enqueue? || step.RetryPush?) && step.p == p;
      && p < |t.producers|
      && (looks ==> (t.producers[p].Blocked? <==> |s.q| == s.cap))
      && (looks && |s.q| < s.cap ==> t.pushed == s.pushed + [if step.Enqueue? then step.item else was.waiting])
      && (looks && |s.q| < s.cap ==> t.producers[p].Notifying?)
      && (!was.Free? && t.producers[p].Free? ==> was.Notifying?)
  {
    hide Count, Items;
  }
}
