/** The worker pool of the asynchronous logger, from its start to the join, on top of the blocking queue. */
module ThreadPool {
  import opened BlockingQueue

  datatype Msg = Log(id: nat) | Flush(id: nat) | Terminate

  /** What a worker does between two calls of the queue. */
  datatype Worker = Looping | Handling(msg: Msg) | Exited

  /** Producer 0 is the thread in the destructor; asked counts the terminate messages it has begun to post.
      handled lists what workers have finished. */
  datatype Pool = Pool(bq: State<Msg>, workers: seq<Worker>, stopping: bool, asked: nat, handled: seq<Msg>)

  datatype Act =
    | Post(p: nat, msg: Msg, block: bool)
    | Stop
    | PostTerminate
    | Queue(step: Step<Msg>)
    | Handle(c: nat)

  function Start(cap: nat, n: nat, producers: nat): Pool {
    Pool(State(cap, [], seq(producers + 1, _ => Free), seq(n, _ => Ready), [], []),
         seq(n, _ => Looping), false, 0, [])
  }

  datatype Constructed = Refused(reason: string) | Running(pool: Pool)

  /** The constructor refuses a pool without threads or with more than a thousand. */
  function Construct(cap: nat, n: nat, producers: nat): (c: Constructed)
    ensures c.Running? <==> 1 <= n <= 1000
  {
    if n == 0 || n > 1000 then Refused("invalid threads_n param") else Running(Start(cap, n, producers))
  }

  /** Steps inside the queue that need no new call, except that a looping worker calls for the next message. */
  predicate Inner(pool: Pool, step: Step<Msg>) {
    match step
    case Enqueue(_, _) => false
    case EnqueueNowait(_, _) => false
    case Dequeue(c) => c < |pool.workers| && pool.workers[c].Looping?
    case NotifyPop(c, _) => c < |pool.workers|
    case _ => true
  }

  function PostStep(a: Act): Step<Msg>
    requires a.Post?
  {
    if a.block then Enqueue(a.p, a.msg) else EnqueueNowait(a.p, a.msg)
  }

  predicate AllFree(ps: seq<Producer<Msg>>) {
    forall p :: 0 <= p < |ps| ==> ps[p].Free?
  }

  /** What can happen. Other threads may post at any time, also while the destructor runs. */
  predicate Allowed(pool: Pool, a: Act) {
    match a
    case Post(p, msg, block) => p > 0 && !msg.Terminate? && Enabled(pool.bq, PostStep(a))
    case Stop => !pool.stopping
    case PostTerminate => pool.stopping && pool.asked < |pool.workers| && Enabled(pool.bq, Enqueue(0, Terminate))
    case Queue(step) => Inner(pool, step) && Enabled(pool.bq, step)
    case Handle(c) => c < |pool.workers| && pool.workers[c].Handling?
  }

  function Done(pool: Pool, a: Act): Pool
    requires Allowed(pool, a)
  {
    match a
    case Post(p, msg, block) => pool.(bq := Next(pool.bq, PostStep(a)))
    case Stop => pool.(stopping := true)
    case PostTerminate => pool.(asked := pool.asked + 1, bq := Next(pool.bq, Enqueue(0, Terminate)))
    case Queue(step) =>
      if step.NotifyPop?
      then pool.(bq := Next(pool.bq, step), workers := pool.workers[step.c := Handling(pool.bq.consumers[step.c].item)])
      else pool.(bq := Next(pool.bq, step))
    case Handle(c) =>
      pool.(handled := pool.handled + [pool.workers[c].msg],
            workers := pool.workers[c := if pool.workers[c].msg.Terminate? then Exited else Looping])
  }

  predicate IsTerm(m: Msg) { m.Terminate? }
  predicate TookTerm(c: Consumer<Msg>) { c.Took? && c.item.Terminate? }
  predicate EndsSoon(w: Worker) { w.Handling? && w.msg.Terminate? }
  predicate IsLive(w: Worker) { !w.Exited? }

  function Holds(p: Producer<Msg>): nat {
    if p.Blocked? || p.Awake? then 1 else 0
  }

  /** Terminate messages between the destructor's call and the worker that takes them out. */
  function TermsInside(s: State<Msg>): nat
    requires s.producers != []
  {
    Holds(s.producers[0]) + Count(s.q, IsTerm) + Count(s.consumers, TookTerm)
  }

  /** Terminate messages the overrun policy pushed out. */
  function TermsLost(gone: seq<Exit<Msg>>): nat {
    Count(Lost(gone), IsTerm)
  }

  /** Live workers are matched one to one by terminate messages still to act, and by lost ones. */
  ghost predicate Matched(pool: Pool) {
    && pool.bq.producers != [] && pool.asked <= |pool.workers|
    && Count(pool.workers, IsLive) ==
       |pool.workers| - pool.asked + TermsInside(pool.bq) + Count(pool.workers, EndsSoon) + TermsLost(pool.bq.gone)
  }

  ghost predicate NoTerms(s: seq<Msg>) {
    forall i :: 0 <= i < |s| ==> !s[i].Terminate?
  }

  /** What a producer holds: the destructor terminate messages only, others never. */
  ghost predicate HoldsOwn(ps: seq<Producer<Msg>>, stopping: bool) {
    && ps != []
    && (ps[0].Blocked? ==> ps[0].item.Terminate?) && (ps[0].Awake? ==> ps[0].waiting.Terminate?)
    && (!stopping ==> ps[0].Free?)
    && (forall p :: 0 < p < |ps| ==>
          (ps[p].Blocked? ==> !ps[p].item.Terminate?) && (ps[p].Awake? ==> !ps[p].waiting.Terminate?))
  }

  ghost predicate Phase(pool: Pool) {
    && HoldsOwn(pool.bq.producers, pool.stopping)
    && (!pool.stopping ==> pool.asked == 0)
    && Count(pool.bq.pushed, IsTerm) + Holds(pool.bq.producers[0]) == pool.asked
  }

  /** A worker is inside the queue or outside of it. */
  ghost predicate Coupled(workers: seq<Worker>, consumers: seq<Consumer<Msg>>) {
    && |workers| == |consumers|
    && forall c :: 0 <= c < |workers| ==> workers[c].Looping? || consumers[c].Ready?
  }

  function TakenOut(gone: seq<Exit<Msg>>): seq<Msg> {
    if gone == [] then []
    else TakenOut(gone[..|gone| - 1]) + if gone[|gone| - 1].Popped? then [gone[|gone| - 1].item] else []
  }

  function Lost(gone: seq<Exit<Msg>>): seq<Msg> {
    if gone == [] then []
    else Lost(gone[..|gone| - 1]) + if gone[|gone| - 1].Overrun? then [gone[|gone| - 1].item] else []
  }

  function Taken(c: Consumer<Msg>): multiset<Msg> {
    if c.Took? then multiset{c.item} else multiset{}
  }

  function Worked(w: Worker): multiset<Msg> {
    if w.Handling? then multiset{w.msg} else multiset{}
  }

  function InHand(cs: seq<Consumer<Msg>>): multiset<Msg> {
    if cs == [] then multiset{} else InHand(cs[..|cs| - 1]) + Taken(cs[|cs| - 1])
  }

  function InWork(ws: seq<Worker>): multiset<Msg> {
    if ws == [] then multiset{} else InWork(ws[..|ws| - 1]) + Worked(ws[|ws| - 1])
  }

  /** Each message taken out is handled once, or in the hands of one worker. */
  ghost predicate OnceEach(pool: Pool) {
    multiset(TakenOut(pool.bq.gone)) == multiset(pool.handled) + InHand(pool.bq.consumers) + InWork(pool.workers)
  }

  ghost predicate PoolInv(pool: Pool) {
    && Inv(pool.bq)
    && Coupled(pool.workers, pool.bq.consumers)
    && Phase(pool)
    && Matched(pool)
    && OnceEach(pool)
  }

  // Counting terminate messages.

  lemma {:induction false} CountSnoc<T>(s: seq<T>, test: T -> bool, x: T)
    ensures Count(s + [x], test) == Count(s, test) + if test(x) then 1 else 0
  {
    assert (s + [x])[..|s|] == s;
  }

  lemma {:induction false} CountCons<T>(s: seq<T>, test: T -> bool)
    requires s != []
    ensures Count(s, test) == Count(s[1..], test) + if test(s[0]) then 1 else 0
  {
    var n := |s| - 1;
    if n > 0 {
      assert s[..n][1..] == s[1..][..n - 1];
      CountCons(s[..n], test);
    } else {
      assert s[1..] == [] && s[..0] == [];
    }
  }

  lemma Beside(a: multiset<Msg>, b: multiset<Msg>, c: multiset<Msg>, d: multiset<Msg>, more: multiset<Msg>)
    requires a + c == b + d
    ensures (a + more) + c == (b + more) + d
  {
    assert (a + more) + c == (a + c) + more;
    assert (b + more) + d == (b + d) + more;
  }

  lemma Swapped(a: multiset<Msg>, b: multiset<Msg>, c: multiset<Msg>)
    ensures (a + b) + c == (a + c) + b
  {
  }

  lemma {:induction false} InHandUpdate(cs: seq<Consumer<Msg>>, c: nat, x: Consumer<Msg>)
    requires c < |cs|
    ensures InHand(cs[c := x]) + Taken(cs[c]) == InHand(cs) + Taken(x)
  {
    hide Taken;
    var n := |cs| - 1;
    if c < n {
      assert cs[c := x][..n] == cs[..n][c := x];
      InHandUpdate(cs[..n], c, x);
      Beside(InHand(cs[..n][c := x]), InHand(cs[..n]), Taken(cs[c]), Taken(x), Taken(cs[n]));
    } else {
      assert cs[c := x][..n] == cs[..n];
      Swapped(InHand(cs[..n]), Taken(x), Taken(cs[c]));
    }
  }

  lemma {:induction false} InWorkUpdate(ws: seq<Worker>, c: nat, x: Worker)
    requires c < |ws|
    ensures InWork(ws[c := x]) + Worked(ws[c]) == InWork(ws) + Worked(x)
  {
    hide Worked;
    var n := |ws| - 1;
    if c < n {
      assert ws[c := x][..n] == ws[..n][c := x];
      InWorkUpdate(ws[..n], c, x);
      Beside(InWork(ws[..n][c := x]), InWork(ws[..n]), Worked(ws[c]), Worked(x), Worked(ws[n]));
    } else {
      assert ws[c := x][..n] == ws[..n];
      Swapped(InWork(ws[..n]), Worked(x), Worked(ws[c]));
    }
  }

  lemma TakenOutSnoc(gone: seq<Exit<Msg>>, e: Exit<Msg>)
    ensures TakenOut(gone + [e]) == TakenOut(gone) + if e.Popped? then [e.item] else []
    ensures Lost(gone + [e]) == Lost(gone) + if e.Overrun? then [e.item] else []
  {
    assert (gone + [e])[..|gone|] == gone;
  }

  // The queue's share of the invariant, step by step.

  /** What is queued was pushed. */
  lemma QueuedWasPushed(s: State<Msg>)
    requires InOrder(s)
    ensures NoTerms(s.pushed) ==> NoTerms(s.q)
    ensures s.q != [] ==> s.q[|s.q| - 1] == s.pushed[|s.pushed| - 1]
  {
    forall i | 0 <= i < |s.q|
      ensures s.q[i] == s.pushed[|Items(s.gone)| + i]
    {
    }
  }

  /** A push adds one message, queued or lost in place of another. */
  lemma PushTerms(s: State<Msg>, x: Msg)
    requires InOrder(s)
    ensures var t := Push(s, x);
      && Count(t.q, IsTerm) + TermsLost(t.gone) ==
         Count(s.q, IsTerm) + TermsLost(s.gone) + (if x.Terminate? then 1 else 0)
      && TakenOut(t.gone) == TakenOut(s.gone)
      && TermsLost(t.gone) ==
         TermsLost(s.gone) + (if |s.q| == s.cap && (s.q + [x])[0].Terminate? then 1 else 0)
  {
    hide Lost, TakenOut, Items;
    var all := s.q + [x];
    CountSnoc(s.q, IsTerm, x);
    if |all| > s.cap {
      CountCons(all, IsTerm);
      TakenOutSnoc(s.gone, Overrun(all[0]));
      CountSnoc(Lost(s.gone), IsTerm, all[0]);
    }
  }

  // Each act keeps the invariant.

  /** Pushing or waiting, with a message the thread may hold. */
  lemma PushOrWaitTerms(s: State<Msg>, stopping: bool, p: nat, x: Msg)
    requires InOrder(s) && HoldsOwn(s.producers, stopping) && p < |s.producers|
    requires if p == 0 then stopping && x.Terminate? else !x.Terminate?
    ensures var t := PushOrWait(s, p, x);
      && HoldsOwn(t.producers, stopping)
      && TermsInside(t) == TermsInside(s) + (if p == 0 then 1 - Holds(s.producers[0]) else 0)
      && Count(t.pushed, IsTerm) + Holds(t.producers[0]) ==
         Count(s.pushed, IsTerm) + Holds(s.producers[0]) + (if p == 0 then 1 - Holds(s.producers[0]) else 0)
      && t.consumers == s.consumers && TakenOut(t.gone) == TakenOut(s.gone) && TermsLost(t.gone) == TermsLost(s.gone)
  {
    hide Count, Items, TakenOut, TermsLost;
    CountSnoc(s.pushed, IsTerm, x);
    if |s.q| < s.cap {
      PushTerms(s, x);
    }
  }

  lemma PostKeeps(pool: Pool, p: nat, msg: Msg, block: bool)
    requires PoolInv(pool) && Allowed(pool, Post(p, msg, block))
    ensures PoolInv(Done(pool, Post(p, msg, block)))
  {
    hide Count, Items, TakenOut, InHand, InWork, Inv, TermsLost;
    var s := pool.bq;
    StepKeeps(s, PostStep(Post(p, msg, block)));
    InvInOrder(s);
    if block {
      PushOrWaitTerms(s, pool.stopping, p, msg);
    } else {
      PushTerms(s, msg);
      CountSnoc(s.pushed, IsTerm, msg);
    }
  }

  lemma InvInOrder(s: State<Msg>)
    requires Inv(s)
    ensures InOrder(s)
  {
  }

  lemma PostTerminateKeeps(pool: Pool)
    requires PoolInv(pool) && Allowed(pool, PostTerminate)
    ensures PoolInv(Done(pool, PostTerminate))
  {
    hide Count, Items, TakenOut, InHand, InWork, Inv, TermsLost;
    StepKeeps(pool.bq, Enqueue(0, Terminate));
    InvInOrder(pool.bq);
    PushOrWaitTerms(pool.bq, true, 0, Terminate);
  }

  lemma RetryPushKeeps(pool: Pool, p: nat)
    requires PoolInv(pool) && Allowed(pool, Queue(RetryPush(p)))
    ensures PoolInv(Done(pool, Queue(RetryPush(p))))
  {
    hide Count, Items, TakenOut, InHand, InWork, Inv, TermsLost;
    StepKeeps(pool.bq, RetryPush(p));
    InvInOrder(pool.bq);
    PushOrWaitTerms(pool.bq, pool.stopping, p, pool.bq.producers[p].waiting);
  }

  /** A consumer changes without taking or giving anything. */
  lemma ConsumerMoves(cs: seq<Consumer<Msg>>, ws: seq<Worker>, c: nat, x: Consumer<Msg>)
    requires c < |cs| && !cs[c].Took? && !x.Took? && Coupled(ws, cs) && ws[c].Looping?
    ensures Coupled(ws, cs[c := x]) && InHand(cs[c := x]) == InHand(cs)
    ensures Count(cs[c := x], TookTerm) == Count(cs, TookTerm)
  {
    hide Count, InHand;
    CountUpdate(cs, TookTerm, c, x);
    InHandUpdate(cs, c, x);
    assert InHand(cs[c := x]) + multiset{} == InHand(cs[c := x]) && InHand(cs) + multiset{} == InHand(cs);
  }

  lemma WakeProducerKeeps(pool: Pool, p: nat)
    requires PoolInv(pool) && Allowed(pool, Queue(WakeProducer(p)))
    ensures PoolInv(Done(pool, Queue(WakeProducer(p))))
  {
    hide Count, Items, TakenOut, InHand, InWork, Inv, TermsLost;
    StepKeeps(pool.bq, WakeProducer(p));
  }

  lemma NotifyPushKeeps(pool: Pool, p: nat, c: nat)
    requires PoolInv(pool) && Allowed(pool, Queue(NotifyPush(p, c)))
    ensures PoolInv(Done(pool, Queue(NotifyPush(p, c))))
  {
    hide Count, Items, TakenOut, InHand, InWork, Inv, TermsLost;
    StepKeeps(pool.bq, NotifyPush(p, c));
    if c < |pool.bq.consumers| {
      ConsumerMoves(pool.bq.consumers, pool.workers, c, Roused(false));
    }
  }

  lemma WakeConsumerKeeps(pool: Pool, c: nat, timedOut: bool)
    requires PoolInv(pool) && Allowed(pool, Queue(WakeConsumer(c, timedOut)))
    ensures PoolInv(Done(pool, Queue(WakeConsumer(c, timedOut))))
  {
    hide Count, Items, TakenOut, InHand, InWork, Inv, TermsLost;
    StepKeeps(pool.bq, WakeConsumer(c, timedOut));
    ConsumerMoves(pool.bq.consumers, pool.workers, c, Roused(timedOut));
  }

  /** Taking the front message moves one terminate message at most from the queue into a worker's hands. */
  lemma TakeTerms(s: State<Msg>, c: nat)
    requires s.q != [] && c < |s.consumers| && !s.consumers[c].Took? && s.producers != []
    ensures var t := Pop(s).(consumers := s.consumers[c := Took(s.q[0])]);
      && TermsInside(t) == TermsInside(s)
      && TakenOut(t.gone) == TakenOut(s.gone) + [s.q[0]] && TermsLost(t.gone) == TermsLost(s.gone)
      && InHand(t.consumers) == InHand(s.consumers) + multiset{s.q[0]}
  {
    hide Count, TakenOut, InHand, Lost;
    var x := Took(s.q[0]);
    CountCons(s.q, IsTerm);
    CountUpdate(s.consumers, TookTerm, c, x);
    InHandUpdate(s.consumers, c, x);
    TakenOutSnoc(s.gone, Popped(s.q[0]));
    assert Lost(s.gone) + [] == Lost(s.gone);
  }

  lemma TakeKeeps(pool: Pool, c: nat, step: Step<Msg>)
    requires PoolInv(pool) && (step == Dequeue(c) || step == RetryPop(c)) && Allowed(pool, Queue(step))
    requires pool.bq.q != []
    ensures PoolInv(Done(pool, Queue(step)))
  {
    hide Count, Items, TakenOut, InHand, InWork, Inv, TermsLost, TermsInside;
    StepKeeps(pool.bq, step);
    TakeTerms(pool.bq, c);
    OneMoreOut(TakenOut(pool.bq.gone), pool.bq.q[0], pool.handled, InHand(pool.bq.consumers), InWork(pool.workers));
  }

  lemma OneMoreOut(out: seq<Msg>, m: Msg, handled: seq<Msg>, hand: multiset<Msg>, work: multiset<Msg>)
    requires multiset(out) == multiset(handled) + hand + work
    ensures multiset(out + [m]) == multiset(handled) + (hand + multiset{m}) + work
  {
    assert multiset(out + [m]) == multiset(out) + multiset{m};
  }

  lemma LookKeeps(pool: Pool, c: nat, step: Step<Msg>)
    requires PoolInv(pool) && (step == Dequeue(c) || step == RetryPop(c)) && Allowed(pool, Queue(step))
    requires pool.bq.q == []
    ensures PoolInv(Done(pool, Queue(step)))
  {
    hide Count, Items, TakenOut, InHand, InWork, Inv, TermsLost;
    StepKeeps(pool.bq, step);
    ConsumerMoves(pool.bq.consumers, pool.workers, c, Next(pool.bq, step).consumers[c]);
  }

  lemma NotifyPopKeeps(pool: Pool, c: nat, p: nat)
    requires PoolInv(pool) && Allowed(pool, Queue(NotifyPop(c, p)))
    ensures PoolInv(Done(pool, Queue(NotifyPop(c, p))))
  {
    hide Count, Items, TakenOut, InHand, InWork, Inv, TermsLost;
    StepKeeps(pool.bq, NotifyPop(c, p));
    var cs, m := pool.bq.consumers, pool.bq.consumers[c].item;
    CountUpdate(cs, TookTerm, c, Ready);
    InHandUpdate(cs, c, Ready);
    CountUpdate(pool.workers, EndsSoon, c, Handling(m));
    CountUpdate(pool.workers, IsLive, c, Handling(m));
    InWorkUpdate(pool.workers, c, Handling(m));
    HandToWork(multiset(pool.handled), InHand(cs), InHand(cs[c := Ready]), InWork(pool.workers),
               InWork(pool.workers[c := Handling(m)]), m);
  }

  lemma HandToWork(h: multiset<Msg>, hand: multiset<Msg>, hand1: multiset<Msg>,
                   work: multiset<Msg>, work1: multiset<Msg>, m: Msg)
    requires hand1 + multiset{m} == hand && work1 == work + multiset{m}
    ensures h + hand1 + work1 == h + hand + work
  {
  }

  lemma HandleKeeps(pool: Pool, c: nat)
    requires PoolInv(pool) && Allowed(pool, Handle(c))
    ensures PoolInv(Done(pool, Handle(c)))
  {
    hide Count, Items, TakenOut, InHand, InWork, Inv, TermsLost, TermsInside;
    var w := if pool.workers[c].msg.Terminate? then Exited else Looping;
    CountUpdate(pool.workers, EndsSoon, c, w);
    CountUpdate(pool.workers, IsLive, c, w);
    InWorkUpdate(pool.workers, c, w);
    WorkDone(pool.handled, InHand(pool.bq.consumers), InWork(pool.workers), InWork(pool.workers[c := w]),
             pool.workers[c].msg);
  }

  lemma WorkDone(handled: seq<Msg>, hand: multiset<Msg>, work: multiset<Msg>, work1: multiset<Msg>, m: Msg)
    requires work1 + multiset{m} == work
    ensures multiset(handled + [m]) + hand + work1 == multiset(handled) + hand + work
  {
    assert multiset(handled + [m]) == multiset(handled) + multiset{m};
  }

  lemma StopKeeps(pool: Pool)
    requires PoolInv(pool) && Allowed(pool, Stop)
    ensures PoolInv(Done(pool, Stop))
  {
    hide Count, Items, TakenOut, InHand, InWork, Inv, TermsLost, TermsInside;
  }

  /** Whatever happens, the invariant holds. */
  lemma ActKeeps(pool: Pool, a: Act)
    requires PoolInv(pool) && Allowed(pool, a)
    ensures PoolInv(Done(pool, a))
  {
    hide PoolInv;
    match a
    case Post(p, msg, block) => PostKeeps(pool, p, msg, block);
    case Stop => StopKeeps(pool);
    case PostTerminate => PostTerminateKeeps(pool);
    case Handle(c) => HandleKeeps(pool, c);
    case Queue(step) =>
      match step {
        case WakeProducer(p) => WakeProducerKeeps(pool, p);
        case RetryPush(p) => RetryPushKeeps(pool, p);
        case NotifyPush(p, c) => NotifyPushKeeps(pool, p, c);
        case WakeConsumer(c, timedOut) => WakeConsumerKeeps(pool, c, timedOut);
        case Dequeue(c) => if pool.bq.q != [] { TakeKeeps(pool, c, step); } else { LookKeeps(pool, c, step); }
        case RetryPop(c) => if pool.bq.q != [] { TakeKeeps(pool, c, step); } else { LookKeeps(pool, c, step); }
        case NotifyPop(c, p) => NotifyPopKeeps(pool, c, p);
      }
  }

  // Whole runs.

  ghost predicate Runs(pool: Pool, acts: seq<Act>)
    decreases |acts|
  {
    acts == [] || (Allowed(pool, acts[0]) && Runs(Done(pool, acts[0]), acts[1..]))
  }

  ghost function After(pool: Pool, acts: seq<Act>): Pool
    requires Runs(pool, acts)
    decreases |acts|
  {
    if acts == [] then pool else After(Done(pool, acts[0]), acts[1..])
  }

  lemma {:induction false} CountAll<T>(s: seq<T>, test: T -> bool)
    requires forall i :: 0 <= i < |s| ==> test(s[i])
    ensures Count(s, test) == |s|
  {
    if s != [] {
      CountAll(s[..|s| - 1], test);
    }
  }

  lemma {:induction false} NothingInHand(cs: seq<Consumer<Msg>>)
    requires forall i :: 0 <= i < |cs| ==> !cs[i].Took?
    ensures InHand(cs) == multiset{}
  {
    if cs != [] {
      NothingInHand(cs[..|cs| - 1]);
    }
  }

  lemma {:induction false} NothingInWork(ws: seq<Worker>)
    requires forall i :: 0 <= i < |ws| ==> !ws[i].Handling?
    ensures InWork(ws) == multiset{}
  {
    if ws != [] {
      NothingInWork(ws[..|ws| - 1]);
    }
  }

  lemma StartInv(cap: nat, n: nat, producers: nat)
    ensures PoolInv(Start(cap, n, producers))
  {
    var pool := Start(cap, n, producers);
    InitialInv(pool.bq);
    CountAll(pool.workers, IsLive);
    CountNone(pool.workers, EndsSoon);
    CountNone(pool.bq.consumers, TookTerm);
    CountNone(pool.bq.pushed, IsTerm);
    NothingInHand(pool.bq.consumers);
    NothingInWork(pool.workers);
  }

  lemma {:induction false} RunKeepsPool(pool: Pool, acts: seq<Act>)
    requires PoolInv(pool) && Runs(pool, acts)
    ensures PoolInv(After(pool, acts)) && |After(pool, acts).workers| == |pool.workers|
    ensures After(pool, acts).bq.cap == pool.bq.cap
    decreases |acts|
  {
    hide PoolInv;
    if acts != [] {
      ActKeeps(pool, acts[0]);
      RunKeepsPool(Done(pool, acts[0]), acts[1..]);
    }
  }

  predicate Joined(pool: Pool) {
    forall c :: 0 <= c < |pool.workers| ==> pool.workers[c].Exited?
  }

  lemma {:induction false} OutOrLost(gone: seq<Exit<Msg>>)
    ensures multiset(Items(gone)) == multiset(TakenOut(gone)) + multiset(Lost(gone))
  {
    if gone != [] {
      var before, e := gone[..|gone| - 1], gone[|gone| - 1];
      OutOrLost(before);
      assert gone == before + [e];
      ItemsSnoc(before, e);
      TakenOutSnoc(before, e);
      assert multiset(Items(before) + [e.item]) == multiset(Items(before)) + multiset{e.item};
      assert multiset(TakenOut(before) + [e.item]) == multiset(TakenOut(before)) + multiset{e.item};
      assert multiset(Lost(before) + [e.item]) == multiset(Lost(before)) + multiset{e.item};
    }
  }

  lemma JoinedCounts(pool: Pool)
    requires Coupled(pool.workers, pool.bq.consumers) && Joined(pool)
    ensures Count(pool.workers, IsLive) == Count(pool.workers, EndsSoon) == Count(pool.bq.consumers, TookTerm) == 0
    ensures InHand(pool.bq.consumers) == multiset{} == InWork(pool.workers)
  {
    CountNone(pool.workers, IsLive);
    CountNone(pool.workers, EndsSoon);
    CountNone(pool.bq.consumers, TookTerm);
    NothingInHand(pool.bq.consumers);
    NothingInWork(pool.workers);
  }

  // Runs without late posts.

  /** Nobody posts once the destructor runs, and it starts when no post is in progress. */
  predicate Orderly(pool: Pool, a: Act) {
    && (a.Stop? ==> AllFree(pool.bq.producers))
    && (a.Post? ==> !pool.stopping)
  }

  ghost predicate OrderlyRun(pool: Pool, acts: seq<Act>)
    requires Runs(pool, acts)
    decreases |acts|
  {
    acts == [] || (Orderly(pool, acts[0]) && OrderlyRun(Done(pool, acts[0]), acts[1..]))
  }

  /** Terminate messages come after everything else. */
  ghost predicate TermsLast(s: seq<Msg>) {
    forall i, j :: 0 <= i < j < |s| && s[i].Terminate? ==> s[j].Terminate?
  }

  ghost predicate Quiet(pool: Pool) {
    && TermsLast(pool.bq.pushed)
    && (pool.stopping ==> forall p :: 0 < p < |pool.bq.producers| ==> pool.bq.producers[p].Free?)
  }

  lemma PushLast(pushed: seq<Msg>, x: Msg)
    requires TermsLast(pushed) && (x.Terminate? || Count(pushed, IsTerm) == 0)
    ensures TermsLast(pushed + [x])
  {
    if !x.Terminate? {
      forall i | 0 <= i < |pushed|
        ensures !pushed[i].Terminate?
      {
        if pushed[i].Terminate? {
          CountSome(pushed, IsTerm, i);
        }
      }
    }
  }

  lemma ActKeepsQuiet(pool: Pool, a: Act)
    requires PoolInv(pool) && Quiet(pool) && Allowed(pool, a) && Orderly(pool, a)
    ensures Quiet(Done(pool, a))
  {
    hide Count, Items, TakenOut, InHand, InWork, Inv, TermsLost, TermsLast, Matched, OnceEach, Coupled;
    var s := pool.bq;
    match a
    case Post(p, msg, block) => PushLast(s.pushed, msg);
    case PostTerminate => PushLast(s.pushed, Terminate);
    case Queue(step) =>
      if step.RetryPush? {
        PushLast(s.pushed, s.producers[step.p].waiting);
      }
    case _ =>
  }

  lemma {:induction false} RunKeepsQuiet(pool: Pool, acts: seq<Act>)
    requires PoolInv(pool) && Quiet(pool) && Runs(pool, acts) && OrderlyRun(pool, acts)
    ensures Quiet(After(pool, acts))
    decreases |acts|
  {
    hide PoolInv, Quiet, Orderly;
    if acts != [] {
      ActKeeps(pool, acts[0]);
      ActKeepsQuiet(pool, acts[0]);
      RunKeepsQuiet(Done(pool, acts[0]), acts[1..]);
    }
  }

  /** Once a terminate message was pushed, the newest message is one. */
  lemma QueueEndsInTerm(s: State<Msg>)
    requires InOrder(s) && TermsLast(s.pushed) && Count(s.pushed, IsTerm) > 0 && s.q != []
    ensures Count(s.q, IsTerm) > 0
  {
    QueuedWasPushed(s);
    if !s.pushed[|s.pushed| - 1].Terminate? {
      CountNone(s.pushed, IsTerm);
    } else {
      CountSome(s.q, IsTerm, |s.q| - 1);
    }
  }

  /** After the join nothing is left in the queue. */
  lemma JoinedIsEmpty(pool: Pool)
    requires PoolInv(pool) && Quiet(pool) && Joined(pool) && pool.workers != []
    ensures pool.stopping && pool.asked == |pool.workers| && pool.bq.q == []
  {
    hide Items, Count, TermsLast, TermsLost;
    JoinedCounts(pool);
    if pool.bq.q != [] {
      QueueEndsInTerm(pool.bq);
    }
  }

  /** After the join every message pushed was handled exactly once, unless the overrun policy dropped it or it came too
      late and is still queued. */
  lemma JoinedHandledAll(pool: Pool)
    requires PoolInv(pool) && Joined(pool)
    ensures multiset(pool.bq.pushed) ==
            multiset(pool.handled) + multiset(Lost(pool.bq.gone)) + multiset(pool.bq.q)
  {
    JoinedCounts(pool);
    OutOrLost(pool.bq.gone);
    assert pool.bq.pushed == Items(pool.bq.gone) + pool.bq.q;
  }

  lemma StartQuiet(cap: nat, n: nat, producers: nat)
    ensures Quiet(Start(cap, n, producers))
  {
  }

  /** From the start of the pool to the join of all its workers, in any run without late posts. */
  lemma ShutdownDeliversAll(cap: nat, n: nat, producers: nat, acts: seq<Act>)
    requires Construct(cap, n, producers).Running? && Runs(Construct(cap, n, producers).pool, acts)
    requires OrderlyRun(Construct(cap, n, producers).pool, acts)
    ensures var end := After(Construct(cap, n, producers).pool, acts);
      Joined(end) ==>
        && end.bq.q == [] && end.asked == n
        && multiset(end.bq.pushed) == multiset(end.handled) + multiset(Lost(end.bq.gone))
  {
    hide PoolInv, Quiet;
    StartInv(cap, n, producers);
    StartQuiet(cap, n, producers);
    RunKeepsPool(Start(cap, n, producers), acts);
    RunKeepsQuiet(Start(cap, n, producers), acts);
    var end := After(Start(cap, n, producers), acts);
    if Joined(end) {
      JoinedIsEmpty(end);
      JoinedHandledAll(end);
      assert multiset(end.bq.q) == multiset{};
    }
  }

  // The shutdown always gets on.

  /** Some thread can do more than be woken by accident: the destructor can post or notify, a worker can look into
      the queue, notify or handle. */
  predicate CanMove(pool: Pool) {
    || (exists p :: 0 <= p < |pool.bq.producers| && (pool.bq.producers[p].Awake? || pool.bq.producers[p].Notifying?))
    || (pool.bq.producers != [] && pool.bq.producers[0].Free? && pool.asked < |pool.workers|)
    || (exists c :: 0 <= c < |pool.workers| && pool.workers[c].Handling?)
    || (exists c :: 0 <= c < |pool.workers| && c < |pool.bq.consumers|
                    && pool.workers[c].Looping? && !pool.bq.consumers[c].Asleep?)
  }

  /** With all threads waiting, as many workers are left as terminate messages were lost. */
  lemma NobodyMoves(pool: Pool)
    requires PoolInv(pool) && pool.stopping && pool.bq.cap >= 1 && !CanMove(pool)
    ensures Count(pool.workers, IsLive) == TermsLost(pool.bq.gone)
  {
    hide Count, Items, TermsLost;
    var s := pool.bq;
    if c: nat :| c < |pool.workers| && !pool.workers[c].Exited? {
      CountNone(s.producers, IsNotifying);
      CountNone(s.producers, IsAwake);
      CountNone(s.consumers, IsRoused);
      CountNone(s.consumers, IsTook);
      CountNone(s.consumers, TookTerm);
      CountNone(pool.workers, EndsSoon);
      assert s.consumers[c].Asleep?;
      CountSome(s.consumers, IsAsleep, c);
      CountNone(s.q, IsTerm);
      if s.producers[0].Blocked? {
        CountSome(s.producers, IsBlocked, 0);
      }
    } else {
      CountNone(pool.workers, IsLive);
    }
  }

  /** Some worker lives on just as long as a terminate message for it is under way or lost. */
  lemma JoinedIff(pool: Pool)
    requires PoolInv(pool) && pool.stopping && pool.bq.cap >= 1 && !CanMove(pool)
    ensures Joined(pool) <==> TermsLost(pool.bq.gone) == 0
  {
    NobodyMoves(pool);
    if Joined(pool) {
      CountNone(pool.workers, IsLive);
    } else {
      var c: nat :| c < |pool.workers| && !pool.workers[c].Exited?;
      CountSome(pool.workers, IsLive, c);
    }
  }

  /** While a worker is alive and no terminate message was lost, some thread can go on. */
  lemma NeverStuck(pool: Pool)
    requires PoolInv(pool) && pool.stopping && pool.bq.cap >= 1 && !Joined(pool) && TermsLost(pool.bq.gone) == 0
    ensures CanMove(pool)
  {
    if !CanMove(pool) {
      JoinedIff(pool);
    }
  }

  predicate IsSpurious(a: Act) {
    a.Queue? && (a.step.WakeProducer? || a.step.WakeConsumer?)
  }

  lemma {:induction false} CountWitness<T>(s: seq<T>, test: T -> bool) returns (i: nat)
    requires Count(s, test) > 0
    ensures i < |s| && test(s[i])
  {
    var n := |s| - 1;
    if test(s[n]) {
      i := n;
    } else {
      i := CountWitness(s[..n], test);
    }
  }

  /** Who can move has an act to do. */
  lemma MovesAreActs(pool: Pool) returns (a: Act)
    requires PoolInv(pool) && pool.stopping && CanMove(pool)
    ensures Allowed(pool, a) && !IsSpurious(a) && !a.Post?
  {
    hide Count, Items, Matched, OnceEach, Inv;
    var s := pool.bq;
    if p :| 0 <= p < |s.producers| && s.producers[p].Awake? {
      a := Queue(RetryPush(p));
    } else if p :| 0 <= p < |s.producers| && s.producers[p].Notifying? {
      var c: nat := |s.consumers|;
      if Count(s.consumers, IsAsleep) > 0 {
        c := CountWitness(s.consumers, IsAsleep);
      }
      a := Queue(NotifyPush(p, c));
    } else if s.producers[0].Free? && pool.asked < |pool.workers| {
      a := PostTerminate;
    } else if c :| 0 <= c < |pool.workers| && pool.workers[c].Handling? {
      a := Handle(c);
    } else {
      var c :| 0 <= c < |pool.workers| && c < |s.consumers| && pool.workers[c].Looping? && !s.consumers[c].Asleep?;
      if s.consumers[c].Ready? {
        a := Queue(Dequeue(c));
      } else if s.consumers[c].Roused? {
        a := Queue(RetryPop(c));
      } else {
        var p: nat := |s.producers|;
        if Count(s.producers, IsBlocked) > 0 {
          p := CountWitness(s.producers, IsBlocked);
        }
        a := Queue(NotifyPop(c, p));
      }
    }
  }

  function Sum<T>(s: seq<T>, weight: T -> nat): nat {
    if s == [] then 0 else Sum(s[..|s| - 1], weight) + weight(s[|s| - 1])
  }

  lemma {:induction false} SumUpdate<T>(s: seq<T>, weight: T -> nat, i: nat, x: T)
    requires i < |s|
    ensures Sum(s[i := x], weight) == Sum(s, weight) - weight(s[i]) + weight(x)
  {
    var n := |s| - 1;
    if i < n {
      assert s[i := x][..n] == s[..n][i := x];
      SumUpdate(s[..n], weight, i, x);
    } else {
      assert s[i := x][..n] == s[..n];
    }
  }

  function ProducerEffort(p: Producer<Msg>): nat {
    match p
    case Free => 0
    case Notifying => 3
    case Blocked(_) => 7
    case Awake(_) => 8
  }

  function ConsumerEffort(c: Consumer<Msg>): nat {
    match c
    case Asleep => 0
    case Ready => 1
    case Roused(_) => 2
    case Took(_) => 4
  }

  function WorkerEffort(w: Worker): nat {
    if w.Handling? then 1 else 0
  }

  /** A bound on what the shutdown has still to do. */
  function Effort(pool: Pool): nat
    requires pool.asked <= |pool.workers|
  {
    8 * (|pool.workers| - pool.asked) + 4 * |pool.bq.q| + Sum(pool.bq.producers, ProducerEffort)
    + Sum(pool.bq.consumers, ConsumerEffort) + Sum(pool.workers, WorkerEffort)
  }

  /** Every act but a spurious wake-up, a time-out or a late post brings the shutdown forward. */
  lemma EffortFalls(pool: Pool, a: Act)
    requires PoolInv(pool) && pool.stopping && Allowed(pool, a)
    ensures Done(pool, a).asked <= |Done(pool, a).workers|
    ensures if IsSpurious(a) then Effort(Done(pool, a)) <= Effort(pool) + 2
            else if a.Post? then Effort(Done(pool, a)) <= Effort(pool) + 7
            else Effort(Done(pool, a)) < Effort(pool)
  {
    hide Sum, Count, Items, OnceEach, Inv, TermsLost;
    var s, ws := pool.bq, pool.workers;
    InvInOrder(s);
    match a
    case Post(p, msg, block) =>
      SumUpdate(s.producers, ProducerEffort, p, Notifying);
      SumUpdate(s.producers, ProducerEffort, p, Blocked(msg));
    case PostTerminate =>
      SumUpdate(s.producers, ProducerEffort, 0, Notifying);
      SumUpdate(s.producers, ProducerEffort, 0, Blocked(Terminate));
    case Handle(c) =>
      SumUpdate(ws, WorkerEffort, c, if ws[c].msg.Terminate? then Exited else Looping);
    case Queue(step) =>
      QueueEffort(pool, step);
  }

  lemma LookEffort(pool: Pool, c: nat, step: Step<Msg>)
    requires Allowed(pool, Queue(step)) && pool.asked <= |pool.workers| && (step == Dequeue(c) || step == RetryPop(c))
    ensures Effort(Done(pool, Queue(step))) < Effort(pool)
  {
    hide Sum, Count;
    var s := pool.bq;
    SumUpdate(s.consumers, ConsumerEffort, c, Next(s, step).consumers[c]);
  }

  lemma QueueEffort(pool: Pool, step: Step<Msg>)
    requires Allowed(pool, Queue(step)) && pool.asked <= |pool.workers| && Coupled(pool.workers, pool.bq.consumers)
    ensures Done(pool, Queue(step)).asked <= |Done(pool, Queue(step)).workers|
    ensures if IsSpurious(Queue(step)) then Effort(Done(pool, Queue(step))) <= Effort(pool) + 2
            else Effort(Done(pool, Queue(step))) < Effort(pool)
  {
    hide Sum, Count;
    var s, ws := pool.bq, pool.workers;
    match step
    case WakeProducer(p) => SumUpdate(s.producers, ProducerEffort, p, Awake(s.producers[p].item));
    case RetryPush(p) =>
      SumUpdate(s.producers, ProducerEffort, p, Notifying);
      SumUpdate(s.producers, ProducerEffort, p, Blocked(s.producers[p].waiting));
    case NotifyPush(p, c) =>
      SumUpdate(s.producers, ProducerEffort, p, Free);
      if c < |s.consumers| {
        SumUpdate(s.consumers, ConsumerEffort, c, Roused(false));
      }
    case WakeConsumer(c, timedOut) => SumUpdate(s.consumers, ConsumerEffort, c, Roused(timedOut));
    case Dequeue(c) => LookEffort(pool, c, step);
    case RetryPop(c) => LookEffort(pool, c, step);
    case NotifyPop(c, p) =>
      SumUpdate(s.consumers, ConsumerEffort, c, Ready);
      SumUpdate(ws, WorkerEffort, c, Handling(s.consumers[c].item));
      if p < |s.producers| {
        SumUpdate(s.producers, ProducerEffort, p, Awake(s.producers[p].item));
      }
  }

  function Spurious(acts: seq<Act>): nat {
    if acts == [] then 0 else Spurious(acts[1..]) + if IsSpurious(acts[0]) then 1 else 0
  }

  function Posts(acts: seq<Act>): nat {
    if acts == [] then 0 else Posts(acts[1..]) + if acts[0].Post? then 1 else 0
  }

  /** A shutdown is over after a bounded number of acts, spurious wake-ups, time-outs and late posts aside. */
  lemma {:induction false} ShutdownIsBounded(pool: Pool, acts: seq<Act>)
    requires PoolInv(pool) && pool.stopping && Runs(pool, acts)
    ensures pool.asked <= |pool.workers| && |acts| <= Effort(pool) + 3 * Spurious(acts) + 8 * Posts(acts)
    decreases |acts|
  {
    MatchedAsked(pool);
    hide PoolInv, Effort, Allowed, Done, IsSpurious;
    if acts != [] {
      EffortFalls(pool, acts[0]);
      ActKeeps(pool, acts[0]);
      StopIsForGood(pool, acts[0]);
      ShutdownIsBounded(Done(pool, acts[0]), acts[1..]);
      PostNotSpurious(acts[0]);
    }
  }

  lemma StopIsForGood(pool: Pool, a: Act)
    requires pool.stopping && Allowed(pool, a)
    ensures Done(pool, a).stopping
  {
  }

  lemma PostNotSpurious(a: Act)
    ensures !(IsSpurious(a) && a.Post?)
  {
  }

  lemma MatchedAsked(pool: Pool)
    requires PoolInv(pool)
    ensures pool.asked <= |pool.workers|
  {
  }

  /** Where only spurious wake-ups and new posts are left to happen, all workers have exited if and only if no terminate
      message was lost. */
  lemma ShutdownFinishes(pool: Pool)
    requires PoolInv(pool) && pool.stopping && pool.bq.cap >= 1
    requires forall a :: Allowed(pool, a) ==> IsSpurious(a) || a.Post?
    ensures Joined(pool) <==> TermsLost(pool.bq.gone) == 0
  {
    if CanMove(pool) {
      var a := MovesAreActs(pool);
    }
    JoinedIff(pool);
  }

  // One worker.

  function HandOf(c: Consumer<Msg>): seq<Msg> {
    if c.Took? then [c.item] else []
  }

  function WorkOf(w: Worker): seq<Msg> {
    if w.Handling? then [w.msg] else []
  }

  /** A single worker handles messages in the order in which they were taken out, which is that of the pushes. */
  ghost predicate OneInOrder(pool: Pool) {
    |pool.workers| == |pool.bq.consumers| == 1 &&
    TakenOut(pool.bq.gone) == pool.handled + WorkOf(pool.workers[0]) + HandOf(pool.bq.consumers[0])
  }

  lemma TakeKeepsOrder(pool: Pool, step: Step<Msg>)
    requires PoolInv(pool) && OneInOrder(pool) && Allowed(pool, Queue(step)) && pool.bq.q != []
    requires step == Dequeue(0) || step == RetryPop(0)
    ensures OneInOrder(Done(pool, Queue(step)))
  {
    hide Count, Items, Phase, OnceEach, Inv, TakenOut, Matched;
    TakenOutSnoc(pool.bq.gone, Popped(pool.bq.q[0]));
  }

  lemma PostKeepsOrder(pool: Pool, p: nat, msg: Msg, block: bool)
    requires InOrder(pool.bq) && OneInOrder(pool) && Allowed(pool, Post(p, msg, block))
    ensures OneInOrder(Done(pool, Post(p, msg, block)))
  {
    hide Count, Items, TakenOut;
    TakenOutSnoc(pool.bq.gone, Overrun((pool.bq.q + [msg])[0]));
  }

  lemma ActKeepsOrder(pool: Pool, a: Act)
    requires PoolInv(pool) && OneInOrder(pool) && Allowed(pool, a)
    ensures OneInOrder(Done(pool, a))
  {
    hide Count, Items, Phase, OnceEach, Inv, TakenOut, Matched;
    InvInOrder(pool.bq);
    match a
    case Post(p, msg, block) => PostKeepsOrder(pool, p, msg, block);
    case Queue(step) =>
      if (step.Dequeue? || step.RetryPop?) && pool.bq.q != [] {
        TakeKeepsOrder(pool, step);
      }
    case _ =>
  }

  lemma JoinedInOrder(pool: Pool)
    requires PoolInv(pool) && OneInOrder(pool) && Joined(pool)
    ensures pool.handled == TakenOut(pool.bq.gone)
  {
  }

  lemma {:induction false} RunKeepsOrder(pool: Pool, acts: seq<Act>)
    requires PoolInv(pool) && OneInOrder(pool) && Runs(pool, acts)
    ensures OneInOrder(After(pool, acts))
    decreases |acts|
  {
    hide PoolInv, OneInOrder;
    if acts != [] {
      ActKeeps(pool, acts[0]);
      ActKeepsOrder(pool, acts[0]);
      RunKeepsOrder(Done(pool, acts[0]), acts[1..]);
    }
  }

  lemma {:induction false} NothingLost(gone: seq<Exit<Msg>>)
    requires Lost(gone) == []
    ensures TakenOut(gone) == Items(gone)
  {
    if gone != [] {
      var before, e := gone[..|gone| - 1], gone[|gone| - 1];
      assert gone == before + [e];
      ItemsSnoc(before, e);
      TakenOutSnoc(before, e);
      NothingLost(before);
    }
  }

  /** The messages taken out are those that left the queue, without those the overrun policy dropped, in their order. */
  lemma {:induction false} TakenOutInOrder(gone: seq<Exit<Msg>>, i: nat)
    requires i < |gone|
    ensures |TakenOut(gone[..i])| <= |TakenOut(gone)|
    ensures gone[i].Popped? ==> |TakenOut(gone[..i])| < |TakenOut(gone)|
                                && TakenOut(gone)[|TakenOut(gone[..i])|] == gone[i].item == Items(gone)[i]
  {
    var n := |gone| - 1;
    if i < n {
      TakenOutInOrder(gone[..n], i);
      assert gone[..n][..i] == gone[..i];
    }
  }

  /** With one worker, after the join, the messages handled are exactly the pushed ones without those dropped by the
      overrun policy and those still queued, in the order of their pushes. */
  lemma OneWorkerKeepsOrder(cap: nat, producers: nat, acts: seq<Act>)
    requires Runs(Start(cap, 1, producers), acts)
    ensures var end := After(Start(cap, 1, producers), acts);
      && end.bq.pushed == Items(end.bq.gone) + end.bq.q
      && end.handled <= TakenOut(end.bq.gone)
      && (Joined(end) ==> end.handled == TakenOut(end.bq.gone))
      && (Lost(end.bq.gone) == [] ==> TakenOut(end.bq.gone) == Items(end.bq.gone))
  {
    hide PoolInv, OneInOrder, TakenOut, Lost, Items;
    var start := Start(cap, 1, producers);
    StartInv(cap, 1, producers);
    RunKeepsPool(start, acts);
    StartInOrder(cap, producers);
    RunKeepsOrder(start, acts);
    var end := After(start, acts);
    HandledInOrder(end);
    if Joined(end) {
      JoinedInOrder(end);
    }
    if Lost(end.bq.gone) == [] {
      NothingLost(end.bq.gone);
    }
  }

  lemma HandledInOrder(pool: Pool)
    requires PoolInv(pool) && OneInOrder(pool)
    ensures pool.handled <= TakenOut(pool.bq.gone) && pool.bq.pushed == Items(pool.bq.gone) + pool.bq.q
  {
  }

  lemma StartInOrder(cap: nat, producers: nat)
    ensures OneInOrder(Start(cap, 1, producers))
  {
  }
}
