/** Messages posted while the pool is being destroyed: which of them keep a worker from ever exiting. */
module LatePosts {
  import Q = BlockingQueue
  import opened ThreadPool

  /** A post with the overrun policy onto a full queue whose front is a terminate message. */
  predicate Drops(pool: Pool, a: Act) {
    a.Post? && !a.block && |pool.bq.q| == pool.bq.cap && pool.bq.q != [] && pool.bq.q[0].Terminate?
  }

  /** How many posts of a run do that. */
  ghost function Dropped(pool: Pool, acts: seq<Act>): nat
    requires Runs(pool, acts)
    decreases |acts|
  {
    if acts == [] then 0 else (if Drops(pool, acts[0]) then 1 else 0) + Dropped(Done(pool, acts[0]), acts[1..])
  }

  /** A message taken out is not lost. */
  lemma PoppedNotLost(gone: seq<Q.Exit<Msg>>, x: Msg)
    ensures TermsLost(gone + [Q.Popped(x)]) == TermsLost(gone)
  {
    TakenOutSnoc(gone, Q.Popped(x));
    assert Lost(gone) + [] == Lost(gone);
  }

  lemma PostDrops(pool: Pool, a: Act)
    requires PoolInv(pool) && Allowed(pool, a) && a.Post?
    ensures TermsLost(Done(pool, a).bq.gone) == TermsLost(pool.bq.gone) + if Drops(pool, a) then 1 else 0
  {
    hide Q.Count, Q.Items, TermsLost, Matched, OnceEach;
    InvInOrder(pool.bq);
    if a.block {
      PushOrWaitTerms(pool.bq, pool.stopping, a.p, a.msg);
    } else {
      PushTerms(pool.bq, a.msg);
    }
  }

  lemma QueueDropsNothing(pool: Pool, step: Q.Step<Msg>)
    requires PoolInv(pool) && Allowed(pool, Queue(step))
    ensures TermsLost(Done(pool, Queue(step)).bq.gone) == TermsLost(pool.bq.gone)
  {
    hide Q.Count, Q.Items, TermsLost, Matched, OnceEach;
    InvInOrder(pool.bq);
    if step.RetryPush? {
      PushOrWaitTerms(pool.bq, pool.stopping, step.p, pool.bq.producers[step.p].waiting);
    } else if (step.Dequeue? || step.RetryPop?) && pool.bq.q != [] {
      PoppedNotLost(pool.bq.gone, pool.bq.q[0]);
    }
  }

  /** An act loses a terminate message if and only if it is such a post. */
  lemma LostByDrop(pool: Pool, a: Act)
    requires PoolInv(pool) && Allowed(pool, a)
    ensures TermsLost(Done(pool, a).bq.gone) == TermsLost(pool.bq.gone) + if Drops(pool, a) then 1 else 0
  {
    match a
    case Post(_, _, _) => PostDrops(pool, a);
    case Queue(step) => QueueDropsNothing(pool, step);
    case PostTerminate =>
      hide Q.Count, Q.Items, TermsLost, Matched, OnceEach;
      InvInOrder(pool.bq);
      PushOrWaitTerms(pool.bq, true, 0, Terminate);
    case _ =>
  }

  lemma {:induction false} RunDrops(pool: Pool, acts: seq<Act>)
    requires PoolInv(pool) && Runs(pool, acts)
    ensures TermsLost(After(pool, acts).bq.gone) == TermsLost(pool.bq.gone) + Dropped(pool, acts)
    decreases |acts|
  {
    hide PoolInv, TermsLost, Drops;
    if acts != [] {
      LostByDrop(pool, acts[0]);
      ActKeeps(pool, acts[0]);
      RunDrops(Done(pool, acts[0]), acts[1..]);
    }
  }

  /** A worker whose terminate message was lost is still there after anything that may follow. */
  lemma NeverJoins(pool: Pool, more: seq<Act>)
    requires PoolInv(pool) && TermsLost(pool.bq.gone) > 0 && Runs(pool, more)
    ensures !Joined(After(pool, more))
  {
    hide Q.Count, Q.Items, TermsLost, Q.Inv, Phase, OnceEach;
    RunKeepsPool(pool, more);
    RunDrops(pool, more);
    if Joined(After(pool, more)) {
      JoinedCounts(After(pool, more));
    }
  }

  /** Whatever is posted, before the destructor runs or meanwhile: once nothing but accidental wake-ups and new posts
      can happen, the workers have exited if no post dropped a terminate message. If one did, there is no way on in
      which all of them exit. */
  lemma LatePostsHarmless(cap: nat, n: nat, producers: nat, acts: seq<Act>)
    requires cap >= 1 && Construct(cap, n, producers).Running? && Runs(Construct(cap, n, producers).pool, acts)
    requires var end := After(Construct(cap, n, producers).pool, acts);
      end.stopping && forall a :: Allowed(end, a) ==> IsSpurious(a) || a.Post?
    ensures var start := Construct(cap, n, producers).pool;
      && (Joined(After(start, acts)) <==> Dropped(start, acts) == 0)
      && (forall more | Dropped(start, acts) > 0 && Runs(After(start, acts), more) ::
            !Joined(After(After(start, acts), more)))
  {
    hide PoolInv, Allowed;
    var start := Start(cap, n, producers);
    StartInv(cap, n, producers);
    RunKeepsPool(start, acts);
    RunDrops(start, acts);
    var end := After(start, acts);
    ShutdownFinishes(end);
    forall more | Dropped(start, acts) > 0 && Runs(end, more)
      ensures !Joined(After(end, more))
    {
      NeverJoins(end, more);
    }
  }

  // Posts with the blocking policy.

  /** Where only accidental wake-ups and new posts are left, a producer that still waits means a full queue. */
  lemma LeftWaiting(pool: Pool, p: nat)
    requires PoolInv(pool) && pool.stopping && !CanMove(pool)
    requires p < |pool.bq.producers| && !pool.bq.producers[p].Free?
    ensures pool.bq.producers[p].Blocked? && |pool.bq.q| == pool.bq.cap
  {
    hide Q.Count, Q.Items, TermsLost, Matched, OnceEach, Phase;
    var s := pool.bq;
    Q.CountNone(s.producers, Q.IsAwake);
    Q.CountNone(s.consumers, Q.IsTook);
    Q.CountSome(s.producers, Q.IsBlocked, p);
  }

  /** All workers have exited, the queue is full, and producer p waits for room. */
  ghost predicate WaitsInVain(pool: Pool, p: nat) {
    && Joined(pool) && |pool.bq.q| == pool.bq.cap
    && p < |pool.bq.producers| && (pool.bq.producers[p].Blocked? || pool.bq.producers[p].Awake?)
  }

  lemma NothingLeaves(pool: Pool, p: nat, a: Act)
    requires Coupled(pool.workers, pool.bq.consumers) && WaitsInVain(pool, p) && Allowed(pool, a)
    ensures WaitsInVain(Done(pool, a), p)
  {
    hide Q.Count;
  }

  lemma {:induction false} WaitsForever(pool: Pool, p: nat, more: seq<Act>)
    requires PoolInv(pool) && WaitsInVain(pool, p) && Runs(pool, more)
    ensures WaitsInVain(After(pool, more), p)
    decreases |more|
  {
    if more != [] {
      InvCoupled(pool);
      hide PoolInv, WaitsInVain;
      NothingLeaves(pool, p, more[0]);
      ActKeeps(pool, more[0]);
      WaitsForever(Done(pool, more[0]), p, more[1..]);
    }
  }

  lemma InvCoupled(pool: Pool)
    requires PoolInv(pool)
    ensures Coupled(pool.workers, pool.bq.consumers)
  {
  }

  predicate Returned(pool: Pool, p: nat) {
    p < |pool.bq.producers| && pool.bq.producers[p].Free?
  }

  /** There is a way on in which producer p gets out of its call. */
  ghost predicate CanReturn(pool: Pool, p: nat) {
    exists more :: Runs(pool, more) && Returned(After(pool, more), p)
  }

  lemma NotifierReturns(pool: Pool, p: nat)
    requires Coupled(pool.workers, pool.bq.consumers) && Joined(pool)
    requires p < |pool.bq.producers| && pool.bq.producers[p].Notifying?
    ensures CanReturn(pool, p)
  {
    var notify := Queue(Q.NotifyPush(p, |pool.bq.consumers|));
    Q.CountNone(pool.bq.consumers, Q.IsAsleep);
    assert [notify][1..] == [];
    var end := Done(pool, notify);
    assert Runs(end, []) && After(end, []) == end && Returned(end, p);
    assert Runs(pool, [notify]) && After(pool, [notify]) == end;
  }

  lemma WaiterNeverReturns(pool: Pool, p: nat)
    requires PoolInv(pool) && WaitsInVain(pool, p)
    ensures !CanReturn(pool, p)
  {
    hide PoolInv;
    forall more | Runs(pool, more)
      ensures !Returned(After(pool, more), p)
    {
      WaitsForever(pool, p, more);
    }
  }

  /** After the join, a thread that posts with the blocking policy can get out of the call if and only if there is room
      in the queue. */
  lemma LatePostReturnsIff(pool: Pool, p: nat, msg: Msg)
    requires PoolInv(pool) && Joined(pool) && Allowed(pool, Post(p, msg, true))
    ensures CanReturn(Done(pool, Post(p, msg, true)), p) <==> |pool.bq.q| < pool.bq.cap
  {
    hide Q.Count, Q.Items, CanReturn;
    var posted := Done(pool, Post(p, msg, true));
    ActKeeps(pool, Post(p, msg, true));
    InvInOrder(pool.bq);
    if |pool.bq.q| < pool.bq.cap {
      NotifierReturns(posted, p);
    } else {
      WaiterNeverReturns(posted, p);
    }
  }

  /** One slot, one worker, one logger: the logger's post replaces the only terminate message, and from there on the
      worker never exits. */
  lemma LatePostExample(more: seq<Act>)
    ensures var start, late := Start(1, 1, 1), [Stop, PostTerminate, Post(1, Log(7), false)];
      && Runs(start, late) && Dropped(start, late) == 1
      && (Runs(After(start, late), more) ==> !Joined(After(After(start, late), more)))
  {
    hide PoolInv;
    var start := Start(1, 1, 1);
    var late := [Stop, PostTerminate, Post(1, Log(7), false)];
    var first := Done(start, Stop);
    assert first.bq.producers == [Q.Free, Q.Free];
    var second := Done(first, PostTerminate);
    assert second.bq.producers == [Q.Notifying, Q.Free] && second.bq.q == [Terminate];
    var third := Done(second, late[2]);
    assert late[1..] == [PostTerminate, late[2]] && late[1..][1..] == [late[2]] && [late[2]][1..] == [];
    assert Runs(third, []) && Dropped(third, []) == 0 && After(third, []) == third;
    assert Runs(second, [late[2]]) && Dropped(second, [late[2]]) == 1 && After(second, [late[2]]) == third;
    assert Runs(first, late[1..]) && Dropped(first, late[1..]) == 1 && After(first, late[1..]) == third;
    StartInv(1, 1, 1);
    RunKeepsPool(start, late);
    RunDrops(start, late);
    if Runs(third, more) {
      NeverJoins(third, more);
    }
  }
}
