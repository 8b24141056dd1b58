/** One receive queue and its decoder: what the card delivers is freed at once, waits, or is counted in a flow. */
module CaptureToRecords {
  import opened Counters
  import opened Powers
  import opened Flow
  import opened FlowEnds
  import opened FlowTotals
  import opened Pipeline
  import opened Decoding
  import opened Shutdown

  /** The frames in some buffers. */
  function FramesIn(content: Mbuf -> Frame, mbufs: seq<Mbuf>): seq<Frame> {
    seq(|mbufs|, i requires 0 <= i < |mbufs| => content(mbufs[i]))
  }

  ghost predicate OnTheWire(content: Mbuf -> Frame, world: set<FlowKey>) {
    forall m :: WellFormed(content(m)) && Meaning(content(m)).key in world
  }

  lemma FramesOnTheWire(content: Mbuf -> Frame, world: set<FlowKey>, mbufs: seq<Mbuf>)
    requires OnTheWire(content, world)
    ensures forall f :: f in FramesIn(content, mbufs) ==> WellFormed(f) && Meaning(f).key in world
  {
  }

  /** What some buffers mean to a flow table. */
  ghost function PacketsIn(content: Mbuf -> Frame, mbufs: seq<Mbuf>): (packets: seq<Packet>)
    ensures |packets| == |mbufs|
  {
    seq(|mbufs|, i requires 0 <= i < |mbufs| =>
      if WellFormed(content(mbufs[i])) then Meaning(content(mbufs[i]))
      else Packet(FlowKey(0, 0, 0, 0, 0), 0, false, false))
  }

  lemma MoreBuffers(content: Mbuf -> Frame, before: seq<Mbuf>, batch: seq<Mbuf>)
    requires forall f :: f in FramesIn(content, batch) ==> WellFormed(f)
    ensures PacketsIn(content, before + batch) == PacketsIn(content, before) + Meanings(FramesIn(content, batch))
  {
    forall i | 0 <= i < |batch|
      ensures PacketsIn(content, before + batch)[|before| + i] == Meanings(FramesIn(content, batch))[i]
    {
      assert FramesIn(content, batch)[i] in FramesIn(content, batch);
    }
  }

  ghost predicate Ready(d: Decode, world: set<FlowKey>)
    reads d, d.flowCache
  {
    && d.Valid() && Remembered(d.flowTable, d.log, d.hist)
    && Rooted(d.flowTable, d.hist) && Within(d.hist, world) && NoCollisions(world)
  }

  /** The decoder of lane i has counted the released buffers, in order. */
  ghost predicate Follows(c: Capture, i: nat, d: Decode, content: Mbuf -> Frame)
    reads c, d
  {
    i < |c.lanes| == |c.trails| && PacketsOf(d.hist) == PacketsIn(content, c.trails[i].released)
  }

  /** The decoder counts the batch it took out, and gives the buffers back. */
  method CountBatch(c: Capture, i: nat, d: Decode, content: Mbuf -> Frame, ghost world: set<FlowKey>)
    requires c.Valid() && Follows(c, i, d, content) && Ready(d, world) && OnTheWire(content, world)
    modifies c`lanes, c`trails, d, d.flowCache
    ensures c.Valid() && Follows(c, i, d, content) && Ready(d, world)
    ensures |c.lanes| == |c.trails| && c.lanes == old(c.lanes)[i := old(c.lanes)[i].(batch := [])]
    ensures c.trails == old(c.trails)[i := old(c.trails)[i].(released :=
              old(c.trails)[i].released + old(c.lanes)[i].batch)]
  {
    hide OnTheWire, Rooted, Within, NoCollisions, Remembered, PacketsOf, PacketsIn, FramesIn, Meanings, AllAccounted,
         SeenIn, DroppedIn, Accounted;
    var batch := c.lanes[i].batch;
    FramesOnTheWire(content, world, batch);
    MoreBuffers(content, c.trails[i].released, batch);
    if |batch| > 0 {
      d.TakeBurst(FramesIn(content, batch), world);
    } else {
      NoBuffers(content, batch);
    }
    var _ := c.ReleasePkt(i);
  }

  /** One round of the decoder's loop. */
  method DecodeBurst(c: Capture, i: nat, d: Decode, content: Mbuf -> Frame, ghost world: set<FlowKey>)
    requires c.Valid() && Follows(c, i, d, content) && Ready(d, world) && OnTheWire(content, world)
    requires c.lanes[i].batch == []
    modifies c`lanes, c`trails, d, d.flowCache
    ensures c.Valid() && Follows(c, i, d, content) && Ready(d, world) && c.lanes[i].batch == []
    ensures var n := Min(BURST_SIZE, |old(c.lanes)[i].ring|);
      && |c.lanes| == |c.trails| == |old(c.trails)|
      && c.lanes[i].ring == old(c.lanes)[i].ring[n..]
      && c.trails == old(c.trails)[i := old(c.trails)[i].(released :=
           old(c.trails)[i].released + old(c.lanes)[i].ring[..n])]
  {
    hide OnTheWire, Ready, PacketsOf, PacketsIn, AllAccounted, SeenIn, DroppedIn, Accounted;
    var _ := c.DequeueBurst(i);
    CountBatch(c, i, d, content, world);
  }

  lemma NoBuffers(content: Mbuf -> Frame, mbufs: seq<Mbuf>)
    requires mbufs == []
    ensures FramesIn(content, mbufs) == [] && Meanings([]) == []
  {
  }

  /** The decoder after it was stopped, while nothing arrives: it empties its ring and ends all flows. */
  method DecodeRest(c: Capture, i: nat, d: Decode, content: Mbuf -> Frame, ghost world: set<FlowKey>)
    requires c.Valid() && Follows(c, i, d, content) && Ready(d, world) && OnTheWire(content, world)
    requires c.lanes[i].batch == []
    modifies c`lanes, c`trails, d, d.flowCache
    ensures c.Valid() && |c.lanes| == |c.trails| == |old(c.trails)| && c.lanes[i] == Lane([], [])
    ensures c.trails == old(c.trails)[i := old(c.trails)[i].(released := old(c.trails)[i].accepted)]
    ensures PacketsOf(d.hist) == PacketsIn(content, c.trails[i].accepted)
    ensures d.flowTable == map[] && Distinct(d.log) && AllRight(d.log, d.hist) && AllNamed(d.log, d.hist)
    ensures TotalPkts(d.log) + WORD * PktLaps(d.log, d.hist) == |c.trails[i].accepted|
    ensures TotalBytes(d.log) + WORD * ByteLaps(d.log, d.hist) == BytesSeen(d.hist)
  {
    hide OnTheWire, Ready, PacketsIn, Distinct, Cover, AllRight, AllNamed, Remembered, AllAccounted, SeenIn, DroppedIn,
         Accounted, HasSerial;
    while c.lanes[i].ring != []
      invariant c.Valid() && Follows(c, i, d, content) && Ready(d, world) && c.lanes[i].batch == []
      invariant |c.trails| == |old(c.trails)|
      invariant c.trails == old(c.trails)[i := old(c.trails)[i].(released := c.trails[i].released)]
      decreases |c.lanes[i].ring|
    {
      DecodeBurst(c, i, d, content, world);
    }
    AllReleased(c.lanes, c.trails, c.ringSize, i);
    ReadyIsValid(d, world);
    d.Finish();
    assert |d.hist| == |PacketsOf(d.hist)|;
  }

  lemma AllReleased(lanes: seq<Lane>, trails: seq<Trail>, ringSize: nat, i: nat)
    requires AllAccounted(lanes, trails, ringSize) && i < |lanes| && lanes[i] == Lane([], [])
    ensures |trails| == |lanes| && trails[i].released == trails[i].accepted
  {
    assert Accounted(lanes[i], trails[i], ringSize);
  }

  lemma ReadyIsValid(d: Decode, world: set<FlowKey>)
    requires Ready(d, world)
    ensures d.Valid() && Remembered(d.flowTable, d.log, d.hist)
  {
  }

  /** What the decoder knows: its records are right and complete once it has exited. */
  ghost predicate Recorded(d: Decode)
    reads d
  {
    && d.flowTable == map[] && Distinct(d.log) && AllRight(d.log, d.hist) && AllNamed(d.log, d.hist)
    && TotalPkts(d.log) + WORD * PktLaps(d.log, d.hist) == |d.hist|
    && TotalBytes(d.log) + WORD * ByteLaps(d.log, d.hist) == BytesSeen(d.hist)
  }

  /** The lane of queue i is as its life so far says. */
  ghost predicate Lives(c: Capture, i: nat, s: Life, delivered: seq<Mbuf>)
    reads c
  {
    && i < |c.lanes| == |c.trails| && c.lanes[i] == Lane(s.ring, s.batch)
    && c.trails[i].seen == delivered && c.trails[i].dropped == s.dropped && c.trails[i].released == s.counted
  }

  /** One turn of the capturing thread or of the decoder of queue i. */
  method TakeTurn(c: Capture, i: nat, d: Decode, t: Turn, ghost s: Life, ghost delivered: seq<Mbuf>,
                  content: Mbuf -> Frame, ghost world: set<FlowKey>)
    requires c.Valid() && Lives(c, i, s, delivered) && Possible(|c.lanes|, s, t) && OnTheWire(content, world)
    requires Follows(c, i, d, content) && if s.exited then Recorded(d) else Ready(d, world)
    modifies c, d, d.flowCache
    ensures c.Valid() && |c.lanes| == |old(c.lanes)|
    ensures Lives(c, i, After(c.ringSize, i, s, t), delivered + Brought(t, i))
    ensures Follows(c, i, d, content)
    ensures if s.exited || t == Exits then Recorded(d) else Ready(d, world)
  {
    hide OnTheWire, Ready, PacketsIn, PacketsOf, Distinct, AllRight, AllAccounted, SeenIn, DroppedIn, Accounted,
         Wrapped, Cover, HasSerial, Recorded, AllNamed, Remembered;
    assert delivered + [] == delivered;
    RingFits(c.lanes, c.trails, c.ringSize, if t.Polls? then t.queue else i);
    match t
    case Polls(queue, mbufs) => var _ := c.ReceiveBurst(queue, mbufs);
    case Dequeues => var _ := c.DequeueBurst(i);
    case Counts => CountBatch(c, i, d, content, world);
    case Exits =>
      ReadyIsValid(d, world);
      d.Finish();
      FinishRecords(d);
    case _ =>
  }

  lemma FinishRecords(d: Decode)
    requires d.flowTable == map[] && Distinct(d.log) && AllRight(d.log, d.hist) && AllNamed(d.log, d.hist)
    requires TotalPkts(d.log) + WORD * PktLaps(d.log, d.hist) == |d.hist|
    requires TotalBytes(d.log) + WORD * ByteLaps(d.log, d.hist) == BytesSeen(d.hist)
    ensures Recorded(d)
  {
  }

  lemma RingFits(lanes: seq<Lane>, trails: seq<Trail>, ringSize: nat, i: nat)
    requires AllAccounted(lanes, trails, ringSize) && i < |lanes|
    ensures |lanes[i].ring| <= ringSize
  {
    assert Accounted(lanes[i], trails[i], ringSize);
  }

  /** The capturing thread and the decoder of queue i, in any interleaving of their turns, to any point before or after
      the decoder's exit: each buffer delivered was dropped, waits, or is counted in exactly one flow. What waits after
      the exit is what came later and found room. */
  method QueueRun(queues: nat, ringSize: nat, i: nat, outTime: U32, turns: seq<Turn>, content: Mbuf -> Frame,
                  ghost world: set<FlowKey>) returns (c: Capture, d: Decode)
    requires i < queues && OnTheWire(content, world) && NoCollisions(world)
    requires CanRun(queues, ringSize, i, turns)
    ensures c.Valid() && Lives(c, i, LifeAfter(queues, ringSize, i, turns), DeliveredTo(turns, i))
    ensures PacketsOf(d.hist) == PacketsIn(content, c.trails[i].released)
    ensures Exits in turns ==> Recorded(d)
    ensures Exits in turns ==>
      |DeliveredTo(turns, i)|
      == |c.trails[i].dropped| + |c.lanes[i].ring| + TotalPkts(d.log) + WORD * PktLaps(d.log, d.hist)
    ensures Exits in turns ==>
      c.lanes[i].ring == LateFor(turns, i)[..Min(ringSize, |LateFor(turns, i)|)] && |LateFor(turns, i)| <= BURST_SIZE
    ensures Exits in turns ==>
      (|DeliveredTo(turns, i)| == |c.trails[i].dropped| + TotalPkts(d.log) + WORD * PktLaps(d.log, d.hist)
       <==> ringSize == 0 || LateFor(turns, i) == [])
    ensures Exits !in turns ==> d.Valid()
    ensures Exits !in turns ==>
      |DeliveredTo(turns, i)|
      == |c.trails[i].dropped| + |c.lanes[i].ring| + |c.lanes[i].batch|
         + TotalPkts(d.AllFlows()) + WORD * PktLaps(d.AllFlows(), d.hist)
  {
    hide OnTheWire, Ready, PacketsIn, AllAccounted, SeenIn, DroppedIn, Accounted, DeliveredTo, LateFor, LifeAfter,
         CanRun, Possible, After, Brought, Wrapped, Recorded;
    c := new Capture(queues, ringSize);
    d := new Decode(outTime);
    NewIsReady(d, world);
    NoTurns(queues, ringSize, i);
    assert turns[..0] == [];
    assert PacketsOf(d.hist) == PacketsIn(content, c.trails[i].released);
    for k := 0 to |turns|
      invariant c.Valid() && Follows(c, i, d, content) && |c.lanes| == queues && c.ringSize == ringSize
      invariant Lives(c, i, LifeAfter(queues, ringSize, i, turns[..k]), DeliveredTo(turns[..k], i))
      invariant if LifeAfter(queues, ringSize, i, turns[..k]).exited then Recorded(d) else Ready(d, world)
      invariant fresh(c) && fresh(d) && fresh(d.flowCache)
    {
      ghost var s := LifeAfter(queues, ringSize, i, turns[..k]);
      assert turns[..k + 1] == turns[..k] + [turns[k]];
      PrefixCanRun(queues, ringSize, i, turns, k + 1);
      MoreTurns(queues, ringSize, i, turns[..k], turns[k]);
      ExitStays(ringSize, i, s, turns[k]);
      TakeTurn(c, i, d, turns[k], s, DeliveredTo(turns[..k], i), content, world);
    }
    assert turns[..|turns|] == turns;
    RunCounted(queues, ringSize, i, turns, c, d, content, world);
  }

  /** The sums at the end of a run. */
  lemma RunCounted(queues: nat, ringSize: nat, i: nat, turns: seq<Turn>, c: Capture, d: Decode, content: Mbuf -> Frame,
                   world: set<FlowKey>)
    requires i < queues && CanRun(queues, ringSize, i, turns) && Follows(c, i, d, content)
    requires Lives(c, i, LifeAfter(queues, ringSize, i, turns), DeliveredTo(turns, i))
    requires if LifeAfter(queues, ringSize, i, turns).exited then Recorded(d) else Ready(d, world)
    ensures Exits in turns ==> Recorded(d)
    ensures Exits in turns ==>
      |DeliveredTo(turns, i)|
      == |c.trails[i].dropped| + |c.lanes[i].ring| + TotalPkts(d.log) + WORD * PktLaps(d.log, d.hist)
    ensures Exits in turns ==>
      c.lanes[i].ring == LateFor(turns, i)[..Min(ringSize, |LateFor(turns, i)|)] && |LateFor(turns, i)| <= BURST_SIZE
    ensures Exits in turns ==>
      (|DeliveredTo(turns, i)| == |c.trails[i].dropped| + TotalPkts(d.log) + WORD * PktLaps(d.log, d.hist)
       <==> ringSize == 0 || LateFor(turns, i) == [])
    ensures Exits !in turns ==> d.Valid()
    ensures Exits !in turns ==>
      |DeliveredTo(turns, i)|
      == |c.trails[i].dropped| + |c.lanes[i].ring| + |c.lanes[i].batch|
         + TotalPkts(d.AllFlows()) + WORD * PktLaps(d.AllFlows(), d.hist)
  {
    hide PacketsIn, DeliveredTo, LateFor, LifeAfter, CanRun, LateLeft, Distinct, AllRight, Rooted, Within, NoCollisions,
         Decode.Valid, Decode.AllFlows, TotalPkts, PktLaps, TotalBytes, ByteLaps;
    LateInRun(queues, ringSize, i, turns);
    PlacesSum(queues, ringSize, i, turns);
    assert |d.hist| == |PacketsOf(d.hist)|;
    if Exits in turns {
      LateIsStranded(queues, ringSize, i, turns);
    } else {
      d.RunningTotals();
    }
  }

  lemma PlacesSum(queues: nat, ringSize: nat, i: nat, turns: seq<Turn>)
    requires CanRun(queues, ringSize, i, turns)
    ensures var s := LifeAfter(queues, ringSize, i, turns);
      |DeliveredTo(turns, i)| == |s.dropped| + |s.ring| + |s.batch| + |s.counted|
  {
    hide LifeAfter, DeliveredTo, CanRun;
    var s := LifeAfter(queues, ringSize, i, turns);
    EachInOnePlace(queues, ringSize, i, turns);
    assert |multiset(DeliveredTo(turns, i))| ==
           |multiset(s.dropped)| + |multiset(s.ring)| + |multiset(s.batch)| + |multiset(s.counted)|;
  }

  lemma NewIsReady(d: Decode, world: set<FlowKey>)
    requires d.Valid() && d.flowTable == map[] && d.hist == [] && d.log == [] && NoCollisions(world)
    ensures Ready(d, world)
  {
  }
}
