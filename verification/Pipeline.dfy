/** The way of a packet buffer: from the network card into a ring, from the ring into a decoder's batch,
    and back to the pool. */
module Pipeline {
  import opened Powers
  import opened Counters

  const BURST_SIZE: nat := 128

  /** A filled packet buffer; the same buffer filled again is another one. */
  type Mbuf = nat

  /** One receive queue: the ring, and the batch its decoder took out last. */
  datatype Lane = Lane(ring: seq<Mbuf>, batch: seq<Mbuf>)

  /** Everything that ever happened in a lane. */
  datatype Trail = Trail(seen: seq<Mbuf>, accepted: seq<Mbuf>, dropped: seq<Mbuf>, released: seq<Mbuf>)

  /** Each buffer seen was accepted or dropped, once; the accepted ones stay in order until their release. */
  ghost predicate Accounted(lane: Lane, trail: Trail, ringSize: nat) {
    && |lane.ring| <= ringSize && |lane.batch| <= BURST_SIZE
    && trail.accepted == trail.released + lane.batch + lane.ring
    && multiset(trail.seen) == multiset(trail.accepted) + multiset(trail.dropped)
  }

  function SeenIn(trails: seq<Trail>): nat {
    if trails == [] then 0 else SeenIn(trails[..|trails| - 1]) + |trails[|trails| - 1].seen|
  }

  function DroppedIn(trails: seq<Trail>): nat {
    if trails == [] then 0 else DroppedIn(trails[..|trails| - 1]) + |trails[|trails| - 1].dropped|
  }

  function ReleasedIn(trails: seq<Trail>): nat {
    if trails == [] then 0 else ReleasedIn(trails[..|trails| - 1]) + |trails[|trails| - 1].released|
  }

  function HeldIn(lanes: seq<Lane>): nat {
    if lanes == [] then 0
    else HeldIn(lanes[..|lanes| - 1]) + |lanes[|lanes| - 1].ring| + |lanes[|lanes| - 1].batch|
  }

  ghost predicate AllAccounted(lanes: seq<Lane>, trails: seq<Trail>, ringSize: nat) {
    |trails| == |lanes| && forall i :: 0 <= i < |lanes| ==> Accounted(lanes[i], trails[i], ringSize)
  }

  lemma LaneBalance(lane: Lane, trail: Trail, ringSize: nat)
    requires Accounted(lane, trail, ringSize)
    ensures |trail.seen| == |trail.dropped| + |lane.ring| + |lane.batch| + |trail.released|
  {
    assert |multiset(trail.seen)| == |trail.seen|;
    assert |multiset(trail.accepted)| == |trail.accepted|;
    assert |multiset(trail.dropped)| == |trail.dropped|;
  }

  /** Captured is dropped, or held by a ring or a decoder, or released. */
  lemma {:induction false} Balance(lanes: seq<Lane>, trails: seq<Trail>, ringSize: nat)
    requires AllAccounted(lanes, trails, ringSize)
    ensures SeenIn(trails) == DroppedIn(trails) + HeldIn(lanes) + ReleasedIn(trails)
  {
    if lanes != [] {
      var n := |lanes| - 1;
      assert Accounted(lanes[n], trails[n], ringSize);
      LaneBalance(lanes[n], trails[n], ringSize);
      forall i | 0 <= i < n
        ensures Accounted(lanes[..n][i], trails[..n][i], ringSize)
      {
        assert Accounted(lanes[i], trails[i], ringSize);
      }
      Balance(lanes[..n], trails[..n], ringSize);
    }
  }

  lemma {:induction false} TotalsChange(trails: seq<Trail>, i: nat, t: Trail)
    requires i < |trails|
    ensures SeenIn(trails[i := t]) == SeenIn(trails) - |trails[i].seen| + |t.seen|
    ensures DroppedIn(trails[i := t]) == DroppedIn(trails) - |trails[i].dropped| + |t.dropped|
    ensures ReleasedIn(trails[i := t]) == ReleasedIn(trails) - |trails[i].released| + |t.released|
  {
    var n := |trails| - 1;
    if i < n {
      assert trails[i := t][..n] == trails[..n][i := t];
      TotalsChange(trails[..n], i, t);
    } else {
      assert trails[i := t][..n] == trails[..n];
    }
  }

  lemma LaneCapture(lane: Lane, trail: Trail, ringSize: nat, burst: seq<Mbuf>, n: nat)
    requires Accounted(lane, trail, ringSize) && n <= |burst| && |lane.ring| + n <= ringSize
    ensures Accounted(lane.(ring := lane.ring + burst[..n]),
                      Trail(trail.seen + burst, trail.accepted + burst[..n], trail.dropped + burst[n..],
                            trail.released),
                      ringSize)
  {
    assert burst == burst[..n] + burst[n..];
    assert multiset(burst) == multiset(burst[..n]) + multiset(burst[n..]);
  }

  lemma LaneDequeue(lane: Lane, trail: Trail, ringSize: nat, n: nat)
    requires Accounted(lane, trail, ringSize) && lane.batch == [] && n == Min(BURST_SIZE, |lane.ring|)
    ensures Accounted(Lane(lane.ring[n..], lane.ring[..n]), trail, ringSize)
  {
    assert lane.ring == lane.ring[..n] + lane.ring[n..];
  }

  lemma LaneRelease(lane: Lane, trail: Trail, ringSize: nat)
    requires Accounted(lane, trail, ringSize)
    ensures Accounted(lane.(batch := []), trail.(released := trail.released + lane.batch), ringSize)
  {
  }

  lemma LaneRoom(lane: Lane, trail: Trail, ringSize: nat)
    requires Accounted(lane, trail, ringSize)
    ensures |lane.ring| <= ringSize
    ensures lane == Lane([], []) ==> trail.released == trail.accepted
  {
  }

  lemma AccountedIn(lanes: seq<Lane>, trails: seq<Trail>, ringSize: nat, i: nat)
    requires AllAccounted(lanes, trails, ringSize) && i < |lanes|
    ensures |trails| == |lanes| && Accounted(lanes[i], trails[i], ringSize)
  {
  }

  lemma StillAccounted(lanes: seq<Lane>, trails: seq<Trail>, ringSize: nat, i: nat, lane: Lane, trail: Trail)
    requires AllAccounted(lanes, trails, ringSize) && i < |lanes| && Accounted(lane, trail, ringSize)
    ensures AllAccounted(lanes[i := lane], trails[i := trail], ringSize)
  {
  }

  /** The capturing thread and the decoding threads; any interleaving of these calls is a run. */
  class Capture {
    const ringSize: nat
    var lanes: seq<Lane>
    var capPktCount: U32
    var dropPktCount: U32
    ghost var trails: seq<Trail>

    ghost predicate Valid()
      reads this
    {
      && AllAccounted(lanes, trails, ringSize)
      && capPktCount == Wrapped(SeenIn(trails), WORD)
      && dropPktCount == Wrapped(DroppedIn(trails), WORD)
    }

    constructor (rxQueNumber: nat, ringSize: nat)
      ensures Valid() && |lanes| == |trails| == rxQueNumber && this.ringSize == ringSize
      ensures forall i :: 0 <= i < |lanes| ==> lanes[i] == Lane([], []) && trails[i] == Trail([], [], [], [])
    {
      this.ringSize := ringSize;
      lanes := seq(rxQueNumber, _ => Lane([], []));
      capPktCount, dropPktCount := 0, 0;
      trails := seq(rxQueNumber, _ => Trail([], [], [], []));
      NothingYet(seq(rxQueNumber, _ => Trail([], [], [], [])));
    }

    /** One received burst: what fits goes into the ring, the rest is freed at once. */
    method ReceiveBurst(i: nat, mbufs: seq<Mbuf>) returns (freed: seq<Mbuf>)
      requires Valid() && i < |lanes| && |mbufs| <= BURST_SIZE
      modifies this
      ensures Valid() && |trails| == |old(trails)| == |lanes|
      ensures var n := Min(|mbufs|, ringSize - |old(lanes)[i].ring|);
        && 0 <= n && freed == mbufs[n..]
        && lanes == old(lanes)[i := old(lanes)[i].(ring := old(lanes)[i].ring + mbufs[..n])]
        && trails == old(trails)[i := Trail(old(trails)[i].seen + mbufs, old(trails)[i].accepted + mbufs[..n],
                                            old(trails)[i].dropped + freed, old(trails)[i].released)]
    {
      hide Accounted, AllAccounted, SeenIn, DroppedIn, Wrapped;
      AccountedIn(lanes, trails, ringSize, i);
      var lane := lanes[i];
      ghost var t := trails[i];
      LaneRoom(lane, t, ringSize);
      var n := Min(|mbufs|, ringSize - |lane.ring|);
      LaneCapture(lane, t, ringSize, mbufs, n);
      ghost var u := Trail(t.seen + mbufs, t.accepted + mbufs[..n], t.dropped + mbufs[n..], t.released);
      TotalsChange(trails, i, u);
      StillAccounted(lanes, trails, ringSize, i, lane.(ring := lane.ring + mbufs[..n]), u);
      freed := FreeFrom(mbufs, n);
      CountBurst(|mbufs|, |mbufs| - n, SeenIn(trails), DroppedIn(trails));
      lanes := lanes[i := lane.(ring := lane.ring + mbufs[..n])];
      trails := trails[i := u];
    }

    method CountBurst(received: nat, dropped: nat, ghost seenBefore: nat, ghost droppedBefore: nat)
      requires capPktCount == Wrapped(seenBefore, WORD) && dropPktCount == Wrapped(droppedBefore, WORD)
      modifies this`capPktCount, this`dropPktCount
      ensures capPktCount == Wrapped(seenBefore + received, WORD)
      ensures dropPktCount == Wrapped(droppedBefore + dropped, WORD)
    {
      hide Wrapped;
      WrapStep(seenBefore, received, WORD);
      WrapStep(droppedBefore, dropped, WORD);
      WrappedIsModulo(capPktCount + received, WORD);
      WrappedIsModulo(dropPktCount + dropped, WORD);
      capPktCount := (capPktCount + received) % WORD;
      if dropped > 0 {
        dropPktCount := (dropPktCount + dropped) % WORD;
      }
    }

    static method FreeFrom(mbufs: seq<Mbuf>, start: nat) returns (freed: seq<Mbuf>)
      requires start <= |mbufs|
      ensures freed == mbufs[start..]
    {
      freed := [];
      for k := start to |mbufs|
        invariant freed == mbufs[start..k]
      {
        freed := freed + [mbufs[k]];
      }
    }

    /** A decoder takes up to a batch from its ring. */
    method DequeueBurst(i: nat) returns (count: nat)
      requires Valid() && i < |lanes| && lanes[i].batch == []
      modifies this`lanes
      ensures Valid() && count == Min(BURST_SIZE, |old(lanes)[i].ring|)
      ensures lanes == old(lanes)[i := Lane(old(lanes)[i].ring[count..], old(lanes)[i].ring[..count])]
    {
      hide Accounted, AllAccounted, SeenIn, DroppedIn, Wrapped;
      AccountedIn(lanes, trails, ringSize, i);
      var lane := lanes[i];
      count := Min(BURST_SIZE, |lane.ring|);
      LaneDequeue(lane, trails[i], ringSize, count);
      StillAccounted(lanes, trails, ringSize, i, Lane(lane.ring[count..], lane.ring[..count]), trails[i]);
      assert trails == trails[i := trails[i]];
      lanes := lanes[i := Lane(lane.ring[count..], lane.ring[..count])];
    }

    /** A decoder gives its batch back to the pool. */
    method ReleasePkt(i: nat) returns (freed: seq<Mbuf>)
      requires Valid() && i < |lanes|
      modifies this`lanes, this`trails
      ensures Valid() && |trails| == |old(trails)| == |lanes| && freed == old(lanes)[i].batch
      ensures lanes == old(lanes)[i := old(lanes)[i].(batch := [])]
      ensures trails == old(trails)[i := old(trails)[i].(released := old(trails)[i].released + freed)]
    {
      hide Accounted, AllAccounted, SeenIn, DroppedIn, Wrapped;
      AccountedIn(lanes, trails, ringSize, i);
      freed := FreeFrom(lanes[i].batch, 0);
      ghost var u := trails[i].(released := trails[i].released + lanes[i].batch);
      LaneRelease(lanes[i], trails[i], ringSize);
      TotalsChange(trails, i, u);
      StillAccounted(lanes, trails, ringSize, i, lanes[i].(batch := []), u);
      lanes := lanes[i := lanes[i].(batch := [])];
      trails := trails[i := u];
    }

    /** The decoder's loop after it was stopped: it ends with the ring empty and every accepted buffer released,
        in order. */
    method DrainRing(i: nat)
      requires Valid() && i < |lanes| && lanes[i].batch == []
      modifies this`lanes, this`trails
      ensures Valid() && |lanes| == |old(lanes)| && |trails| == |old(trails)| == |lanes|
      ensures lanes[i] == Lane([], []) && trails[i] == old(trails)[i].(released := old(trails)[i].accepted)
      ensures lanes == old(lanes)[i := lanes[i]] && trails == old(trails)[i := trails[i]]
    {
      hide Accounted, AllAccounted, SeenIn, DroppedIn, Wrapped;
      AccountedIn(lanes, trails, ringSize, i);
      while lanes[i].ring != []
        invariant Valid() && |lanes| == |old(lanes)| && |trails| == |old(trails)| == |lanes| && lanes[i].batch == []
        invariant trails[i] == old(trails)[i].(released := trails[i].released)
        invariant lanes == old(lanes)[i := lanes[i]] && trails == old(trails)[i := trails[i]]
        decreases |lanes[i].ring|
      {
        var count := DequeueBurst(i);
        var _ := ReleasePkt(i);
      }
      AccountedIn(lanes, trails, ringSize, i);
      LaneRoom(lanes[i], trails[i], ringSize);
    }

    /** Nothing is lost in any run. */
    lemma Conservation()
      requires Valid()
      ensures SeenIn(trails) == DroppedIn(trails) + HeldIn(lanes) + ReleasedIn(trails)
      ensures SeenIn(trails) < WORD ==> capPktCount == dropPktCount + HeldIn(lanes) + ReleasedIn(trails)
    {
      Balance(lanes, trails, ringSize);
    }
  }

  /** What the threads do, one atomic step at a time. */
  datatype Step = Receive(i: nat, mbufs: seq<Mbuf>) | Dequeue(i: nat) | Release(i: nat)

  /** The card delivers a burst at most; a decoder dequeues only after it released its last batch. */
  ghost predicate Schedule(queues: nat, steps: seq<Step>) {
    forall k :: 0 <= k < |steps| ==>
      && steps[k].i < queues
      && (steps[k].Receive? ==> |steps[k].mbufs| <= BURST_SIZE)
      && (steps[k].Dequeue? ==> Emptied(steps[..k], steps[k].i))
  }

  /** The decoder of lane i has released what it dequeued. */
  ghost predicate Emptied(steps: seq<Step>, i: nat) {
    steps != [] && steps[|steps| - 1] != Release(i) ==>
      steps[|steps| - 1] != Dequeue(i) && Emptied(steps[..|steps| - 1], i)
  }

  /** Everything the card delivered to queue i, in order. */
  ghost function Delivered(steps: seq<Step>, i: nat): seq<Mbuf> {
    if steps == [] then []
    else
      var last := steps[|steps| - 1];
      Delivered(steps[..|steps| - 1], i) + if last.Receive? && last.i == i then last.mbufs else []
  }

  lemma StepPossible(queues: nat, steps: seq<Step>, k: nat)
    requires Schedule(queues, steps) && k < |steps|
    ensures steps[k].i < queues && (steps[k].Receive? ==> |steps[k].mbufs| <= BURST_SIZE)
    ensures steps[k].Dequeue? ==> Emptied(steps[..k], steps[k].i)
  {
  }

  /** What one more step adds to what was delivered, and whether a lane is empty after it. */
  lemma OneStep(steps: seq<Step>, k: nat, i: nat)
    requires k < |steps|
    ensures Delivered(steps[..k + 1], i) ==
            Delivered(steps[..k], i) + if steps[k].Receive? && steps[k].i == i then steps[k].mbufs else []
    ensures Emptied(steps[..k + 1], i) <==>
            steps[k] == Release(i) || (steps[k] != Dequeue(i) && Emptied(steps[..k], i))
  {
    assert steps[..k + 1][..k] == steps[..k];
  }

  /** All interleavings of one capturing thread and one decoder for each queue. */
  method Run(queues: nat, ringSize: nat, steps: seq<Step>) returns (c: Capture)
    requires Schedule(queues, steps)
    ensures c.Valid() && |c.lanes| == |c.trails| == queues && c.ringSize == ringSize
    ensures forall i :: 0 <= i < queues ==> c.trails[i].seen == Delivered(steps, i)
    ensures forall i :: 0 <= i < queues ==> Accounted(c.lanes[i], c.trails[i], ringSize)
    ensures SeenIn(c.trails) == DroppedIn(c.trails) + HeldIn(c.lanes) + ReleasedIn(c.trails)
  {
    hide Accounted, AllAccounted, SeenIn, DroppedIn, Wrapped, Schedule, Delivered, Emptied;
    NothingDelivered(queues);
    c := new Capture(queues, ringSize);
    assert steps[..0] == [];
    for k := 0 to |steps|
      invariant c.Valid() && |c.lanes| == |c.trails| == queues && c.ringSize == ringSize && fresh(c)
      invariant forall i :: 0 <= i < queues ==> c.trails[i].seen == Delivered(steps[..k], i)
      invariant forall i :: 0 <= i < queues && Emptied(steps[..k], i) ==> c.lanes[i].batch == []
    {
      StepPossible(queues, steps, k);
      forall i | 0 <= i < queues
        ensures Delivered(steps[..k + 1], i) ==
                Delivered(steps[..k], i) + if steps[k].Receive? && steps[k].i == i then steps[k].mbufs else []
        ensures Emptied(steps[..k + 1], i) <==>
                steps[k] == Release(i) || (steps[k] != Dequeue(i) && Emptied(steps[..k], i))
      {
        OneStep(steps, k, i);
      }
      match steps[k] {
        case Receive(i, mbufs) => var _ := c.ReceiveBurst(i, mbufs);
        case Dequeue(i) => var _ := c.DequeueBurst(i);
        case Release(i) => var _ := c.ReleasePkt(i);
      }
    }
    assert steps[..|steps|] == steps;
    c.Conservation();
    forall i | 0 <= i < queues
      ensures Accounted(c.lanes[i], c.trails[i], ringSize)
    {
      AccountedIn(c.lanes, c.trails, ringSize, i);
    }
  }

  lemma NothingDelivered(queues: nat)
    ensures forall i :: 0 <= i < queues ==> Delivered([], i) == []
  {
  }

  lemma {:induction false} NothingYet(trails: seq<Trail>)
    requires forall i :: 0 <= i < |trails| ==> trails[i] == Trail([], [], [], [])
    ensures SeenIn(trails) == DroppedIn(trails) == ReleasedIn(trails) == 0
  {
    if trails != [] {
      NothingYet(trails[..|trails| - 1]);
    }
  }
}
