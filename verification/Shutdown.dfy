/** The end of a capture, for one receive queue: two flags are stored, the capturing thread and the decoder see them
    when they next look, and nobody waits for anybody. */
module Shutdown {
  import opened Powers
  import opened Pipeline

  /** The capturing thread polls all queues in order, round after round, and looks at its flag before each round. The
      decoder of the queue looks before each batch, and exits when its flag is down and its ring is empty. */
  datatype Turn =
    | Rounds
    | Polls(queue: nat, mbufs: seq<Mbuf>)
    | StopsCapture
    | StopsDecoder
    | Dequeues
    | Counts
    | Exits

  /** next is the queue the capturing thread polls next; a round is over when there is none. */
  datatype Life = Life(
    capturing: bool, next: nat, decoding: bool, exited: bool,
    ring: seq<Mbuf>, batch: seq<Mbuf>, counted: seq<Mbuf>, dropped: seq<Mbuf>)

  /** The flag of the capture is always stored first. */
  predicate Possible(queues: nat, s: Life, t: Turn) {
    match t
    case Rounds => s.capturing && s.next == queues
    case Polls(queue, mbufs) => queue == s.next < queues && |mbufs| <= BURST_SIZE
    case StopsCapture => true
    case StopsDecoder => !s.capturing
    case Dequeues => !s.exited && s.batch == []
    case Counts => !s.exited && s.batch != []
    case Exits => !s.exited && !s.decoding && s.batch == [] && s.ring == []
  }

  function Room(ringSize: nat, ring: seq<Mbuf>): nat {
    Max(ringSize - |ring|, 0)
  }

  /** What a turn means for queue i. */
  function After(ringSize: nat, i: nat, s: Life, t: Turn): Life {
    match t
    case Rounds => s.(next := 0)
    case Polls(queue, mbufs) =>
      var n := Min(|mbufs|, Room(ringSize, s.ring));
      if queue == i
      then s.(next := queue + 1, ring := s.ring + mbufs[..n], dropped := s.dropped + mbufs[n..])
      else s.(next := queue + 1)
    case StopsCapture => s.(capturing := false)
    case StopsDecoder => s.(decoding := false)
    case Dequeues =>
      var n := Min(BURST_SIZE, |s.ring|);
      s.(ring := s.ring[n..], batch := s.ring[..n])
    case Counts => s.(batch := [], counted := s.counted + s.batch)
    case Exits => s.(exited := true)
  }

  function LifeAfter(queues: nat, ringSize: nat, i: nat, turns: seq<Turn>): Life {
    if turns == [] then Life(true, queues, true, false, [], [], [], [])
    else After(ringSize, i, LifeAfter(queues, ringSize, i, turns[..|turns| - 1]), turns[|turns| - 1])
  }

  /** Every turn is possible when it comes. */
  predicate CanRun(queues: nat, ringSize: nat, i: nat, turns: seq<Turn>) {
    turns != [] ==>
      && CanRun(queues, ringSize, i, turns[..|turns| - 1])
      && Possible(queues, LifeAfter(queues, ringSize, i, turns[..|turns| - 1]), turns[|turns| - 1])
  }

  /** What a turn brings for queue i. */
  function Brought(t: Turn, i: nat): seq<Mbuf> {
    if t.Polls? && t.queue == i then t.mbufs else []
  }

  /** Everything the card delivered to queue i. */
  function DeliveredTo(turns: seq<Turn>, i: nat): seq<Mbuf> {
    if turns == [] then [] else DeliveredTo(turns[..|turns| - 1], i) + Brought(turns[|turns| - 1], i)
  }

  /** The part of it that came after the decoder's exit. */
  function LateFor(turns: seq<Turn>, i: nat): seq<Mbuf> {
    if turns == [] then []
    else LateFor(turns[..|turns| - 1], i) + if Exits in turns[..|turns| - 1] then Brought(turns[|turns| - 1], i) else []
  }

  /** One more turn. */
  lemma MoreTurns(queues: nat, ringSize: nat, i: nat, before: seq<Turn>, t: Turn)
    ensures CanRun(queues, ringSize, i, before + [t]) <==>
            CanRun(queues, ringSize, i, before) && Possible(queues, LifeAfter(queues, ringSize, i, before), t)
    ensures LifeAfter(queues, ringSize, i, before + [t]) ==
            After(ringSize, i, LifeAfter(queues, ringSize, i, before), t)
    ensures DeliveredTo(before + [t], i) == DeliveredTo(before, i) + Brought(t, i)
    ensures LateFor(before + [t], i) == LateFor(before, i) + if Exits in before then Brought(t, i) else []
    ensures Exits in before + [t] <==> Exits in before || t == Exits
  {
    hide Possible, After, Brought;
    assert (before + [t])[..|before|] == before;
  }

  lemma {:induction false} PrefixCanRun(queues: nat, ringSize: nat, i: nat, turns: seq<Turn>, k: nat)
    requires k <= |turns| && CanRun(queues, ringSize, i, turns)
    ensures CanRun(queues, ringSize, i, turns[..k])
  {
    hide LifeAfter, Possible;
    if k < |turns| {
      PrefixCanRun(queues, ringSize, i, turns[..|turns| - 1], k);
      assert turns[..|turns| - 1][..k] == turns[..k];
    } else {
      assert turns[..k] == turns;
    }
  }

  /** Each buffer delivered is in exactly one place. */
  ghost predicate InPlaces(s: Life, delivered: seq<Mbuf>) {
    multiset(delivered) == multiset(s.dropped) + multiset(s.ring) + multiset(s.batch) + multiset(s.counted)
  }

  lemma PlacesPolled(s: Life, delivered: seq<Mbuf>, mbufs: seq<Mbuf>, n: nat)
    requires InPlaces(s, delivered) && n <= |mbufs|
    ensures InPlaces(s.(ring := s.ring + mbufs[..n], dropped := s.dropped + mbufs[n..]), delivered + mbufs)
  {
    assert mbufs == mbufs[..n] + mbufs[n..];
    assert multiset(delivered + mbufs) == multiset(delivered) + multiset(mbufs[..n]) + multiset(mbufs[n..]);
    assert multiset(s.ring + mbufs[..n]) == multiset(s.ring) + multiset(mbufs[..n]);
    assert multiset(s.dropped + mbufs[n..]) == multiset(s.dropped) + multiset(mbufs[n..]);
  }

  lemma PlacesDequeued(s: Life, delivered: seq<Mbuf>, n: nat)
    requires InPlaces(s, delivered) && n <= |s.ring| && s.batch == []
    ensures InPlaces(s.(ring := s.ring[n..], batch := s.ring[..n]), delivered)
  {
    assert s.ring == s.ring[..n] + s.ring[n..];
    assert multiset(s.ring) == multiset(s.ring[..n]) + multiset(s.ring[n..]);
  }

  lemma PlacesCounted(s: Life, delivered: seq<Mbuf>)
    requires InPlaces(s, delivered)
    ensures InPlaces(s.(batch := [], counted := s.counted + s.batch), delivered)
  {
    assert multiset(s.counted + s.batch) == multiset(s.counted) + multiset(s.batch);
  }

  lemma PlacesKept(queues: nat, ringSize: nat, i: nat, s: Life, t: Turn, delivered: seq<Mbuf>)
    requires InPlaces(s, delivered) && Possible(queues, s, t)
    ensures InPlaces(After(ringSize, i, s, t), delivered + Brought(t, i))
  {
    assert delivered + [] == delivered;
    match t
    case Polls(queue, mbufs) =>
      if queue == i {
        PlacesPolled(s, delivered, mbufs, Min(|mbufs|, Room(ringSize, s.ring)));
      }
    case Dequeues => PlacesDequeued(s, delivered, Min(BURST_SIZE, |s.ring|));
    case Counts => PlacesCounted(s, delivered);
    case _ =>
  }

  /** In any run, also an unfinished one. */
  lemma {:induction false} EachInOnePlace(queues: nat, ringSize: nat, i: nat, turns: seq<Turn>)
    requires CanRun(queues, ringSize, i, turns)
    ensures InPlaces(LifeAfter(queues, ringSize, i, turns), DeliveredTo(turns, i))
  {
    if turns != [] {
      hide InPlaces, After, Possible, CanRun, LifeAfter, DeliveredTo, LateFor;
      var before, t := turns[..|turns| - 1], turns[|turns| - 1];
      assert turns == before + [t];
      MoreTurns(queues, ringSize, i, before, t);
      EachInOnePlace(queues, ringSize, i, before);
      PlacesKept(queues, ringSize, i, LifeAfter(queues, ringSize, i, before), t, DeliveredTo(before, i));
    } else {
      assert InPlaces(LifeAfter(queues, ringSize, i, turns), []);
    }
  }

  /** What is known of a queue, late being what came after the exit. The last round of the capturing thread polls it
      once at most. */
  ghost predicate LateLeft(queues: nat, ringSize: nat, i: nat, s: Life, late: seq<Mbuf>) {
    && |s.ring| <= ringSize && s.next <= queues
    && (!s.decoding ==> !s.capturing)
    && (if s.exited
        then !s.decoding && s.batch == [] && s.ring == late[..Min(ringSize, |late|)]
             && |late| <= BURST_SIZE && (s.next <= i ==> late == [])
        else late == [])
  }

  lemma LateTurn(queues: nat, ringSize: nat, i: nat, s: Life, t: Turn, late: seq<Mbuf>)
    requires i < queues && LateLeft(queues, ringSize, i, s, late) && Possible(queues, s, t)
    ensures LateLeft(queues, ringSize, i, After(ringSize, i, s, t), late + if s.exited then Brought(t, i) else [])
  {
    assert late + [] == late;
    if t.Polls? && t.queue == i && s.exited {
      assert late == [] && late + t.mbufs == t.mbufs;
    }
  }

  lemma {:induction false} LateInRun(queues: nat, ringSize: nat, i: nat, turns: seq<Turn>)
    requires i < queues && CanRun(queues, ringSize, i, turns)
    ensures LateLeft(queues, ringSize, i, LifeAfter(queues, ringSize, i, turns), LateFor(turns, i))
    ensures LifeAfter(queues, ringSize, i, turns).exited <==> Exits in turns
  {
    if turns != [] {
      hide LateLeft, Possible, CanRun, After, Brought, LifeAfter, LateFor;
      var before, t := turns[..|turns| - 1], turns[|turns| - 1];
      assert turns == before + [t];
      MoreTurns(queues, ringSize, i, before, t);
      LateInRun(queues, ringSize, i, before);
      LateTurn(queues, ringSize, i, LifeAfter(queues, ringSize, i, before), t, LateFor(before, i));
      ExitStays(ringSize, i, LifeAfter(queues, ringSize, i, before), t);
    } else {
      assert LateLeft(queues, ringSize, i, LifeAfter(queues, ringSize, i, turns), []);
    }
  }

  lemma ExitStays(ringSize: nat, i: nat, s: Life, t: Turn)
    ensures After(ringSize, i, s, t).exited <==> s.exited || t == Exits
  {
  }

  /** Once the decoder has exited, the ring holds what came after that, as far as there is room: one burst at most. */
  lemma LateIsStranded(queues: nat, ringSize: nat, i: nat, turns: seq<Turn>)
    requires i < queues && CanRun(queues, ringSize, i, turns) && Exits in turns
    ensures var s, late := LifeAfter(queues, ringSize, i, turns), LateFor(turns, i);
      s.batch == [] && s.ring == late[..Min(ringSize, |late|)] && |late| <= BURST_SIZE
  {
    LateInRun(queues, ringSize, i, turns);
  }

  /** After the exit every buffer delivered was dropped or counted if and only if none came after it that found room. */
  lemma AllCountedIff(queues: nat, ringSize: nat, i: nat, turns: seq<Turn>)
    requires i < queues && CanRun(queues, ringSize, i, turns) && Exits in turns
    ensures var s := LifeAfter(queues, ringSize, i, turns);
      multiset(DeliveredTo(turns, i)) == multiset(s.dropped) + multiset(s.counted)
      <==> ringSize == 0 || LateFor(turns, i) == []
  {
    hide LifeAfter, DeliveredTo, LateFor, CanRun;
    var s := LifeAfter(queues, ringSize, i, turns);
    LateIsStranded(queues, ringSize, i, turns);
    EachInOnePlace(queues, ringSize, i, turns);
    assert |multiset(s.ring)| == |s.ring|;
    assert |multiset(DeliveredTo(turns, i))| == |multiset(s.dropped)| + |multiset(s.ring)| + |multiset(s.counted)|;
  }

  /** Whatever comes later, what is in the ring then is there for good. */
  lemma {:induction false} StrandedForGood(queues: nat, ringSize: nat, i: nat, turns: seq<Turn>, more: seq<Turn>)
    requires i < queues && CanRun(queues, ringSize, i, turns + more) && Exits in turns
    ensures var s, t := LifeAfter(queues, ringSize, i, turns), LifeAfter(queues, ringSize, i, turns + more);
      s.ring <= t.ring && t.counted == s.counted
  {
    if more != [] {
      hide LateLeft, CanRun, LifeAfter, LateFor, DeliveredTo;
      var before, last := more[..|more| - 1], more[|more| - 1];
      assert turns + more == (turns + before) + [last];
      MoreTurns(queues, ringSize, i, turns + before, last);
      LateInRun(queues, ringSize, i, turns + before);
      StrandedForGood(queues, ringSize, i, turns, before);
    } else {
      assert turns + more == turns;
    }
  }

  /** A turn from a known state to a known state that brings nothing. */
  lemma QuietTurn(ringSize: nat, before: seq<Turn>, t: Turn, s: Life, next: Life, turns: seq<Turn>)
    requires CanRun(1, ringSize, 0, before) && LifeAfter(1, ringSize, 0, before) == s && !t.Polls?
    requires DeliveredTo(before, 0) == LateFor(before, 0) == []
    requires Possible(1, s, t) && After(ringSize, 0, s, t) == next && turns == before + [t]
    ensures CanRun(1, ringSize, 0, turns) && LifeAfter(1, ringSize, 0, turns) == next
    ensures DeliveredTo(turns, 0) == LateFor(turns, 0) == []
  {
    hide CanRun, LifeAfter, DeliveredTo, LateFor;
    MoreTurns(1, ringSize, 0, before, t);
  }

  /** The capture is stopped in the middle of a round, and the decoder exits. */
  lemma ExitInRound(ringSize: nat) returns (turns: seq<Turn>)
    ensures turns == [Rounds, StopsCapture, StopsDecoder, Exits] && CanRun(1, ringSize, 0, turns)
    ensures LifeAfter(1, ringSize, 0, turns) == Life(false, 0, false, true, [], [], [], [])
    ensures DeliveredTo(turns, 0) == LateFor(turns, 0) == []
  {
    hide CanRun, LifeAfter, DeliveredTo, LateFor;
    NoTurns(1, ringSize, 0);
    var s0 := Life(true, 1, true, false, [], [], [], []);
    var s1, s2 := s0.(next := 0), s0.(next := 0, capturing := false);
    var s3 := s2.(decoding := false);
    QuietTurn(ringSize, [], Rounds, s0, s1, [Rounds]);
    QuietTurn(ringSize, [Rounds], StopsCapture, s1, s2, [Rounds, StopsCapture]);
    QuietTurn(ringSize, [Rounds, StopsCapture], StopsDecoder, s2, s3, [Rounds, StopsCapture, StopsDecoder]);
    turns := [Rounds, StopsCapture, StopsDecoder, Exits];
    QuietTurn(ringSize, [Rounds, StopsCapture, StopsDecoder], Exits, s3, s3.(exited := true), turns);
  }

  lemma NoTurns(queues: nat, ringSize: nat, i: nat)
    ensures CanRun(queues, ringSize, i, []) && DeliveredTo([], i) == LateFor([], i) == []
    ensures LifeAfter(queues, ringSize, i, []) == Life(true, queues, true, false, [], [], [], [])
  {
  }

  /** The round goes on with one buffer. It is neither dropped nor counted, and never will be. */
  lemma StrandedExample(ringSize: nat, more: seq<Turn>)
    requires ringSize > 0
    ensures var turns := [Rounds, StopsCapture, StopsDecoder, Exits, Polls(0, [7])];
      && CanRun(1, ringSize, 0, turns) && LateFor(turns, 0) == DeliveredTo(turns, 0) == [7]
      && (CanRun(1, ringSize, 0, turns + more) ==>
            7 in LifeAfter(1, ringSize, 0, turns + more).ring && LifeAfter(1, ringSize, 0, turns + more).counted == [])
  {
    hide CanRun, LifeAfter, DeliveredTo, LateFor;
    var before := ExitInRound(ringSize);
    var turns := before + [Polls(0, [7])];
    assert Exits in before by { assert before[3] == Exits; }
    assert Exits in turns by { assert turns[3] == Exits; }
    MoreTurns(1, ringSize, 0, before, Polls(0, [7]));
    assert turns == [Rounds, StopsCapture, StopsDecoder, Exits, Polls(0, [7])];
    assert LifeAfter(1, ringSize, 0, turns).ring == [7];
    if CanRun(1, ringSize, 0, turns + more) {
      StrandedForGood(1, ringSize, 0, turns, more);
      assert LifeAfter(1, ringSize, 0, turns + more).ring[0] == 7;
    }
  }
}
