/** When the decoder's assertion about the sender of a packet can fail: two unrelated keys with one hash. */
module Collisions {
  import opened Flow
  import opened FlowState
  import opened FlowTally
  import opened FlowEnds
  import opened Decoding

  /** What a decoder gets: packets, and the end of a burst, where it ends the flows whose time is up. */
  datatype Input = Arrival(packet: Packet) | BurstEnd

  /** The same, with the serial number and time a new flow would have, and with the time of the clearing. */
  datatype Event = Arrived(packet: Packet, serial: nat, begin: nat) | Cleared(outTime: nat, now: nat)

  predicate SenderHolds(table: Table, p: Packet) {
    Joins(table, p) ==> SenderKnown(table[GetHash(p.key)].ip1, table[GetHash(p.key)].ip2, p.key)
  }

  predicate Holds(table: Table, e: Event) {
    e.Arrived? ==> SenderHolds(table, e.packet)
  }

  function Base(table: Table, p: Packet, serial: nat, begin: nat): FlowContext {
    if Joins(table, p) then table[GetHash(p.key)] else Opened(serial, p.key, begin)
  }

  /** The table after a packet was put into the flow base. */
  function Inserted(table: Table, p: Packet, base: FlowContext): Table {
    if Closed(base) then table - {GetHash(p.key)} else table[GetHash(p.key) := FinMarked(Counted(base, p), p)]
  }

  function Unexpired(table: Table, outTime: nat, now: nat): Table {
    map h | h in table && table[h].beginTime + outTime > now :: table[h]
  }

  function After(table: Table, e: Event): Table {
    match e
    case Arrived(p, serial, begin) => Inserted(table, p, Base(table, p, serial, begin))
    case Cleared(outTime, now) => Unexpired(table, outTime, now)
  }

  /** The table after a whole run. */
  function AfterAll(events: seq<Event>): Table {
    if events == [] then map[] else After(AfterAll(events[..|events| - 1]), events[|events| - 1])
  }

  /** The assertion holds for every packet of a run from the empty table. */
  predicate NeverFails(events: seq<Event>) {
    forall i :: 0 <= i < |events| ==> Holds(AfterAll(events[..i]), events[i])
  }

  ghost predicate KeysIn(events: seq<Event>, world: set<FlowKey>) {
    forall e :: e in events && e.Arrived? ==> e.packet.key in world
  }

  /** The packets of a run, as the history that gives every stored flow its opener. */
  ghost function Arrivals(events: seq<Event>): seq<Delivery> {
    if events == [] then []
    else
      var e := events[|events| - 1];
      Arrivals(events[..|events| - 1]) + if e.Arrived? then [Delivery(e.packet, e.serial)] else []
  }

  lemma OneArrival(table: Table, hist: seq<Delivery>, world: set<FlowKey>, e: Event)
    requires Rooted(table, hist) && Within(hist, world) && e.Arrived? && e.packet.key in world
    ensures Rooted(After(table, e), hist + [Delivery(e.packet, e.serial)])
    ensures Within(hist + [Delivery(e.packet, e.serial)], world)
  {
    hide GetHash, Rooted, Within;
    var base := Base(table, e.packet, e.serial, e.begin);
    assert After(table, e) - {GetHash(e.packet.key)} == table - {GetHash(e.packet.key)};
    StaysRooted(table, After(table, e), hist, GetHash(e.packet.key), Delivery(e.packet, e.serial), base);
    StaysWithin(hist, world, e.packet, e.serial);
  }

  lemma {:induction false} RunRooted(events: seq<Event>, world: set<FlowKey>)
    requires KeysIn(events, world)
    ensures Rooted(AfterAll(events), Arrivals(events)) && Within(Arrivals(events), world)
  {
    if events != [] {
      hide Rooted, Within, After;
      var before, e := events[..|events| - 1], events[|events| - 1];
      assert e in events;
      RunRooted(before, world);
      if e.Arrived? {
        OneArrival(AfterAll(before), Arrivals(before), world, e);
      } else {
        ClearedRooted(AfterAll(before), Arrivals(before), e);
        assert Arrivals(before) + [] == Arrivals(before);
      }
    }
  }

  lemma ClearedRooted(table: Table, hist: seq<Delivery>, e: Event)
    requires Rooted(table, hist) && e.Cleared?
    ensures Rooted(After(table, e), hist)
  {
    hide Rooted;
    RootedInFewer(table, After(table, e), hist);
  }

  /** Without collisions no run fails. */
  lemma ApartNeverFails(events: seq<Event>, world: set<FlowKey>)
    requires KeysIn(events, world) && NoCollisions(world)
    ensures NeverFails(events)
  {
    hide Rooted, Within, NoCollisions;
    forall i | 0 <= i < |events|
      ensures Holds(AfterAll(events[..i]), events[i])
    {
      if events[i].Arrived? {
        RunRooted(events[..i], world);
        SenderIsKnown(AfterAll(events[..i]), Arrivals(events[..i]), world, events[i].packet);
      }
    }
  }

  /** Any packet of b, and then one of a that does not start the flow over: the assertion fails. */
  lemma MeetingFails(first: Packet, second: Packet, serial: nat, begin: nat)
    requires GetHash(second.key) == GetHash(first.key) && (second.isSyn ==> first.isSyn)
    requires !SenderKnown(first.key.ip1, first.key.ip2, second.key)
    ensures !SenderHolds(AfterAll([Arrived(first, serial, begin)]), second)
  {
    hide GetHash;
    var e := Arrived(first, serial, begin);
    assert [e][..0] == [];
    assert AfterAll([e]) == After(map[], e);
  }

  lemma FailingRun(a: FlowKey, b: FlowKey, world: set<FlowKey>) returns (run: seq<Event>)
    requires a in world && b in world && GetHash(a) == GetHash(b) && !SenderKnown(b.ip1, b.ip2, a)
    ensures KeysIn(run, world) && !NeverFails(run)
  {
    hide AfterAll, SenderHolds, GetHash, SenderKnown;
    var first, second := Packet(b, 0, false, false), Packet(a, 0, false, false);
    run := [Arrived(first, 0, 0), Arrived(second, 1, 0)];
    MeetingFails(first, second, 0, 0);
    assert run[..1] == [run[0]];
    assert !Holds(AfterAll(run[..1]), run[1]);
  }

  /** No run over a set of keys fails the assertion if and only if no two keys of the set collide. */
  lemma NeverFailsIff(world: set<FlowKey>)
    ensures (forall events | KeysIn(events, world) :: NeverFails(events)) <==> NoCollisions(world)
  {
    if NoCollisions(world) {
      forall events | KeysIn(events, world)
        ensures NeverFails(events)
      {
        ApartNeverFails(events, world);
      }
    } else {
      var a, b :| a in world && b in world && GetHash(a) == GetHash(b) && !SenderKnown(b.ip1, b.ip2, a);
      var run := FailingRun(a, b, world);
    }
  }

  // The decoder itself takes such a run.

  lemma InsertedIs(was: Table, now: Table, p: Packet, base: FlowContext)
    requires now - {GetHash(p.key)} == was - {GetHash(p.key)}
    requires Closed(base) ==> GetHash(p.key) !in now
    requires !Closed(base) ==> GetHash(p.key) in now && now[GetHash(p.key)] == FinMarked(Counted(base, p), p)
    ensures now == Inserted(was, p, base)
  {
    hide GetHash, Counted, FinMarked, Closed;
    var h := GetHash(p.key);
    if h in now {
      assert now == (now - {h})[h := now[h]] == was[h := now[h]];
    } else {
      assert now == now - {h};
    }
  }

  /** What an event says of an input. */
  predicate Tells(e: Event, input: Input) {
    match input
    case Arrival(p) => e.Arrived? && e.packet == p
    case BurstEnd => e.Cleared?
  }

  /** Feeds a new decoder until the assertion would fail, if it does. */
  method Feed(d: Decode, inputs: seq<Input>) returns (n: nat, ghost events: seq<Event>)
    requires d.Valid() && d.flowTable == map[] && d.log == []
    modifies d, d.flowCache
    ensures d.Valid() && Remembered(d.flowTable, d.log, d.hist) && d.flowTable == AfterAll(events) && NeverFails(events)
    ensures |events| == n <= |inputs| && forall i :: 0 <= i < n ==> Tells(events[i], inputs[i])
    ensures n < |inputs| ==> inputs[n].Arrival? && !SenderHolds(d.flowTable, inputs[n].packet)
  {
    NothingTold(d.flowTable, d.log, d.hist);
    hide *;
    n, events := 0, [];
    NothingFails();
    while n < |inputs|
      invariant d.Valid() && Remembered(d.flowTable, d.log, d.hist)
      invariant d.flowTable == AfterAll(events) && NeverFails(events)
      invariant |events| == n <= |inputs| && forall i :: 0 <= i < n ==> Tells(events[i], inputs[i])
    {
      if inputs[n].Arrival? && !SenderHolds(d.flowTable, inputs[n].packet) {
        return;
      }
      ghost var e := FeedOne(d, inputs[n]);
      RunGrows(events, e);
      n, events := n + 1, events + [e];
    }
  }

  method FeedOne(d: Decode, input: Input) returns (ghost e: Event)
    requires d.Valid() && Remembered(d.flowTable, d.log, d.hist)
    requires input.Arrival? ==> SenderHolds(d.flowTable, input.packet)
    modifies d, d.flowCache
    ensures d.Valid() && Remembered(d.flowTable, d.log, d.hist) && Tells(e, input)
    ensures Holds(old(d.flowTable), e) && d.flowTable == After(old(d.flowTable), e)
  {
    hide After, Holds, SenderHolds, Decode.Valid, Remembered, RecordOf, ExpiredFrom;
    ghost var t := d.flowTable;
    match input {
      case Arrival(p) => e := InsertPacket(d, p);
      case BurstEnd =>
        ghost var log := d.log;
        ghost var now, ended := d.ClearExpiredFlow();
        e := Cleared(d.flowOutTime, now);
        ClearedIs(t, d.flowTable, e);
        NamedRecords(t, d.flowTable, log, ended, d.hist, now);
    }
  }

  lemma NothingFails()
    ensures NeverFails([]) && AfterAll([]) == map[]
  {
  }

  lemma RunGrows(events: seq<Event>, e: Event)
    requires NeverFails(events) && Holds(AfterAll(events), e)
    ensures NeverFails(events + [e]) && AfterAll(events + [e]) == After(AfterAll(events), e)
  {
    var run := events + [e];
    assert run[..|events|] == events;
    forall i | 0 <= i < |run|
      ensures Holds(AfterAll(run[..i]), run[i])
    {
      if i < |events| {
        assert run[..i] == events[..i];
      }
    }
  }

  lemma ClearedIs(was: Table, now: Table, e: Event)
    requires e.Cleared?
    requires forall h :: h in now <==> h in was && was[h].beginTime + e.outTime > e.now
    requires forall h :: h in now ==> now[h] == was[h]
    ensures now == After(was, e) && Holds(was, e)
  {
  }

  method InsertPacket(d: Decode, p: Packet) returns (ghost e: Event)
    requires d.Valid() && Remembered(d.flowTable, d.log, d.hist) && SenderHolds(d.flowTable, p)
    modifies d, d.flowCache
    ensures d.Valid() && Remembered(d.flowTable, d.log, d.hist) && e.Arrived? && e.packet == p
    ensures Holds(old(d.flowTable), e) && d.flowTable == After(old(d.flowTable), e)
  {
    ghost var t, made := d.flowTable, d.made;
    ghost var _, base, _ := d.InsertFlowTable(p);
    e := Arrived(p, made, base.beginTime);
    InsertedIs(t, d.flowTable, p, base);
  }

  /** Two such packets stop any new decoder at the second one. */
  method Meet(d: Decode, first: Packet, second: Packet) returns (n: nat)
    requires d.Valid() && d.flowTable == map[] && d.log == []
    requires GetHash(second.key) == GetHash(first.key) && (second.isSyn ==> first.isSyn)
    requires !SenderKnown(first.key.ip1, first.key.ip2, second.key)
    modifies d, d.flowCache
    ensures n == 1 && !SenderHolds(d.flowTable, second)
  {
    ghost var events;
    n, events := Feed(d, [Arrival(first), Arrival(second)]);
    if n > 0 {
      MeetingFails(first, second, events[0].serial, events[0].begin);
      assert events[..1] == [events[0]];
    }
  }
}
