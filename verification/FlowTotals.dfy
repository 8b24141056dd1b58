/** Over all flows together, nothing is lost and nothing is counted twice. */
module FlowTotals {
  import opened Counters
  import opened Flow
  import opened FlowCaching
  import opened FlowTally
  import opened FlowState

  function TotalPkts(flows: seq<FlowContext>): nat {
    if flows == [] then 0 else TotalPkts(flows[1..]) + Pkts(flows[0])
  }

  function TotalBytes(flows: seq<FlowContext>): nat {
    if flows == [] then 0 else TotalBytes(flows[1..]) + Bytes(flows[0])
  }

  function BytesSeen(hist: seq<Delivery>): nat {
    if hist == [] then 0 else BytesSeen(hist[..|hist| - 1]) + hist[|hist| - 1].packet.bytes
  }

  /** The same totals without wrap-around. */
  ghost function ExactPkts(flows: seq<FlowContext>, hist: seq<Delivery>): nat {
    if flows == [] then 0
    else var t := TallyOf(hist, flows[0].serial, flows[0].ip1); ExactPkts(flows[1..], hist) + t.pkts12 + t.pkts21
  }

  ghost function ExactBytes(flows: seq<FlowContext>, hist: seq<Delivery>): nat {
    if flows == [] then 0
    else var t := TallyOf(hist, flows[0].serial, flows[0].ip1); ExactBytes(flows[1..], hist) + t.bytes12 + t.bytes21
  }

  ghost predicate Distinct(flows: seq<FlowContext>) {
    forall i, j :: 0 <= i < j < |flows| ==> flows[i].serial != flows[j].serial
  }

  ghost predicate HasSerial(flows: seq<FlowContext>, serial: nat) {
    exists i :: 0 <= i < |flows| && flows[i].serial == serial
  }

  ghost predicate Cover(flows: seq<FlowContext>, hist: seq<Delivery>) {
    forall d :: d in hist ==> HasSerial(flows, d.serial)
  }

  lemma {:induction false} NotMine(flows: seq<FlowContext>, hist: seq<Delivery>, d: Delivery)
    requires !HasSerial(flows, d.serial)
    ensures ExactPkts(flows, hist + [d]) == ExactPkts(flows, hist)
    ensures ExactBytes(flows, hist + [d]) == ExactBytes(flows, hist)
  {
    if flows != [] {
      TallySnoc(hist, d, flows[0].serial, flows[0].ip1);
      NotMine(flows[1..], hist, d);
    }
  }

  lemma {:induction false} OneMore(flows: seq<FlowContext>, hist: seq<Delivery>, d: Delivery)
    requires Distinct(flows) && HasSerial(flows, d.serial)
    ensures ExactPkts(flows, hist + [d]) == ExactPkts(flows, hist) + 1
    ensures ExactBytes(flows, hist + [d]) == ExactBytes(flows, hist) + d.packet.bytes
  {
    TallySnoc(hist, d, flows[0].serial, flows[0].ip1);
    var rest := flows[1..];
    if flows[0].serial == d.serial {
      NotMine(rest, hist, d);
    } else {
      var i :| 0 <= i < |flows| && flows[i].serial == d.serial;
      assert rest[i - 1].serial == d.serial;
      OneMore(rest, hist, d);
    }
  }

  lemma {:induction false} NothingSeen(flows: seq<FlowContext>)
    ensures ExactPkts(flows, []) == 0 && ExactBytes(flows, []) == 0
  {
    if flows != [] {
      NothingSeen(flows[1..]);
    }
  }

  /** Every packet is counted in exactly one flow. */
  lemma {:induction false} EachPacketOnce(flows: seq<FlowContext>, hist: seq<Delivery>)
    requires Distinct(flows) && Cover(flows, hist)
    ensures ExactPkts(flows, hist) == |hist| && ExactBytes(flows, hist) == BytesSeen(hist)
  {
    if hist == [] {
      NothingSeen(flows);
    } else {
      var before, d := hist[..|hist| - 1], hist[|hist| - 1];
      assert d in hist && before + [d] == hist;
      EachPacketOnce(flows, before);
      OneMore(flows, before, d);
    }
  }

  ghost predicate AllRight(flows: seq<FlowContext>, hist: seq<Delivery>) {
    forall i :: 0 <= i < |flows| ==> Right(flows[i], hist)
  }

  function Laps(n: nat): nat {
    n / WORD
  }

  lemma LapsAndRest(n: nat)
    ensures Wrapped(n, WORD) + WORD * Laps(n) == n
  {
    WrappedIsModulo(n, WORD);
  }

  /** How often the packet counters of all flows wrapped. */
  ghost function PktLaps(flows: seq<FlowContext>, hist: seq<Delivery>): nat {
    if flows == [] then 0
    else
      var t := TallyOf(hist, flows[0].serial, flows[0].ip1);
      PktLaps(flows[1..], hist) + Laps(t.pkts12) + Laps(t.pkts21)
  }

  ghost function ByteLaps(flows: seq<FlowContext>, hist: seq<Delivery>): nat {
    if flows == [] then 0
    else
      var t := TallyOf(hist, flows[0].serial, flows[0].ip1);
      ByteLaps(flows[1..], hist) + Laps(t.bytes12) + Laps(t.bytes21)
  }

  lemma {:induction false} CountersAndLaps(flows: seq<FlowContext>, hist: seq<Delivery>)
    requires AllRight(flows, hist)
    ensures TotalPkts(flows) + WORD * PktLaps(flows, hist) == ExactPkts(flows, hist)
    ensures TotalBytes(flows) + WORD * ByteLaps(flows, hist) == ExactBytes(flows, hist)
  {
    if flows != [] {
      var t := TallyOf(hist, flows[0].serial, flows[0].ip1);
      assert Right(flows[0], hist);
      CountersAndLaps(flows[1..], hist);
      LapsAndRest(t.pkts12);
      LapsAndRest(t.pkts21);
      LapsAndRest(t.bytes12);
      LapsAndRest(t.bytes21);
    }
  }

  /** Packets and bytes in all flows are those inserted, but for whole turns of the counters. */
  lemma Conservation(flows: seq<FlowContext>, hist: seq<Delivery>)
    requires Distinct(flows) && Cover(flows, hist) && AllRight(flows, hist)
    ensures TotalPkts(flows) + WORD * PktLaps(flows, hist) == |hist|
    ensures TotalBytes(flows) + WORD * ByteLaps(flows, hist) == BytesSeen(hist)
    ensures |hist| < WORD ==> TotalPkts(flows) == |hist|
    ensures BytesSeen(hist) < WORD ==> TotalBytes(flows) == BytesSeen(hist)
  {
    EachPacketOnce(flows, hist);
    CountersAndLaps(flows, hist);
    NoLap(TotalPkts(flows), PktLaps(flows, hist), |hist|);
    NoLap(TotalBytes(flows), ByteLaps(flows, hist), BytesSeen(hist));
  }

  lemma NoLap(total: nat, laps: nat, n: nat)
    requires total + WORD * laps == n
    ensures n < WORD ==> total == n
  {
  }

  /** The stored flows in the order of the expiry list. */
  ghost function LiveFlows(table: Table, cells: seq<Cell>): seq<FlowContext>
    requires forall c :: c in cells ==> GetHash(c.key) in table
  {
    seq(|cells|, i requires 0 <= i < |cells| => assert cells[i] in cells; table[GetHash(cells[i].key)])
  }

  ghost predicate KnowsBoth(place: seq<Place>, flows: seq<FlowContext>, at: seq<Place>) {
    && |at| == |flows|
    && (forall i :: 0 <= i < |flows| ==> KnowsPlace(place, flows[i].serial, at[i]))
    && (forall i, j :: 0 <= i < j < |at| ==> at[i] != at[j])
  }

  lemma DifferentPlaces(place: seq<Place>, flows: seq<FlowContext>, at: seq<Place>)
    requires KnowsBoth(place, flows, at)
    ensures Distinct(flows)
  {
    forall i, j | 0 <= i < j < |flows|
      ensures flows[i].serial != flows[j].serial
    {
      assert KnowsPlace(place, flows[i].serial, at[i]) && KnowsPlace(place, flows[j].serial, at[j]);
    }
  }

  lemma DifferentClasses(index: map<HashValue, nat>, cells: seq<Cell>, nextId: nat, i: nat, j: nat)
    requires Linked(GetHash, index, cells, nextId) && i < j < |cells|
    ensures GetHash(cells[i].key) != GetHash(cells[j].key)
  {
    assert cells[i] in cells && cells[j] in cells;
  }

  /** The places of n dumped records and of the flows in the cells. */
  ghost function PlacesOf(n: nat, cells: seq<Cell>): seq<Place> {
    seq(n, i requires 0 <= i => Dumped(i)) + seq(|cells|, i requires 0 <= i < |cells| => Live(GetHash(cells[i].key)))
  }

  lemma PlacesDiffer(index: map<HashValue, nat>, cells: seq<Cell>, nextId: nat, n: nat)
    requires Linked(GetHash, index, cells, nextId)
    ensures forall i, j :: 0 <= i < j < n + |cells| ==> PlacesOf(n, cells)[i] != PlacesOf(n, cells)[j]
  {
    hide Linked, GetHash;
    forall i, j | 0 <= i < j < n + |cells|
      ensures PlacesOf(n, cells)[i] != PlacesOf(n, cells)[j]
    {
      if i >= n {
        DifferentClasses(index, cells, nextId, i - n, j - n);
      }
    }
  }

  lemma PlaceKnown(cells: seq<Cell>, table: Table, log: seq<FlowContext>, place: seq<Place>, i: nat)
    requires Placed(table, log, place) && i < |log| + |cells|
    requires forall c :: c in cells ==> GetHash(c.key) in table
    ensures KnowsPlace(place, (log + LiveFlows(table, cells))[i].serial, PlacesOf(|log|, cells)[i])
  {
    hide GetHash;
    if i >= |log| {
      assert cells[i - |log|] in cells;
    }
  }

  /** The dumped records and the stored flows together are all flows, each once. */
  lemma AllFlowsDistinct(index: map<HashValue, nat>, cells: seq<Cell>, nextId: nat,
                         table: Table, log: seq<FlowContext>, place: seq<Place>)
    requires Linked(GetHash, index, cells, nextId) && index.Keys == table.Keys && Placed(table, log, place)
    requires forall c :: c in cells ==> GetHash(c.key) in table
    ensures Distinct(log + LiveFlows(table, cells))
  {
    hide Placed, Linked, KnowsPlace, GetHash;
    var flows := log + LiveFlows(table, cells);
    PlacesDiffer(index, cells, nextId, |log|);
    forall i | 0 <= i < |flows|
      ensures KnowsPlace(place, flows[i].serial, PlacesOf(|log|, cells)[i])
    {
      PlaceKnown(cells, table, log, place, i);
    }
    DifferentPlaces(place, flows, PlacesOf(|log|, cells));
  }

  lemma EverySerialFound(hash: Hasher, cells: seq<Cell>, table: Table, log: seq<FlowContext>, place: seq<Place>, s: nat)
    requires Placed(table, log, place) && s < |place| && hash == GetHash
    requires forall c :: c in cells ==> GetHash(c.key) in table
    requires forall h :: h in table ==> HasCell(hash, cells, h)
    ensures HasSerial(log + LiveFlows(table, cells), s)
  {
    var flows := log + LiveFlows(table, cells);
    assert AtPlace(table, log, s, place[s]);
    match place[s]
    case Dumped(i) =>
      assert flows[i].serial == s;
    case Live(h) =>
      assert HasCell(hash, cells, h);
      var c :| c in cells && hash(c.key) == h;
      var k :| 0 <= k < |cells| && cells[k] == c;
      assert flows[|log| + k].serial == s;
  }

  lemma AllFlowsCover(index: map<HashValue, nat>, cells: seq<Cell>, nextId: nat,
                      table: Table, log: seq<FlowContext>, place: seq<Place>, hist: seq<Delivery>)
    requires Linked(GetHash, index, cells, nextId) && index.Keys == table.Keys && Placed(table, log, place)
    requires forall c :: c in cells ==> GetHash(c.key) in table
    requires SerialsBelow(hist, |place|)
    ensures Cover(log + LiveFlows(table, cells), hist)
  {
    forall h | h in table
      ensures HasCell(GetHash, cells, h)
    {
      assert h in index;
    }
    forall d | d in hist
      ensures HasSerial(log + LiveFlows(table, cells), d.serial)
    {
      EverySerialFound(GetHash, cells, table, log, place, d.serial);
    }
  }

  lemma AllFlowsRight(cells: seq<Cell>, table: Table, log: seq<FlowContext>, hist: seq<Delivery>)
    requires Attributed(table, log, hist)
    requires forall c :: c in cells ==> GetHash(c.key) in table
    ensures AllRight(log + LiveFlows(table, cells), hist)
  {
    var flows := log + LiveFlows(table, cells);
    forall i | 0 <= i < |flows|
      ensures Right(flows[i], hist)
    {
      if i < |log| {
        assert Right(log[i], hist);
      } else {
        assert cells[i - |log|] in cells;
        assert Right(table[GetHash(cells[i - |log|].key)], hist);
      }
    }
  }
}
