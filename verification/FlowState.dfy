/** What holds between the flow table, the expiry list, the dumped records and the packets so far. */
module FlowState {
  import opened Flow
  import opened FlowCaching
  import opened FlowTally

  type Table = map<HashValue, FlowContext>

  /** Where a flow is: in the table, or dumped as one record of the log. */
  datatype Place = Live(h: HashValue) | Dumped(i: nat)

  ghost predicate CellFits(table: Table, outTime: nat, c: Cell) {
    GetHash(c.key) in table && c.expire == table[GetHash(c.key)].beginTime + outTime
  }

  ghost predicate SortedByExpiry(cells: seq<Cell>) {
    forall i, j :: 0 <= i < j < |cells| ==> cells[i].expire <= cells[j].expire
  }

  ghost predicate BegunBy(table: Table, clock: nat) {
    forall h :: h in table ==> table[h].beginTime <= clock
  }

  /** The list is a correct timetable of the table. */
  ghost predicate Timed(table: Table, cells: seq<Cell>, outTime: nat, clock: nat) {
    && (forall c :: c in cells ==> CellFits(table, outTime, c))
    && SortedByExpiry(cells)
    && BegunBy(table, clock)
  }

  ghost predicate AtPlace(table: Table, log: seq<FlowContext>, serial: nat, p: Place) {
    match p
    case Live(h) => h in table && table[h].serial == serial
    case Dumped(i) => i < |log| && log[i].serial == serial
  }

  ghost predicate KnowsPlace(place: seq<Place>, serial: nat, p: Place) {
    serial < |place| && place[serial] == p
  }

  /** Every flow ever made is in exactly one place, once. */
  ghost predicate Placed(table: Table, log: seq<FlowContext>, place: seq<Place>) {
    && (forall h :: h in table ==> KnowsPlace(place, table[h].serial, Live(h)))
    && (forall i :: 0 <= i < |log| ==> KnowsPlace(place, log[i].serial, Dumped(i)))
    && (forall s :: 0 <= s < |place| ==> AtPlace(table, log, s, place[s]))
  }

  /** Every counter, live or dumped, is right about the packets so far. */
  ghost predicate Attributed(table: Table, log: seq<FlowContext>, hist: seq<Delivery>) {
    && (forall h :: h in table ==> Right(table[h], hist))
    && (forall i :: 0 <= i < |log| ==> Right(log[i], hist))
  }

  /** A second closing packet ends a flow before its counter could go on. */
  ghost predicate FinsBounded(table: Table) {
    forall h :: h in table ==> table[h].finCount <= 2 && (table[h].finCount == 2 ==> table[h].lastIsFin)
  }

  ghost predicate Sound(table: Table, cells: seq<Cell>, outTime: nat, clock: nat,
                        log: seq<FlowContext>, place: seq<Place>, hist: seq<Delivery>) {
    && Timed(table, cells, outTime, clock)
    && Placed(table, log, place)
    && SerialsBelow(hist, |place|)
    && Attributed(table, log, hist)
    && FinsBounded(table)
  }

  /** A new flow of the key, opened at the given time. */
  function Opened(serial: nat, key: FlowKey, begin: nat): FlowContext {
    FlowContext(serial, key.ip1, key.ip2, key.port1, key.port2, key.proto,
                0, 0, 0, 0, begin, 0, 0, false, 0, false)
  }

  /** A flow nobody has sent on yet. */
  ghost predicate IsNew(c: FlowContext, serial: nat) {
    && c.serial == serial && c.pkts12 == c.pkts21 == c.bytes12 == c.bytes21 == 0
    && c.synCount == c.finCount == 0 && !c.lastIsFin
  }

  lemma SoundLater(table: Table, cells: seq<Cell>, outTime: nat, clock: nat, later: nat,
                   log: seq<FlowContext>, place: seq<Place>, hist: seq<Delivery>)
    requires Sound(table, cells, outTime, clock, log, place, hist) && clock <= later
    ensures Sound(table, cells, outTime, later, log, place, hist)
  {
  }

  // Opening a flow.

  lemma TimedOpen(table: Table, cells: seq<Cell>, outTime: nat, clock: nat, last: Cell, c: FlowContext)
    requires Timed(table, cells, outTime, clock) && GetHash(last.key) !in table
    requires c.beginTime >= clock && last.expire == c.beginTime + outTime
    ensures Timed(table[GetHash(last.key) := c], cells + [last], outTime, c.beginTime)
  {
    var grown, now := table[GetHash(last.key) := c], cells + [last];
    forall d | d in now
      ensures CellFits(grown, outTime, d)
    {
      if d in cells {
        assert CellFits(table, outTime, d);
      }
    }
    forall i, j | 0 <= i < j < |now|
      ensures now[i].expire <= now[j].expire
    {
      assert CellFits(table, outTime, cells[i]);
    }
  }

  lemma PlacedOpen(table: Table, log: seq<FlowContext>, place: seq<Place>, h: HashValue, c: FlowContext)
    requires Placed(table, log, place) && h !in table && c.serial == |place|
    ensures Placed(table[h := c], log, place + [Live(h)])
  {
    var grown, now := table[h := c], place + [Live(h)];
    forall g | g in grown
      ensures KnowsPlace(now, grown[g].serial, Live(g))
    {
      if g != h {
        assert KnowsPlace(place, table[g].serial, Live(g));
      }
    }
    forall i | 0 <= i < |log|
      ensures KnowsPlace(now, log[i].serial, Dumped(i))
    {
      assert KnowsPlace(place, log[i].serial, Dumped(i));
    }
    forall s | 0 <= s < |now|
      ensures AtPlace(grown, log, s, now[s])
    {
      if s < |place| {
        assert AtPlace(table, log, s, place[s]);
      }
    }
  }

  lemma NewIsRight(c: FlowContext, hist: seq<Delivery>, serial: nat)
    requires IsNew(c, serial) && SerialsBelow(hist, serial)
    ensures Right(c, hist)
  {
    TallyOfNewFlow(hist, serial, c.ip1);
  }

  lemma SoundOpen(table: Table, cells: seq<Cell>, outTime: nat, clock: nat, log: seq<FlowContext>,
                  place: seq<Place>, hist: seq<Delivery>, last: Cell, c: FlowContext)
    requires Sound(table, cells, outTime, clock, log, place, hist)
    requires GetHash(last.key) !in table && IsNew(c, |place|)
    requires c.beginTime >= clock && last.expire == c.beginTime + outTime
    ensures Sound(table[GetHash(last.key) := c], cells + [last], outTime, c.beginTime,
                  log, place + [Live(GetHash(last.key))], hist)
  {
    TimedOpen(table, cells, outTime, clock, last, c);
    PlacedOpen(table, log, place, GetHash(last.key), c);
    NewIsRight(c, hist, |place|);
  }

  // Counting a packet.

  lemma TimedReplace(table: Table, cells: seq<Cell>, outTime: nat, clock: nat, h: HashValue, c: FlowContext)
    requires Timed(table, cells, outTime, clock) && h in table && c.beginTime == table[h].beginTime
    ensures Timed(table[h := c], cells, outTime, clock)
  {
    forall d | d in cells
      ensures CellFits(table[h := c], outTime, d)
    {
      assert CellFits(table, outTime, d);
    }
  }

  lemma PlacedReplace(table: Table, log: seq<FlowContext>, place: seq<Place>, h: HashValue, c: FlowContext)
    requires Placed(table, log, place) && h in table && c.serial == table[h].serial
    ensures Placed(table[h := c], log, place)
  {
    var now := table[h := c];
    forall g | g in now
      ensures KnowsPlace(place, now[g].serial, Live(g))
    {
      assert KnowsPlace(place, table[g].serial, Live(g));
    }
    forall s | 0 <= s < |place|
      ensures AtPlace(now, log, s, place[s])
    {
      assert AtPlace(table, log, s, place[s]);
    }
  }

  lemma AttributedCount(table: Table, log: seq<FlowContext>, place: seq<Place>, hist: seq<Delivery>,
                        h: HashValue, p: Packet)
    requires Placed(table, log, place) && Attributed(table, log, hist) && h in table
    ensures Attributed(table[h := Counted(table[h], p)], log, hist + [Delivery(p, table[h].serial)])
  {
    var d := Delivery(p, table[h].serial);
    var now := table[h := Counted(table[h], p)];
    assert KnowsPlace(place, table[h].serial, Live(h));
    forall g | g in now
      ensures Right(now[g], hist + [d])
    {
      if g == h {
        CountingKeepsRight(table[h], hist, p);
      } else {
        assert KnowsPlace(place, table[g].serial, Live(g));
        OthersStayRight(table[g], hist, d);
      }
    }
    forall i | 0 <= i < |log|
      ensures Right(log[i], hist + [d])
    {
      assert KnowsPlace(place, log[i].serial, Dumped(i));
      OthersStayRight(log[i], hist, d);
    }
  }

  /** Replacing a flow by one that differs only in what was counted. */
  lemma SoundReplace(table: Table, cells: seq<Cell>, outTime: nat, clock: nat, log: seq<FlowContext>,
                     place: seq<Place>, hist: seq<Delivery>, h: HashValue, c: FlowContext, now: seq<Delivery>)
    requires Sound(table, cells, outTime, clock, log, place, hist) && h in table
    requires c.beginTime == table[h].beginTime && c.serial == table[h].serial
    requires c.finCount <= 2 && (c.finCount == 2 ==> c.lastIsFin)
    requires SerialsBelow(now, |place|) && Attributed(table[h := c], log, now)
    ensures Sound(table[h := c], cells, outTime, clock, log, place, now)
  {
    TimedReplace(table, cells, outTime, clock, h, c);
    PlacedReplace(table, log, place, h, c);
  }

  lemma SoundCount(table: Table, cells: seq<Cell>, outTime: nat, clock: nat, log: seq<FlowContext>,
                   place: seq<Place>, hist: seq<Delivery>, h: HashValue, p: Packet, c: FlowContext)
    requires Sound(table, cells, outTime, clock, log, place, hist) && h in table && c == Counted(table[h], p)
    ensures Sound(table[h := c], cells, outTime, clock, log, place, hist + [Delivery(p, c.serial)])
    ensures table[h := c].Keys == table.Keys
  {
    assert KnowsPlace(place, table[h].serial, Live(h));
    AttributedCount(table, log, place, hist, h, p);
    SoundReplace(table, cells, outTime, clock, log, place, hist, h, c, hist + [Delivery(p, c.serial)]);
  }

  /** The flow has had its two closing packets already. */
  predicate Closed(c: FlowContext) {
    c.lastIsFin && c.finCount == 2
  }

  /** One more in an 8-bit counter. */
  function Next(n: U8): U8 {
    if n == 0xFF then 0 else n + 1
  }

  function FinMarked(c: FlowContext, p: Packet): FlowContext {
    c.(finCount := if p.isFin then Next(c.finCount) else c.finCount, lastIsFin := p.isFin)
  }

  lemma SoundMark(table: Table, cells: seq<Cell>, outTime: nat, clock: nat, log: seq<FlowContext>,
                  place: seq<Place>, hist: seq<Delivery>, h: HashValue, p: Packet, c: FlowContext)
    requires Sound(table, cells, outTime, clock, log, place, hist) && h in table
    requires !Closed(table[h]) && c == FinMarked(table[h], p)
    ensures Sound(table[h := c], cells, outTime, clock, log, place, hist)
    ensures table[h := c].Keys == table.Keys
  {
    assert Right(table[h], hist);
    SoundReplace(table, cells, outTime, clock, log, place, hist, h, c, hist);
  }

  // Dumping and erasing a flow.

  /** The record of a flow: all it had counted, and when it ended. */
  predicate EndedAs(c: FlowContext, rec: FlowContext) {
    rec == c.(endTime := rec.endTime)
  }

  lemma {:induction false} SortedErased(cells: seq<Cell>, id: nat)
    requires SortedByExpiry(cells)
    ensures SortedByExpiry(Erased(cells, id)) && forall c :: c in Erased(cells, id) ==> c in cells
  {
    if cells != [] {
      var rest := cells[1..];
      assert cells == [cells[0]] + rest;
      SortedErased(rest, id);
      if cells[0].id != id {
        SortedCons(cells[0], Erased(rest, id), rest);
      }
    }
  }

  lemma SortedCons(c: Cell, cells: seq<Cell>, among: seq<Cell>)
    requires SortedByExpiry(cells) && SortedByExpiry([c] + among) && forall d :: d in cells ==> d in among
    ensures SortedByExpiry([c] + cells)
  {
    var all := [c] + cells;
    forall i, j | 0 <= i < j < |all|
      ensures all[i].expire <= all[j].expire
    {
      if i == 0 {
        var d := cells[j - 1];
        assert d in cells && d in among;
        var k :| 0 <= k < |among| && among[k] == d;
        assert ([c] + among)[k + 1] == all[j] && ([c] + among)[0] == c;
      } else {
        assert all[i] == cells[i - 1] && all[j] == cells[j - 1];
      }
    }
  }

  lemma TimedClose(table: Table, cells: seq<Cell>, outTime: nat, clock: nat, h: HashValue, left: seq<Cell>, later: nat)
    requires Timed(table, cells, outTime, clock) && clock <= later && SortedByExpiry(left)
    requires forall c :: c in left ==> c in cells && GetHash(c.key) != h
    ensures Timed(table - {h}, left, outTime, later)
  {
    forall c | c in left
      ensures CellFits(table - {h}, outTime, c)
    {
      assert CellFits(table, outTime, c);
    }
  }

  lemma PlacedClose(table: Table, log: seq<FlowContext>, place: seq<Place>, h: HashValue, rec: FlowContext)
    requires Placed(table, log, place) && h in table && rec.serial == table[h].serial
    ensures KnowsPlace(place, rec.serial, Live(h))
    ensures Placed(table - {h}, log + [rec], place[rec.serial := Dumped(|log|)])
  {
    assert KnowsPlace(place, rec.serial, Live(h));
    var less, more, now := table - {h}, log + [rec], place[rec.serial := Dumped(|log|)];
    forall g | g in less
      ensures KnowsPlace(now, less[g].serial, Live(g))
    {
      assert KnowsPlace(place, table[g].serial, Live(g));
    }
    forall i | 0 <= i < |more|
      ensures KnowsPlace(now, more[i].serial, Dumped(i))
    {
      if i < |log| {
        assert KnowsPlace(place, log[i].serial, Dumped(i));
      }
    }
    forall s | 0 <= s < |now|
      ensures AtPlace(less, more, s, now[s])
    {
      assert AtPlace(table, log, s, place[s]);
    }
  }

  lemma AttributedClose(table: Table, log: seq<FlowContext>, hist: seq<Delivery>, h: HashValue, end: nat)
    requires Attributed(table, log, hist) && h in table
    ensures Attributed(table - {h}, log + [table[h].(endTime := end)], hist)
  {
    assert Right(table[h], hist);
    var more := log + [table[h].(endTime := end)];
    forall i | 0 <= i < |more|
      ensures Right(more[i], hist)
    {
      if i < |log| {
        assert Right(log[i], hist);
      }
    }
  }

  lemma SoundClose(table: Table, cells: seq<Cell>, outTime: nat, clock: nat, log: seq<FlowContext>,
                   place: seq<Place>, hist: seq<Delivery>, h: HashValue, id: nat, later: nat, end: nat)
    requires Sound(table, cells, outTime, clock, log, place, hist) && h in table && clock <= later
    requires forall c :: c in Erased(cells, id) ==> GetHash(c.key) != h
    ensures KnowsPlace(place, table[h].serial, Live(h))
    ensures Sound(table - {h}, Erased(cells, id), outTime, later,
                  log + [table[h].(endTime := end)], place[table[h].serial := Dumped(|log|)], hist)
  {
    SortedErased(cells, id);
    TimedClose(table, cells, outTime, clock, h, Erased(cells, id), later);
    PlacedClose(table, log, place, h, table[h].(endTime := end));
    AttributedClose(table, log, hist, h, end);
  }

  /** Dumping a flow and then erasing it by the iterator of its own entry. */
  lemma SoundErase(index: map<HashValue, nat>, nextId: nat, table: Table, cells: seq<Cell>, outTime: nat, clock: nat,
                   log: seq<FlowContext>, place: seq<Place>, hist: seq<Delivery>, h: HashValue, rec: FlowContext,
                   dumped: Table, later: nat, more: seq<FlowContext>, now: seq<Place>)
    requires Linked(GetHash, index, cells, nextId) && h in index && h in table && clock <= later
    requires Sound(table, cells, outTime, clock, log, place, hist) && EndedAs(table[h], rec)
    requires rec.serial < |place| && now == place[rec.serial := Dumped(|log|)]
    requires more == log + [rec] && dumped == table[h := rec]
    ensures Sound(dumped - {h}, Erased(cells, index[h]), outTime, later, more, now, hist)
  {
    hide Sound, Linked;
    ErasedClass(GetHash, index, cells, nextId, h);
    SoundClose(table, cells, outTime, clock, log, place, hist, h, index[h], later, rec.endTime);
    assert dumped - {h} == table - {h};
  }

  lemma StoredSerial(table: Table, cells: seq<Cell>, outTime: nat, clock: nat, log: seq<FlowContext>,
                     place: seq<Place>, hist: seq<Delivery>, h: HashValue)
    requires Sound(table, cells, outTime, clock, log, place, hist) && h in table
    ensures table[h].serial < |place|
  {
    assert KnowsPlace(place, table[h].serial, Live(h));
  }

  lemma KeysGrowAlike(table: Table, index: map<HashValue, nat>, h: HashValue, c: FlowContext, id: nat)
    requires table.Keys == index.Keys
    ensures table[h := c].Keys == index[h := id].Keys
  {
  }

  lemma KeysShrinkAlike(table: Table, index: map<HashValue, nat>, h: HashValue)
    requires table.Keys == index.Keys
    ensures (table - {h}).Keys == (index - {h}).Keys
  {
  }

  lemma ErasedAnyway(table: Table, h: HashValue, c: FlowContext)
    ensures table[h := c] - {h} == table - {h}
  {
  }

  /** Changes to one entry of the table, by storing and erasing, leave all other entries alone. */
  lemma OthersKept(t0: Table, t1: Table, t2: Table, h: HashValue, a: FlowContext, b: FlowContext)
    requires t1 == t0 || t1 == t0[h := a] || t1 == t0[h := a] - {h}
    requires t2 == t1 || t2 == t1[h := b] || t2 == t1[h := b] - {h}
    ensures t2 - {h} == t0 - {h}
  {
    assert t1 - {h} == t0 - {h};
  }
}
