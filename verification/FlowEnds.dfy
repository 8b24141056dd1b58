/** What a flow remembers of its packets, told from the history alone: its ends, its counters, and when it is over. */
module FlowEnds {
  import opened Counters
  import opened Flow
  import opened FlowCaching
  import opened FlowTally
  import opened FlowState

  /** The packets of one flow, in order. */
  function Own(hist: seq<Delivery>, serial: nat): seq<Packet> {
    if hist == [] then []
    else
      var last := hist[|hist| - 1];
      Own(hist[..|hist| - 1], serial) + if last.serial == serial then [last.packet] else []
  }

  function Fins(ps: seq<Packet>): nat {
    if ps == [] then 0 else Fins(ps[..|ps| - 1]) + if ps[|ps| - 1].isFin then 1 else 0
  }

  function Syns(ps: seq<Packet>): nat {
    if ps == [] then 0 else Syns(ps[..|ps| - 1]) + if ps[|ps| - 1].isSyn then 1 else 0
  }

  /** How many of the packets were sent by this address, or by any other, and how many bytes. */
  function SentBy(ps: seq<Packet>, ip: bv32, own: bool): nat {
    if ps == [] then 0
    else SentBy(ps[..|ps| - 1], ip, own) + if (ps[|ps| - 1].key.ip1 == ip) == own then 1 else 0
  }

  function BytesBy(ps: seq<Packet>, ip: bv32, own: bool): nat {
    if ps == [] then 0
    else BytesBy(ps[..|ps| - 1], ip, own) + if (ps[|ps| - 1].key.ip1 == ip) == own then ps[|ps| - 1].bytes else 0
  }

  lemma OwnSnoc(hist: seq<Delivery>, d: Delivery, serial: nat)
    ensures Own(hist + [d], serial) == Own(hist, serial) + if d.serial == serial then [d.packet] else []
  {
    assert (hist + [d])[..|hist|] == hist;
  }

  lemma {:induction false} OwnOfNewFlow(hist: seq<Delivery>, serial: nat)
    requires SerialsBelow(hist, serial)
    ensures Own(hist, serial) == []
  {
    if hist != [] {
      assert hist[|hist| - 1] in hist;
      OwnOfNewFlow(hist[..|hist| - 1], serial);
    }
  }

  lemma MoreOwn(ps: seq<Packet>, p: Packet)
    ensures (ps + [p])[..|ps|] == ps
    ensures Fins(ps + [p]) == Fins(ps) + if p.isFin then 1 else 0
  {
    assert (ps + [p])[..|ps|] == ps;
  }

  /** The totals of a flow are counts over its own packets: for each direction, and of those that open. */
  lemma {:induction false} TallyMeans(hist: seq<Delivery>, serial: nat, ip1: bv32)
    ensures var own := Own(hist, serial);
      TallyOf(hist, serial, ip1) ==
      Tally(SentBy(own, ip1, true), SentBy(own, ip1, false), BytesBy(own, ip1, true), BytesBy(own, ip1, false),
        Syns(own))
  {
    if hist != [] {
      var before, last := hist[..|hist| - 1], hist[|hist| - 1];
      var own := Own(before, serial);
      TallyMeans(before, serial, ip1);
      assert (own + [last.packet])[..|own|] == own;
      assert own + [] == own;
    }
  }

  /** The counters of a right flow, modulo their widths. */
  lemma RightMeans(c: FlowContext, hist: seq<Delivery>)
    requires Right(c, hist)
    ensures var own := Own(hist, c.serial);
      && c.pkts12 == SentBy(own, c.ip1, true) % WORD && c.pkts21 == SentBy(own, c.ip1, false) % WORD
      && c.bytes12 == BytesBy(own, c.ip1, true) % WORD && c.bytes21 == BytesBy(own, c.ip1, false) % WORD
      && c.synCount == Syns(own) % 0x100
  {
    var own := Own(hist, c.serial);
    TallyMeans(hist, c.serial, c.ip1);
    var t := TallyOf(hist, c.serial, c.ip1);
    WrappedIsModulo(t.pkts12, WORD);
    WrappedIsModulo(t.pkts21, WORD);
    WrappedIsModulo(t.bytes12, WORD);
    WrappedIsModulo(t.bytes21, WORD);
    WrappedIsModulo(t.syns, 0x100);
  }

  /** A flow has the ends, ports and protocol of its first packet. */
  ghost predicate Named(c: FlowContext, own: seq<Packet>) {
    own != [] && FlowKey(c.ip1, c.ip2, c.port1, c.port2, c.proto) == own[0].key
  }

  ghost predicate AllNamed(log: seq<FlowContext>, hist: seq<Delivery>) {
    forall i :: 0 <= i < |log| ==> Named(log[i], Own(hist, log[i].serial))
  }

  /** A stored flow also has the flags of its last packet, and its closing count is that of all its packets. */
  ghost predicate Told(c: FlowContext, own: seq<Packet>) {
    && Named(c, own)
    && c.lastIsSyn == own[|own| - 1].isSyn && c.lastIsFin == own[|own| - 1].isFin
    && c.finCount == Fins(own)
  }

  ghost predicate AllTold(table: Table, hist: seq<Delivery>) {
    forall h :: h in table ==> Told(table[h], Own(hist, table[h].serial))
  }

  ghost predicate Remembered(table: Table, log: seq<FlowContext>, hist: seq<Delivery>) {
    AllTold(table, hist) && AllNamed(log, hist)
  }

  /** Two of the packets close the flow, and the last one does. */
  ghost predicate Over(own: seq<Packet>) {
    own != [] && Fins(own) == 2 && own[|own| - 1].isFin
  }

  ghost predicate EndsInSyn(own: seq<Packet>) {
    own != [] && own[|own| - 1].isSyn
  }

  lemma ClosedIsOver(table: Table, hist: seq<Delivery>, h: HashValue)
    requires AllTold(table, hist) && h in table
    ensures Closed(table[h]) <==> Over(Own(hist, table[h].serial))
    ensures table[h].lastIsSyn <==> EndsInSyn(Own(hist, table[h].serial))
  {
  }

  lemma TellNew(own: seq<Packet>, base: FlowContext, p: Packet)
    requires own == [] && exists serial, begin :: base == Opened(serial, p.key, begin)
    ensures Told(FinMarked(Counted(base, p), p), own + [p])
  {
    MoreOwn(own, p);
  }

  lemma TellMore(own: seq<Packet>, base: FlowContext, p: Packet)
    requires Told(base, own) && base.finCount <= 1
    ensures Told(FinMarked(Counted(base, p), p), own + [p])
  {
    MoreOwn(own, p);
  }

  lemma SoundHas(table: Table, cells: seq<Cell>, outTime: nat, clock: nat, log: seq<FlowContext>, place: seq<Place>,
                 hist: seq<Delivery>)
    requires Sound(table, cells, outTime, clock, log, place, hist)
    ensures Placed(table, log, place) && SerialsBelow(hist, |place|) && FinsBounded(table)
  {
  }

  /** One packet later every stored flow still tells of its own packets. */
  lemma ToldStep(was: Table, now: Table, log: seq<FlowContext>, place: seq<Place>, hist: seq<Delivery>,
                 k: HashValue, p: Packet, base: FlowContext)
    requires AllTold(was, hist) && Placed(was, log, place) && SerialsBelow(hist, |place|) && FinsBounded(was)
    requires now - {k} == was - {k}
    requires (k in was && base == was[k]) || base == Opened(|place|, p.key, base.beginTime)
    requires k in now ==> !Closed(base) && now[k] == FinMarked(Counted(base, p), p)
    ensures AllTold(now, hist + [Delivery(p, base.serial)])
  {
    hide Placed, Told, Counted, Opened, FinsBounded;
    forall h | h in now
      ensures Told(now[h], Own(hist + [Delivery(p, base.serial)], now[h].serial))
    {
      OwnSnoc(hist, Delivery(p, base.serial), now[h].serial);
      if h != k {
        OtherFlow(was, now, log, place, hist, k, h, base, p);
        assert Own(hist, now[h].serial) + [] == Own(hist, now[h].serial);
      } else {
        ThisFlow(was, log, place, hist, k, p, base);
      }
    }
  }

  lemma OtherFlow(was: Table, now: Table, log: seq<FlowContext>, place: seq<Place>, hist: seq<Delivery>,
                  k: HashValue, h: HashValue, base: FlowContext, p: Packet)
    requires Placed(was, log, place) && now - {k} == was - {k} && h != k && h in now
    requires (k in was && base == was[k]) || base == Opened(|place|, p.key, base.beginTime)
    ensures h in was && now[h] == was[h] && now[h].serial != base.serial
  {
    assert h in now - {k};
    assert now[h] == (now - {k})[h] == (was - {k})[h] == was[h];
    assert KnowsPlace(place, was[h].serial, Live(h));
    if k in was && base == was[k] {
      assert KnowsPlace(place, was[k].serial, Live(k));
    }
  }

  lemma ThisFlow(was: Table, log: seq<FlowContext>, place: seq<Place>, hist: seq<Delivery>, k: HashValue, p: Packet,
                 base: FlowContext)
    requires AllTold(was, hist) && SerialsBelow(hist, |place|) && FinsBounded(was) && !Closed(base)
    requires (k in was && base == was[k]) || base == Opened(|place|, p.key, base.beginTime)
    ensures Told(FinMarked(Counted(base, p), p), Own(hist, base.serial) + [p])
  {
    if k in was && base == was[k] {
      TellMore(Own(hist, base.serial), base, p);
    } else {
      OwnOfNewFlow(hist, |place|);
      TellNew(Own(hist, base.serial), base, p);
    }
  }

  // The records.

  /** A record of a stored flow, written at the time now; a time of 0 is read again. */
  ghost predicate RecordOf(was: Table, now: nat, r: FlowContext) {
    exists h :: h in was && EndedAs(was[h], r) && (now != 0 ==> r.endTime == now)
  }

  /** Records of stored flows come with their names. */
  lemma NamedRecords(was: Table, left: Table, log: seq<FlowContext>, ended: seq<FlowContext>, hist: seq<Delivery>,
                     now: nat)
    requires Remembered(was, log, hist) && forall h :: h in left ==> h in was && left[h] == was[h]
    requires forall r :: r in ended ==> RecordOf(was, now, r)
    ensures Remembered(left, log + ended, hist)
  {
    hide Own;
    var all := log + ended;
    forall i | 0 <= i < |all|
      ensures Named(all[i], Own(hist, all[i].serial))
    {
      if i >= |log| {
        assert all[i] in ended;
        var h :| h in was && EndedAs(was[h], all[i]);
        assert Told(was[h], Own(hist, was[h].serial));
      }
    }
  }

  /** The name of a record stays while others count packets. */
  lemma NameStays(c: FlowContext, hist: seq<Delivery>, d: Delivery)
    requires Named(c, Own(hist, c.serial)) && c.serial != d.serial
    ensures Named(c, Own(hist + [d], c.serial))
  {
    OwnSnoc(hist, d, c.serial);
    assert Own(hist, c.serial) + [] == Own(hist, c.serial);
  }

  /** A flow that counts a packet keeps its name, or gets it. */
  lemma NameCounted(table: Table, place: seq<Place>, hist: seq<Delivery>, k: HashValue, p: Packet, base: FlowContext,
                    c: FlowContext)
    requires AllTold(table, hist) && SerialsBelow(hist, |place|) && EndedAs(Counted(base, p), c)
    requires (k in table && base == table[k]) || base == Opened(|place|, p.key, base.beginTime)
    ensures Named(c, Own(hist + [Delivery(p, base.serial)], c.serial))
  {
    hide Own;
    OwnSnoc(hist, Delivery(p, base.serial), base.serial);
    if k in table && base == table[k] {
      assert Told(table[k], Own(hist, base.serial));
    } else {
      OwnOfNewFlow(hist, |place|);
    }
    CountedKeepsName(base, p, c);
  }

  lemma CountedKeepsName(base: FlowContext, p: Packet, c: FlowContext)
    requires EndedAs(Counted(base, p), c)
    ensures c.serial == base.serial
    ensures FlowKey(c.ip1, c.ip2, c.port1, c.port2, c.proto)
         == FlowKey(base.ip1, base.ip2, base.port1, base.port2, base.proto)
  {
  }

  lemma OldRecordOther(was: Table, log: seq<FlowContext>, place: seq<Place>, k: HashValue, p: Packet, base: FlowContext,
                       i: nat)
    requires Placed(was, log, place) && i < |log|
    requires (k in was && base == was[k]) || base == Opened(|place|, p.key, base.beginTime)
    ensures log[i].serial != base.serial
  {
    assert KnowsPlace(place, log[i].serial, Dumped(i));
    if k in was && base == was[k] {
      assert KnowsPlace(place, was[k].serial, Live(k));
    }
  }

  /** One packet later every record has the name of its own first packet. */
  lemma NamedStep(was: Table, log: seq<FlowContext>, place: seq<Place>, hist: seq<Delivery>, k: HashValue, p: Packet,
                  base: FlowContext, restarted: seq<FlowContext>, ended: seq<FlowContext>)
    requires AllTold(was, hist) && AllNamed(log, hist) && Placed(was, log, place) && SerialsBelow(hist, |place|)
    requires (k in was && base == was[k] && restarted == []) || base == Opened(|place|, p.key, base.beginTime)
    requires restarted == [] || (|restarted| == 1 && k in was && EndedAs(was[k], restarted[0]))
    requires ended == [] || (|ended| == 1 && EndedAs(Counted(base, p), ended[0]))
    ensures AllNamed(log + restarted + ended, hist + [Delivery(p, base.serial)])
  {
    hide Placed, Named, Counted, Opened, Own, EndedAs;
    var all, d := log + restarted + ended, Delivery(p, base.serial);
    forall i | 0 <= i < |all|
      ensures Named(all[i], Own(hist + [d], all[i].serial))
    {
      if i < |log| {
        OldRecordOther(was, log, place, k, p, base, i);
        NameStays(log[i], hist, d);
      } else if i < |log| + |restarted| {
        RestartedNamed(was, log, place, hist, k, p, base, restarted[0]);
      } else {
        NameCounted(was, place, hist, k, p, base, ended[0]);
      }
    }
  }

  lemma RestartedNamed(was: Table, log: seq<FlowContext>, place: seq<Place>, hist: seq<Delivery>, k: HashValue,
                       p: Packet, base: FlowContext, r: FlowContext)
    requires AllTold(was, hist) && Placed(was, log, place) && k in was && EndedAs(was[k], r)
    requires base == Opened(|place|, p.key, base.beginTime)
    ensures Named(r, Own(hist + [Delivery(p, base.serial)], r.serial))
  {
    hide Own;
    assert KnowsPlace(place, was[k].serial, Live(k));
    assert Told(was[k], Own(hist, was[k].serial));
    NameStays(r, hist, Delivery(p, base.serial));
  }

  lemma NothingTold(table: Table, log: seq<FlowContext>, hist: seq<Delivery>)
    requires table == map[] && log == []
    ensures Remembered(table, log, hist)
  {
  }
}
