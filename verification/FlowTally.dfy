/** Which packets belong to which flow, and what the counters of a flow must therefore say. */
module FlowTally {
  import opened Counters
  import opened Flow

  /** A packet, and the serial number of the flow that counted it. */
  datatype Delivery = Delivery(packet: Packet, serial: nat)

  /** Exact totals of one flow, before any counter wraps. */
  datatype Tally = Tally(pkts12: nat, pkts21: nat, bytes12: nat, bytes21: nat, syns: nat)

  function Plus(t: Tally, p: Packet, ip1: bv32): Tally {
    var u := t.(syns := t.syns + if p.isSyn then 1 else 0);
    if p.key.ip1 == ip1 then u.(pkts12 := t.pkts12 + 1, bytes12 := t.bytes12 + p.bytes)
    else u.(pkts21 := t.pkts21 + 1, bytes21 := t.bytes21 + p.bytes)
  }

  /** The totals of the flow serial, whose first end is ip1, over a whole history. */
  function TallyOf(hist: seq<Delivery>, serial: nat, ip1: bv32): Tally {
    if hist == [] then Tally(0, 0, 0, 0, 0)
    else
      var t := TallyOf(hist[..|hist| - 1], serial, ip1);
      var d := hist[|hist| - 1];
      if d.serial == serial then Plus(t, d.packet, ip1) else t
  }

  lemma TallySnoc(hist: seq<Delivery>, d: Delivery, serial: nat, ip1: bv32)
    ensures TallyOf(hist + [d], serial, ip1) ==
            if d.serial == serial then Plus(TallyOf(hist, serial, ip1), d.packet, ip1) else TallyOf(hist, serial, ip1)
  {
    assert (hist + [d])[..|hist|] == hist;
  }

  ghost predicate SerialsBelow(hist: seq<Delivery>, n: nat) {
    forall d :: d in hist ==> d.serial < n
  }

  lemma {:induction false} TallyOfNewFlow(hist: seq<Delivery>, serial: nat, ip1: bv32)
    requires SerialsBelow(hist, serial)
    ensures TallyOf(hist, serial, ip1) == Tally(0, 0, 0, 0, 0)
  {
    if hist != [] {
      assert hist[|hist| - 1] in hist;
      TallyOfNewFlow(hist[..|hist| - 1], serial, ip1);
    }
  }

  ghost predicate Holds(c: FlowContext, t: Tally) {
    && c.pkts12 == Wrapped(t.pkts12, WORD) && c.pkts21 == Wrapped(t.pkts21, WORD)
    && c.bytes12 == Wrapped(t.bytes12, WORD) && c.bytes21 == Wrapped(t.bytes21, WORD)
    && c.synCount == Wrapped(t.syns, 0x100)
  }

  /** The counters of c hold the totals of its own packets, modulo the width of each counter. */
  ghost predicate Right(c: FlowContext, hist: seq<Delivery>) {
    Holds(c, TallyOf(hist, c.serial, c.ip1))
  }

  /** A flow that counted one more packet: the direction is told by the sender's address. */
  function Counted(c: FlowContext, p: Packet): (d: FlowContext)
    ensures d.serial == c.serial && d.ip1 == c.ip1 && d.ip2 == c.ip2 && d.beginTime == c.beginTime
    ensures d.finCount == c.finCount && d.lastIsFin == c.lastIsFin
  {
    var syns := Wrapped(c.synCount + if p.isSyn then 1 else 0, 0x100);
    if p.key.ip1 == c.ip1
    then c.(lastIsSyn := p.isSyn, synCount := syns,
            pkts12 := Wrapped(c.pkts12 + 1, WORD), bytes12 := Wrapped(c.bytes12 + p.bytes, WORD))
    else c.(lastIsSyn := p.isSyn, synCount := syns,
            pkts21 := Wrapped(c.pkts21 + 1, WORD), bytes21 := Wrapped(c.bytes21 + p.bytes, WORD))
  }

  lemma CountingKeepsHolds(c: FlowContext, t: Tally, p: Packet)
    requires Holds(c, t)
    ensures Holds(Counted(c, p), Plus(t, p, c.ip1))
  {
    WrapStep(t.syns, if p.isSyn then 1 else 0, 0x100);
    if p.key.ip1 == c.ip1 {
      WrapStep(t.pkts12, 1, WORD);
      WrapStep(t.bytes12, p.bytes, WORD);
    } else {
      WrapStep(t.pkts21, 1, WORD);
      WrapStep(t.bytes21, p.bytes, WORD);
    }
  }

  lemma CountingKeepsRight(c: FlowContext, hist: seq<Delivery>, p: Packet)
    requires Right(c, hist)
    ensures Right(Counted(c, p), hist + [Delivery(p, c.serial)])
  {
    TallySnoc(hist, Delivery(p, c.serial), c.serial, c.ip1);
    CountingKeepsHolds(c, TallyOf(hist, c.serial, c.ip1), p);
  }

  lemma OthersStayRight(c: FlowContext, hist: seq<Delivery>, d: Delivery)
    requires Right(c, hist) && d.serial != c.serial
    ensures Right(c, hist + [d])
  {
    TallySnoc(hist, d, c.serial, c.ip1);
  }
}
