/** The flow decoder: one thread that sorts packets into flows and writes a record for each flow that ends. */
module Decoding {
  import opened Counters
  import opened Powers
  import opened Flow
  import opened FlowCaching
  import opened FlowTally
  import opened FlowState
  import opened FlowEnds
  import opened FlowTotals

  const ETHER_HEADER_LEN: int := 14
  const Q_IP: bv16 := 4
  const Q_TCP: bv16 := 6
  const Q_UDP: bv16 := 17
  const Q_ETHERIP: bv16 := 97
  const DEFAULT_FLOW_OUT_TIME: nat := 10000

  /** One protocol layer of a packet, as far as the flow code reads it. */
  datatype ProtoNode =
    | Ether
    | Ip(srcIp: bv32, dstIp: bv32, packLen: U16)
    | Tcp(tcpSrc: bv16, tcpDst: bv16, syn: bool, fin: bool)
    | Udp(udpSrc: bv16, udpDst: bv16)

  type U16 = x: int | 0 <= x < 0x1_0000

  function ProtoType(node: ProtoNode): bv16 {
    match node
    case Ether => Q_ETHERIP
    case Ip(_, _, _) => Q_IP
    case Tcp(_, _, _, _) => Q_TCP
    case Udp(_, _) => Q_UDP
  }

  /** The layers the recogniser can produce for one frame. */
  datatype Frame =
    | Other
    | Ipv4(ip: ProtoNode)
    | OverTcp(ip: ProtoNode, tcp: ProtoNode)
    | OverUdp(ip: ProtoNode, udp: ProtoNode)

  predicate WellFormed(f: Frame) {
    match f
    case Other => true
    case Ipv4(ip) => ip.Ip?
    case OverTcp(ip, tcp) => ip.Ip? && tcp.Tcp?
    case OverUdp(ip, udp) => ip.Ip? && udp.Udp?
  }

  function Layers(f: Frame): seq<ProtoNode> {
    match f
    case Other => [Ether]
    case Ipv4(ip) => [Ether, ip]
    case OverTcp(ip, tcp) => [Ether, ip, tcp]
    case OverUdp(ip, udp) => [Ether, ip, udp]
  }

  /** What a frame means to the flow table. */
  function Meaning(f: Frame): Packet
    requires WellFormed(f)
  {
    match f
    case Other => Packet(FlowKey(0, 0, 0, 0, Q_ETHERIP), 0, false, false)
    case Ipv4(ip) => Packet(FlowKey(ip.srcIp, ip.dstIp, 0, 0, Q_IP), ip.packLen + ETHER_HEADER_LEN, false, false)
    case OverTcp(ip, tcp) =>
      Packet(FlowKey(ip.srcIp, ip.dstIp, tcp.tcpSrc, tcp.tcpDst, Q_TCP), ip.packLen + ETHER_HEADER_LEN,
             tcp.syn, tcp.fin)
    case OverUdp(ip, udp) =>
      Packet(FlowKey(ip.srcIp, ip.dstIp, udp.udpSrc, udp.udpDst, Q_UDP), ip.packLen + ETHER_HEADER_LEN, false, false)
  }

  /** One layer added to what is known of a packet. */
  function Recognized(p: Packet, node: ProtoNode): Packet {
    var q := p.(key := p.key.(proto := ProtoType(node)));
    match node
    case Ether => q
    case Ip(src, dst, len) => q.(key := q.key.(ip1 := src, ip2 := dst), bytes := len + ETHER_HEADER_LEN)
    case Tcp(src, dst, syn, fin) => q.(key := q.key.(port1 := src, port2 := dst), isSyn := syn, isFin := fin)
    case Udp(src, dst) => q.(key := q.key.(port1 := src, port2 := dst))
  }

  function RecognizedAll(nodes: seq<ProtoNode>): Packet {
    if nodes == [] then Packet(FlowKey(0, 0, 0, 0, 0), 0, false, false)
    else Recognized(RecognizedAll(nodes[..|nodes| - 1]), nodes[|nodes| - 1])
  }

  /** Walking the layers of a frame reads its five-tuple, its length and its flags. */
  lemma LayersMean(f: Frame)
    requires WellFormed(f)
    ensures RecognizedAll(Layers(f)) == Meaning(f)
  {
    var nodes := Layers(f);
    assert RecognizedAll(nodes[..1]) == Packet(FlowKey(0, 0, 0, 0, Q_ETHERIP), 0, false, false) by {
      assert nodes[..1][..0] == [];
    }
    if |nodes| > 1 {
      assert nodes[..2][..1] == nodes[..1];
      assert nodes[..2][1] == f.ip;
      if |nodes| > 2 {
        assert nodes[..3] == nodes && nodes[..3][..2] == nodes[..2];
      } else {
        assert nodes[..2] == nodes;
      }
    } else {
      assert nodes[..1] == nodes;
    }
  }

  lemma RecognizedSnoc(nodes: seq<ProtoNode>, i: nat)
    requires i < |nodes|
    ensures RecognizedAll(nodes[..i + 1]) == Recognized(RecognizedAll(nodes[..i]), nodes[i])
  {
    assert nodes[..i + 1][..i] == nodes[..i];
  }

  method RecognizeFlow(nodes: seq<ProtoNode>) returns (p: Packet)
    ensures p == RecognizedAll(nodes)
    ensures forall f :: WellFormed(f) && nodes == Layers(f) ==> p == Meaning(f)
  {
    p := Packet(FlowKey(0, 0, 0, 0, 0), 0, false, false);
    for i := 0 to |nodes|
      invariant p == RecognizedAll(nodes[..i])
    {
      RecognizedSnoc(nodes, i);
      match nodes[i] {
        case Ether =>
        case Ip(src, dst, len) =>
          p := p.(key := p.key.(ip1 := src, ip2 := dst), bytes := len + ETHER_HEADER_LEN);
        case Tcp(src, dst, syn, fin) =>
          p := p.(key := p.key.(port1 := src, port2 := dst), isSyn := syn, isFin := fin);
        case Udp(src, dst) =>
          p := p.(key := p.key.(port1 := src, port2 := dst));
      }
      p := p.(key := p.key.(proto := ProtoType(nodes[i])));
    }
    assert nodes[..|nodes|] == nodes;
    forall f | WellFormed(f) && nodes == Layers(f)
      ensures p == Meaning(f)
    {
      LayersMean(f);
    }
  }

  /** A fresh SYN on a known flow starts that flow over. */
  predicate Restarts(table: Table, p: Packet) {
    var h := GetHash(p.key);
    p.isSyn && h in table && !table[h].lastIsSyn
  }

  predicate Joins(table: Table, p: Packet) {
    GetHash(p.key) in table && !Restarts(table, p)
  }

  /** A stored flow was opened by a packet of its hash class, between the same two ends. */
  ghost predicate Opener(hist: seq<Delivery>, h: HashValue, c: FlowContext) {
    exists d :: d in hist && GetHash(d.packet.key) == h && d.packet.key.ip1 == c.ip1 && d.packet.key.ip2 == c.ip2
  }

  ghost predicate Rooted(table: Table, hist: seq<Delivery>) {
    forall h :: h in table ==> Opener(hist, h, table[h])
  }

  ghost predicate Within(hist: seq<Delivery>, world: set<FlowKey>) {
    forall d :: d in hist ==> d.packet.key in world
  }

  /** Among the keys on the wire, equal hashes mean the same two ends. */
  ghost predicate NoCollisions(world: set<FlowKey>) {
    forall a, b :: a in world && b in world && GetHash(a) == GetHash(b) ==> SenderKnown(b.ip1, b.ip2, a)
  }

  lemma SenderIsKnown(table: Table, hist: seq<Delivery>, world: set<FlowKey>, p: Packet)
    requires Rooted(table, hist) && Within(hist, world) && NoCollisions(world) && p.key in world
    ensures Joins(table, p) ==> SenderKnown(table[GetHash(p.key)].ip1, table[GetHash(p.key)].ip2, p.key)
  {
    if Joins(table, p) {
      var h := GetHash(p.key);
      assert Opener(hist, h, table[h]);
      var d :| d in hist && GetHash(d.packet.key) == h && d.packet.key.ip1 == table[h].ip1
                && d.packet.key.ip2 == table[h].ip2;
    }
  }

  lemma OpenerStays(hist: seq<Delivery>, d: Delivery, h: HashValue, c: FlowContext)
    requires Opener(hist, h, c)
    ensures Opener(hist + [d], h, c)
  {
    var e :| e in hist && GetHash(e.packet.key) == h && e.packet.key.ip1 == c.ip1 && e.packet.key.ip2 == c.ip2;
    assert e in hist + [d];
  }

  lemma OpenerNew(hist: seq<Delivery>, d: Delivery, h: HashValue, c: FlowContext)
    requires GetHash(d.packet.key) == h && d.packet.key.ip1 == c.ip1 && d.packet.key.ip2 == c.ip2
    ensures Opener(hist + [d], h, c)
  {
    assert (hist + [d])[|hist|] == d;
  }

  lemma OpenerOfEnds(hist: seq<Delivery>, h: HashValue, b: FlowContext, c: FlowContext)
    requires Opener(hist, h, b) && b.ip1 == c.ip1 && b.ip2 == c.ip2
    ensures Opener(hist, h, c)
  {
    var e :| e in hist && GetHash(e.packet.key) == h && e.packet.key.ip1 == b.ip1 && e.packet.key.ip2 == b.ip2;
  }

  lemma OtherEntry(was: Table, now: Table, k: HashValue, h: HashValue)
    requires now - {k} == was - {k} && h != k && h in now
    ensures h in was && was[h] == now[h]
  {
    assert h in now - {k};
    assert was[h] == (was - {k})[h] == (now - {k})[h];
  }

  /** One packet later every stored flow still has its opener. */
  lemma StaysRooted(was: Table, now: Table, hist: seq<Delivery>, k: HashValue, d: Delivery, base: FlowContext)
    requires Rooted(was, hist) && now - {k} == was - {k} && GetHash(d.packet.key) == k
    requires (k in was && base == was[k]) || (base.ip1 == d.packet.key.ip1 && base.ip2 == d.packet.key.ip2)
    requires k in now ==> now[k].ip1 == base.ip1 && now[k].ip2 == base.ip2
    ensures Rooted(now, hist + [d])
  {
    hide Opener, GetHash;
    forall h | h in now
      ensures Opener(hist + [d], h, now[h])
    {
      if h != k {
        OtherEntry(was, now, k, h);
        OpenerStays(hist, d, h, now[h]);
      } else {
        if k in was && base == was[k] {
          OpenerStays(hist, d, h, base);
        } else {
          OpenerNew(hist, d, h, base);
        }
        OpenerOfEnds(hist + [d], h, base, now[h]);
      }
    }
  }

  lemma StaysWithin(hist: seq<Delivery>, world: set<FlowKey>, p: Packet, serial: nat)
    requires Within(hist, world) && p.key in world
    ensures Within(hist + [Delivery(p, serial)], world)
  {
  }

  ghost predicate Expires(table: Table, key: FlowKey, outTime: nat, now: nat) {
    GetHash(key) in table && table[GetHash(key)].beginTime + outTime <= now
  }

  lemma ExpiresMeans(table: Table, key: FlowKey, outTime: nat, now: nat)
    requires Expires(table, key, outTime, now)
    ensures GetHash(key) in table && table[GetHash(key)].beginTime + outTime <= now
  {
  }

  ghost predicate AllInTime(table: Table, outTime: nat, now: nat) {
    forall h :: h in table ==> table[h].beginTime + outTime > now
  }

  /** r is the record of a flow whose time was up, and it ends now; a time of 0 is read again. */
  ghost predicate ExpiredFrom(was: Table, outTime: nat, now: nat, r: FlowContext) {
    exists h :: h in was && EndedAs(was[h], r) && was[h].beginTime + outTime <= now && (now != 0 ==> r.endTime == now)
  }

  /** Taking the classes gone out of was, and writing the records ended, is a correct part of the clearing. */
  ghost predicate Clearing(was: Table, outTime: nat, now: nat, gone: set<HashValue>, ended: seq<FlowContext>) {
    && (forall h :: h in gone ==> h in was && was[h].beginTime + outTime <= now)
    && (forall r :: r in ended ==> ExpiredFrom(was, outTime, now, r))
  }

  lemma ClearingStep(was: Table, outTime: nat, now: nat, gone: set<HashValue>, ended: seq<FlowContext>,
                     h: HashValue, rec: FlowContext)
    requires Clearing(was, outTime, now, gone, ended)
    requires h in was - gone && EndedAs(was[h], rec) && was[h].beginTime + outTime <= now
    requires now != 0 ==> rec.endTime == now
    ensures Clearing(was, outTime, now, gone + {h}, ended + [rec])
  {
    assert ExpiredFrom(was, outTime, now, rec);
  }

  lemma RecordWritten(was: Table, h: HashValue, now: nat, r: FlowContext)
    requires h in was && EndedAs(was[h], r) && (now != 0 ==> r.endTime == now)
    ensures RecordOf(was, now, r)
  {
  }

  lemma OneMoreRecord(log: seq<FlowContext>, ended: seq<FlowContext>, rec: FlowContext)
    ensures log + ended + [rec] == log + (ended + [rec])
  {
  }

  lemma ClearingStarts(was: Table, outTime: nat, now: nat)
    ensures Clearing(was, outTime, now, {}, []) && was - {} == was
  {
  }

  lemma ClearingEnds(was: Table, outTime: nat, now: nat, gone: set<HashValue>, ended: seq<FlowContext>, left: Table)
    requires Clearing(was, outTime, now, gone, ended) && left == was - gone && AllInTime(left, outTime, now)
    ensures forall h :: h in left <==> h in was && was[h].beginTime + outTime > now
    ensures forall h :: h in left ==> left[h] == was[h]
    ensures forall r :: r in ended ==> ExpiredFrom(was, outTime, now, r) && RecordOf(was, now, r)
  {
    forall r | r in ended
      ensures RecordOf(was, now, r)
    {
      assert ExpiredFrom(was, outTime, now, r);
    }
  }

  lemma FrontCell(table: Table, cells: seq<Cell>, outTime: nat, clock: nat,
                  log: seq<FlowContext>, place: seq<Place>, hist: seq<Delivery>)
    requires Sound(table, cells, outTime, clock, log, place, hist) && cells != []
    ensures CellFits(table, outTime, cells[0])
  {
    assert cells[0] in cells;
  }

  /** When the front of the list has time left, every stored flow has. */
  lemma NothingExpired(index: map<HashValue, nat>, nextId: nat, table: Table, cells: seq<Cell>,
                       outTime: nat, clock: nat, log: seq<FlowContext>, place: seq<Place>,
                       hist: seq<Delivery>, now: nat)
    requires Linked(GetHash, index, cells, nextId) && index.Keys == table.Keys
    requires Sound(table, cells, outTime, clock, log, place, hist)
    requires cells == [] || cells[0].expire > now
    ensures AllInTime(table, outTime, now)
  {
    hide Placed, Attributed, FinsBounded, SerialsBelow;
    forall h | h in table
      ensures table[h].beginTime + outTime > now
    {
      assert h in index && HasCell(GetHash, cells, h);
      var c :| c in cells && GetHash(c.key) == h;
      var i :| 0 <= i < |cells| && cells[i] == c;
      assert CellFits(table, outTime, c);
      assert cells[0].expire <= cells[i].expire;
    }
  }

  lemma EraseShrinks(table: Table, h: HashValue)
    requires h in table
    ensures |table - {h}| == |table| - 1
  {
    assert (table - {h}).Keys == table.Keys - {h};
    assert |(table - {h}).Keys| == |table - {h}| && |table.Keys| == |table|;
  }

  lemma GoneGrows(table: Table, gone: set<HashValue>, h: HashValue)
    ensures table - gone - {h} == table - (gone + {h})
  {
  }

  lemma PlacedAt(table: Table, log: seq<FlowContext>, place: seq<Place>, h: HashValue)
    requires Placed(table, log, place) && h in table
    ensures table[h].serial < |place|
  {
    assert KnowsPlace(place, table[h].serial, Live(h));
  }

  lemma RootedInFewer(was: Table, now: Table, hist: seq<Delivery>)
    requires Rooted(was, hist) && forall h :: h in now ==> h in was && now[h] == was[h]
    ensures Rooted(now, hist)
  {
  }

  /** The frames of a burst are recognised ones, with keys on the wire. */
  ghost predicate BurstIn(frames: seq<Frame>, world: set<FlowKey>) {
    forall f :: f in frames ==> WellFormed(f) && Meaning(f).key in world
  }

  ghost function PacketsOf(hist: seq<Delivery>): seq<Packet> {
    seq(|hist|, i requires 0 <= i < |hist| => hist[i].packet)
  }

  function Meanings(frames: seq<Frame>): seq<Packet>
    requires forall f :: f in frames ==> WellFormed(f)
  {
    seq(|frames|, i requires 0 <= i < |frames| => assert frames[i] in frames; Meaning(frames[i]))
  }

  /** What all bursts mean, in order. */
  ghost function MeaningsOf(bursts: seq<seq<Frame>>): seq<Packet> {
    if bursts == [] then []
    else
      var last := bursts[|bursts| - 1];
      MeaningsOf(bursts[..|bursts| - 1]) + if forall f :: f in last ==> WellFormed(f) then Meanings(last) else []
  }

  lemma BurstsSoFar(bursts: seq<seq<Frame>>, n: nat, world: set<FlowKey>)
    requires n < |bursts| && forall b :: b in bursts ==> BurstIn(b, world)
    ensures forall f :: f in bursts[n] ==> WellFormed(f) && Meaning(f).key in world
    ensures MeaningsOf(bursts[..n + 1]) == MeaningsOf(bursts[..n]) + Meanings(bursts[n])
  {
    assert BurstIn(bursts[n], world);
    assert bursts[..n + 1][..n] == bursts[..n];
  }

  lemma PacketsGrow(was: seq<Delivery>, now: seq<Delivery>, frames: seq<Frame>)
    requires forall f :: f in frames ==> WellFormed(f)
    requires |now| == |was| + |frames| && now[..|was|] == was
    requires forall i :: 0 <= i < |frames| ==> (assert frames[i] in frames; now[|was| + i].packet == Meaning(frames[i]))
    ensures PacketsOf(now) == PacketsOf(was) + Meanings(frames)
  {
    var sum := PacketsOf(was) + Meanings(frames);
    forall i | 0 <= i < |now|
      ensures PacketsOf(now)[i] == sum[i]
    {
      if i < |was| {
        assert now[..|was|][i] == now[i];
      } else {
        assert now[|was| + (i - |was|)].packet == Meaning(frames[i - |was|]);
      }
    }
  }

  lemma CellsInTable(index: map<HashValue, nat>, nextId: nat, table: Table, cells: seq<Cell>)
    requires Linked(GetHash, index, cells, nextId) && index.Keys == table.Keys
    ensures forall c :: c in cells ==> GetHash(c.key) in table
  {
  }

  /** When no flow is stored, the log has every flow, once. */
  lemma AllDumped(log: seq<FlowContext>, place: seq<Place>, hist: seq<Delivery>)
    requires Placed(map[], log, place) && Attributed(map[], log, hist) && SerialsBelow(hist, |place|)
    ensures Distinct(log) && Cover(log, hist) && AllRight(log, hist)
    ensures forall s :: 0 <= s < |place| ==> HasSerial(log, s)
  {
    var none: Table := map[];
    DifferentPlaces(place, log, seq(|log|, i requires 0 <= i => Dumped(i)));
    forall s | 0 <= s < |place|
      ensures HasSerial(log, s)
    {
      assert AtPlace(none, log, s, place[s]);
    }
    forall i | 0 <= i < |log|
      ensures Right(log[i], hist)
    {
    }
  }

  class Decode {
    const flowOutTime: nat
    const flowCache: FlowCache
    var flowTable: Table
    /** The last time read; the clock never goes back. */
    var clock: nat
    var log: seq<FlowContext>
    /** How many flows were ever made. */
    var made: nat
    ghost var place: seq<Place>
    ghost var hist: seq<Delivery>

    ghost predicate Agrees()
      reads this, flowCache
    {
      flowCache.Valid() && flowCache.capacity == 0 && flowTable.Keys == flowCache.cacheMap.Keys
    }

    ghost predicate Valid()
      reads this, flowCache
    {
      Agrees() && made == |place| && Sound(flowTable, flowCache.cacheList, flowOutTime, clock, log, place, hist)
    }

    constructor (flowOutTime: U32)
      ensures Valid() && fresh(flowCache)
      ensures this.flowOutTime == if flowOutTime >= 1000 then flowOutTime else DEFAULT_FLOW_OUT_TIME
      ensures flowTable == map[] && log == [] && hist == [] && place == []
    {
      this.flowOutTime := if flowOutTime >= 1000 then flowOutTime else DEFAULT_FLOW_OUT_TIME;
      flowCache := new FlowCache(0);
      flowTable, clock, log, made := map[], 0, [], 0;
      place, hist := [], [];
    }

    method GetCurTimeMs() returns (now: nat)
      modifies this`clock
      ensures now == clock >= old(clock)
    {
      now :| now >= clock;
      clock := now;
    }

    method InsertFlow(key: FlowKey, ctx: FlowContext)
      requires Valid() && GetHash(key) !in flowTable && IsNew(ctx, made) && ctx.beginTime == clock
      modifies this`flowTable, this`made, this`place, flowCache
      ensures Valid() && flowTable == old(flowTable)[GetHash(key) := ctx]
      ensures made == old(made) + 1
    {
      hide Sound, Linked;
      var h := GetHash(key);
      var cached := flowCache.Count(key);
      assert !cached;
      SoundOpen(flowTable, flowCache.cacheList, flowOutTime, clock, log, place, hist,
                Cell(flowCache.nextId, key, ctx.beginTime + flowOutTime), ctx);
      KeysGrowAlike(flowTable, flowCache.cacheMap, h, ctx, flowCache.nextId);
      flowTable := flowTable[h := ctx];
      place := place + [Live(h)];
      made := made + 1;
      assert made == |place|;
      var _ := flowCache.Insert(key, ctx.beginTime + flowOutTime);
    }

    /** Writes the record of a flow. The flow itself is gone after this, and only its entry is left to erase. */
    method DumpFlow(h: HashValue, now: nat) returns (ghost rec: FlowContext)
      requires h in flowTable && flowTable[h].serial < |place|
      modifies this`flowTable, this`clock, this`log, this`place
      ensures EndedAs(old(flowTable)[h], rec) && log == old(log) + [rec]
      ensures clock >= old(clock) && rec.endTime == if now == 0 then clock else now
      ensures now != 0 ==> clock == old(clock)
      ensures flowTable == old(flowTable)[h := rec]
      ensures place == old(place)[rec.serial := Dumped(|old(log)|)] && |place| == |old(place)|
    {
      if now == 0 {
        var end := GetCurTimeMs();
        flowTable := flowTable[h := flowTable[h].(endTime := end)];
      } else {
        flowTable := flowTable[h := flowTable[h].(endTime := now)];
      }
      place := place[flowTable[h].serial := Dumped(|log|)];
      log := log + [flowTable[h]];
      rec := flowTable[h];
    }

    method EraseFlow(key: FlowKey)
      requires Agrees() && GetHash(key) in flowTable
      modifies this`flowTable, flowCache
      ensures Agrees() && flowTable == old(flowTable) - {GetHash(key)}
      ensures flowCache.cacheList == Erased(old(flowCache.cacheList), old(flowCache.cacheMap)[GetHash(key)])
    {
      hide Sound, Linked;
      KeysShrinkAlike(flowTable, flowCache.cacheMap, GetHash(key));
      flowTable := flowTable - {GetHash(key)};
      flowCache.Delete(key);
    }

    method DumpAndErase(key: FlowKey, now: nat) returns (ghost rec: FlowContext)
      requires Valid() && GetHash(key) in flowTable
      modifies this`flowTable, this`clock, this`log, this`place, flowCache
      ensures Valid() && clock >= old(clock) && (now != 0 ==> clock == old(clock))
      ensures EndedAs(old(flowTable)[GetHash(key)], rec) && rec.endTime == if now == 0 then clock else now
      ensures log == old(log) + [rec]
      ensures flowTable == old(flowTable)[GetHash(key) := rec] - {GetHash(key)}
      ensures flowCache.cacheList == Erased(old(flowCache.cacheList), old(flowCache.cacheMap)[GetHash(key)])
    {
      hide Sound, Linked;
      var h := GetHash(key);
      ghost var table0, log0, place0 := flowTable, log, place;
      StoredSerial(table0, flowCache.cacheList, flowOutTime, clock, log0, place0, hist, h);
      rec := DumpFlow(h, now);
      assert made == |place|;
      SoundErase(flowCache.cacheMap, flowCache.nextId, table0, flowCache.cacheList, flowOutTime, old(clock),
                 log0, place0, hist, h, rec, flowTable, clock, log, place);
      EraseFlow(key);
    }

    method OpenFlow(key: FlowKey)
      requires Valid()
      modifies this`flowTable, this`clock, this`made, this`place, flowCache
      ensures Valid() && clock >= old(clock) && GetHash(key) in flowTable
      ensures GetHash(key) in old(flowTable) ==> flowTable == old(flowTable) && made == old(made)
      ensures GetHash(key) !in old(flowTable) ==>
        && flowTable == old(flowTable)[GetHash(key) := Opened(old(made), key, clock)]
        && made == old(made) + 1
    {
      hide Sound, Linked;
      if GetHash(key) !in flowTable {
        var begin := GetCurTimeMs();
        SoundLater(flowTable, flowCache.cacheList, flowOutTime, old(clock), clock, log, place, hist);
        InsertFlow(key, Opened(made, key, begin));
      }
    }

    /** Counts a packet in the flow stored under its key. The direction needs the sender to be one of its ends. */
    method CountPacket(p: Packet) returns (ghost c: FlowContext)
      requires Valid() && GetHash(p.key) in flowTable
      requires SenderKnown(flowTable[GetHash(p.key)].ip1, flowTable[GetHash(p.key)].ip2, p.key)
      modifies this`flowTable, this`hist
      ensures Valid() && c == Counted(old(flowTable)[GetHash(p.key)], p)
      ensures flowTable == old(flowTable)[GetHash(p.key) := c]
      ensures hist == old(hist) + [Delivery(p, c.serial)]
    {
      hide Sound, Linked;
      var h := GetHash(p.key);
      var d := CountIn(flowTable[h], p);
      SoundCount(flowTable, flowCache.cacheList, flowOutTime, clock, log, place, hist, h, p, d);
      hist := hist + [Delivery(p, d.serial)];
      flowTable := flowTable[h := d];
      c := d;
    }

    static method CountIn(c: FlowContext, p: Packet) returns (d: FlowContext)
      requires SenderKnown(c.ip1, c.ip2, p.key)
      ensures d == Counted(c, p)
    {
      WrappedIsModulo(c.synCount + if p.isSyn then 1 else 0, 0x100);
      d := c.(lastIsSyn := p.isSyn, synCount := (c.synCount + if p.isSyn then 1 else 0) % 0x100);
      if c.ip1 == p.key.ip1 {
        WrappedIsModulo(c.pkts12 + 1, WORD);
        WrappedIsModulo(c.bytes12 + p.bytes, WORD);
        d := d.(pkts12 := (d.pkts12 + 1) % WORD, bytes12 := (d.bytes12 + p.bytes) % WORD);
      } else {
        WrappedIsModulo(c.pkts21 + 1, WORD);
        WrappedIsModulo(c.bytes21 + p.bytes, WORD);
        d := d.(pkts21 := (d.pkts21 + 1) % WORD, bytes21 := (d.bytes21 + p.bytes) % WORD);
      }
    }

    /** Notes on a flow whether this packet closes it. */
    method MarkFlow(p: Packet) returns (ghost c: FlowContext)
      requires Valid() && GetHash(p.key) in flowTable && !Closed(flowTable[GetHash(p.key)])
      modifies this`flowTable
      ensures Valid() && c == FinMarked(old(flowTable)[GetHash(p.key)], p)
      ensures flowTable == old(flowTable)[GetHash(p.key) := c]
    {
      hide Sound, Linked;
      var h := GetHash(p.key);
      var d := FinMarked(flowTable[h], p);
      SoundMark(flowTable, flowCache.cacheList, flowOutTime, clock, log, place, hist, h, p, d);
      flowTable := flowTable[h := d];
      c := d;
    }

    /** Ends the flow if its two closing packets came before this one; otherwise notes whether this one closes. */
    method CloseFlow(p: Packet) returns (ghost c: FlowContext)
      requires Valid() && GetHash(p.key) in flowTable
      modifies this`flowTable, this`clock, this`log, this`place, flowCache
      ensures Valid() && clock >= old(clock)
      ensures Closed(old(flowTable)[GetHash(p.key)]) ==>
        && EndedAs(old(flowTable)[GetHash(p.key)], c) && log == old(log) + [c]
        && flowTable == old(flowTable)[GetHash(p.key) := c] - {GetHash(p.key)}
      ensures Closed(old(flowTable)[GetHash(p.key)]) ==> c.endTime == clock
      ensures !Closed(old(flowTable)[GetHash(p.key)]) ==>
        && c == FinMarked(old(flowTable)[GetHash(p.key)], p) && log == old(log)
        && flowTable == old(flowTable)[GetHash(p.key) := c]
    {
      hide Sound, Linked;
      var h := GetHash(p.key);
      if flowTable[h].lastIsFin && flowTable[h].finCount == 2 {
        c := DumpAndErase(p.key, 0);
      } else {
        c := MarkFlow(p);
      }
    }

    /** Finds the flow a packet belongs to: an open one, one restarted by a SYN, or a new one. */
    method FindFlow(p: Packet) returns (ghost restarted: seq<FlowContext>, ghost base: FlowContext)
      requires Valid()
      modifies this`flowTable, this`clock, this`log, this`made, this`place, flowCache
      ensures Valid() && clock >= old(clock)
      ensures GetHash(p.key) in flowTable && base == flowTable[GetHash(p.key)]
      ensures Joins(old(flowTable), p) ==> base == old(flowTable)[GetHash(p.key)] && made == old(made)
      ensures !Joins(old(flowTable), p) ==> base == Opened(old(made), p.key, base.beginTime) && made == old(made) + 1
      ensures !Joins(old(flowTable), p) ==> old(clock) <= base.beginTime <= clock
      ensures Restarts(old(flowTable), p) ==> |restarted| == 1 && EndedAs(old(flowTable)[GetHash(p.key)], restarted[0])
      ensures Restarts(old(flowTable), p) ==> |restarted| == 1 && old(clock) <= restarted[0].endTime <= clock
      ensures !Restarts(old(flowTable), p) ==> restarted == []
      ensures log == old(log) + restarted
      ensures flowTable - {GetHash(p.key)} == old(flowTable) - {GetHash(p.key)}
    {
      hide Sound, Linked;
      var h := GetHash(p.key);
      ghost var t0 := flowTable;
      restarted := [];
      if p.isSyn && h in flowTable && !flowTable[h].lastIsSyn {
        ghost var rec := DumpAndErase(p.key, 0);
        restarted := [rec];
      }
      assert log == old(log) + restarted;
      ghost var t1 := flowTable;
      OpenFlow(p.key);
      base := flowTable[h];
      OthersKept(t0, t1, flowTable, h, if restarted == [] then base else restarted[0], base);
    }

    /** Puts a packet into its flow, and ends the flow if it was closed from both sides before. */
    method InsertFlowTable(p: Packet)
      returns (ghost restarted: seq<FlowContext>, ghost base: FlowContext, ghost c: FlowContext)
      requires Valid() && Remembered(flowTable, log, hist)
      requires Joins(flowTable, p) ==>
        SenderKnown(flowTable[GetHash(p.key)].ip1, flowTable[GetHash(p.key)].ip2, p.key)
      modifies this`flowTable, this`clock, this`log, this`made, this`place, this`hist, flowCache
      ensures Valid() && clock >= old(clock)
      // the flow that counts the packet
      ensures Joins(old(flowTable), p) ==> base == old(flowTable)[GetHash(p.key)] && made == old(made)
      ensures !Joins(old(flowTable), p) ==> base == Opened(old(made), p.key, base.beginTime) && made == old(made) + 1
      ensures !Joins(old(flowTable), p) ==> old(clock) <= base.beginTime <= clock
      ensures hist == old(hist) + [Delivery(p, base.serial)]
      // what became of that flow
      ensures Closed(base) ==> EndedAs(Counted(base, p), c) && c.endTime == clock && GetHash(p.key) !in flowTable
      ensures !Closed(base) ==> c == FinMarked(Counted(base, p), p)
                                && GetHash(p.key) in flowTable && flowTable[GetHash(p.key)] == c
      // the records written
      ensures Restarts(old(flowTable), p) ==> |restarted| == 1 && EndedAs(old(flowTable)[GetHash(p.key)], restarted[0])
      ensures Restarts(old(flowTable), p) ==> |restarted| == 1 && old(clock) <= restarted[0].endTime <= clock
      ensures !Restarts(old(flowTable), p) ==> restarted == []
      ensures log == old(log) + restarted + if Closed(base) then [c] else []
      // all other flows
      ensures flowTable - {GetHash(p.key)} == old(flowTable) - {GetHash(p.key)}
      // the same told from the packets before this one
      ensures Remembered(flowTable, log, hist)
      ensures GetHash(p.key) !in flowTable <==> Joins(old(flowTable), p) && Over(Own(old(hist), base.serial))
      ensures Restarts(old(flowTable), p) <==>
        p.isSyn && GetHash(p.key) in old(flowTable)
        && !EndsInSyn(Own(old(hist), old(flowTable)[GetHash(p.key)].serial))
    {
      hide Sound, Linked, AllTold, AllNamed, Own, Over, EndsInSyn, Placed, FinsBounded, SerialsBelow;
      ghost var was := flowTable;
      SoundHas(flowTable, flowCache.cacheList, flowOutTime, clock, log, place, hist);
      ghost var log0, place0, hist0 := log, place, hist;
      if GetHash(p.key) in flowTable {
        ClosedIsOver(flowTable, hist, GetHash(p.key));
      }
      restarted, base := FindFlow(p);
      ghost var t0 := flowTable;
      ghost var counted := CountPacket(p);
      ghost var t1 := flowTable;
      c := CloseFlow(p);
      OthersKept(t0, t1, flowTable, GetHash(p.key), counted, c);
      ToldStep(was, flowTable, log0, place0, hist0, GetHash(p.key), p, base);
      NamedStep(was, log0, place0, hist0, GetHash(p.key), p, base, restarted, if Closed(base) then [c] else []);
    }

    /** The packets of one burst, in order. */
    method ParseFlow(frames: seq<Frame>, ghost world: set<FlowKey>)
      requires Valid() && Remembered(flowTable, log, hist)
      requires Rooted(flowTable, hist) && Within(hist, world) && NoCollisions(world)
      requires forall f :: f in frames ==> WellFormed(f) && Meaning(f).key in world
      modifies this`flowTable, this`clock, this`log, this`made, this`place, this`hist, flowCache
      ensures Valid() && Remembered(flowTable, log, hist)
      ensures Rooted(flowTable, hist) && Within(hist, world) && clock >= old(clock)
      ensures |hist| == |old(hist)| + |frames| && hist[..|old(hist)|] == old(hist)
      ensures forall i :: 0 <= i < |frames| ==> hist[|old(hist)| + i].packet == Meaning(frames[i])
      ensures old(log) <= log
    {
      hide Sound, Linked, Rooted, Within, NoCollisions, Counted, Layers, Meaning, RecognizedAll, GetHash, Restarts,
           Remembered, Own, Over, EndsInSyn;
      for n := 0 to |frames|
        invariant Valid() && Remembered(flowTable, log, hist)
        invariant Rooted(flowTable, hist) && Within(hist, world) && clock >= old(clock)
        invariant |hist| == |old(hist)| + n && hist[..|old(hist)|] == old(hist)
        invariant forall i :: 0 <= i < n ==> hist[|old(hist)| + i].packet == Meaning(frames[i])
        invariant old(log) <= log
      {
        ghost var t, was := flowTable, hist;
        var p := RecognizeFlow(Layers(frames[n]));
        SenderIsKnown(t, was, world, p);
        ghost var restarted, base, c := InsertFlowTable(p);
        StaysRooted(t, flowTable, was, GetHash(p.key), Delivery(p, base.serial), base);
        StaysWithin(was, world, p, base.serial);
      }
    }

    /** Ends all flows whose time is up: those with an expiry time of at most now, and no others. */
    method ClearExpiredFlow() returns (ghost now: nat, ghost ended: seq<FlowContext>)
      requires Valid()
      modifies this`flowTable, this`clock, this`log, this`place, flowCache
      ensures Valid() && old(clock) <= now <= clock
      ensures forall h :: h in flowTable <==> h in old(flowTable) && old(flowTable)[h].beginTime + flowOutTime > now
      ensures forall h :: h in flowTable ==> flowTable[h] == old(flowTable)[h]
      ensures log == old(log) + ended
      ensures forall r :: r in ended ==>
        ExpiredFrom(old(flowTable), flowOutTime, now, r) && RecordOf(old(flowTable), now, r)
    {
      hide Sound, Linked, Clearing, Expires, AllInTime, RecordOf, ExpiredFrom;
      ghost var t0, log0 := flowTable, log;
      var time := GetCurTimeMs();
      SoundLater(flowTable, flowCache.cacheList, flowOutTime, old(clock), clock, log, place, hist);
      now, ended := time, [];
      ghost var gone: set<HashValue> := {};
      ClearingStarts(t0, flowOutTime, now);
      var found, key := NextExpired(time);
      while found
        invariant Valid() && now <= clock && log == log0 + ended && flowTable == t0 - gone
        invariant Clearing(t0, flowOutTime, now, gone, ended)
        invariant found ==> Expires(flowTable, key, flowOutTime, now)
        invariant !found ==> AllInTime(flowTable, flowOutTime, now)
        decreases |flowTable|
      {
        ghost var h, t := GetHash(key), flowTable;
        ExpiresMeans(t, key, flowOutTime, now);
        ghost var rec := DumpAndErase(key, time);
        ErasedAnyway(t, h, rec);
        EraseShrinks(t, h);
        GoneGrows(t0, gone, h);
        ClearingStep(t0, flowOutTime, now, gone, ended, h, rec);
        OneMoreRecord(log0, ended, rec);
        gone, ended := gone + {h}, ended + [rec];
        found, key := NextExpired(time);
      }
      ClearingEnds(t0, flowOutTime, now, gone, ended, flowTable);
    }

    /** The next flow to end: the front of the expiry list knows. */
    method NextExpired(now: nat) returns (found: bool, key: FlowKey)
      requires Valid()
      ensures found ==> Expires(flowTable, key, flowOutTime, now)
      ensures !found ==> AllInTime(flowTable, flowOutTime, now)
    {
      hide Sound, Linked;
      found, key := flowCache.GetExpired(now);
      if found {
        FrontCell(flowTable, flowCache.cacheList, flowOutTime, clock, log, place, hist);
      } else {
        NothingExpired(flowCache.cacheMap, flowCache.nextId, flowTable, flowCache.cacheList, flowOutTime, clock, log,
                       place, hist, now);
      }
    }

    /** Ends all flows. The expiry list is left as it was, so it agrees with the table no more
        unless both were empty. */
    method DumpAllFlow() returns (ghost now: nat, ghost ended: seq<FlowContext>)
      requires Valid()
      modifies this`flowTable, this`clock, this`log, this`place
      ensures flowTable == map[] && old(clock) <= now <= clock && log == old(log) + ended
      ensures |ended| == |old(flowTable)| && forall r :: r in ended ==> RecordOf(old(flowTable), now, r)
      ensures Placed(flowTable, log, place) && Attributed(flowTable, log, hist)
      ensures SerialsBelow(hist, |place|) && made == |place|
    {
      hide Placed, Attributed, Linked, Timed, SerialsBelow, RecordOf;
      var time := GetCurTimeMs();
      now, ended := time, [];
      var todo := flowTable.Keys;
      ghost var rest, t0, log0 := flowTable, flowTable, log;
      while todo != {}
        invariant todo == rest.Keys && todo <= flowTable.Keys
        invariant forall h :: h in rest ==> flowTable[h] == rest[h] && h in t0 && t0[h] == rest[h]
        invariant Placed(rest, log, place) && Attributed(rest, log, hist) && |place| == |old(place)|
        invariant clock >= now && log == log0 + ended && |ended| + |rest| == |t0|
        invariant forall r :: r in ended ==> RecordOf(t0, now, r)
      {
        var h :| h in todo;
        PlacedAt(rest, log, place, h);
        ghost var was, before := log, place;
        ghost var rec := DumpFlow(h, time);
        PlacedClose(rest, was, before, h, rec);
        AttributedClose(rest, was, hist, h, rec.endTime);
        EraseShrinks(rest, h);
        RecordWritten(t0, h, now, rec);
        OneMoreRecord(log0, ended, rec);
        ended := ended + [rec];
        rest := rest - {h};
        todo := todo - {h};
      }
      flowTable := map[];
      assert rest == map[];
    }

    /** All flows ever made: the dumped records, and the stored flows in the order of the expiry list. */
    ghost function AllFlows(): seq<FlowContext>
      requires Valid()
      reads this, flowCache
    {
      CellsInTable(flowCache.cacheMap, flowCache.nextId, flowTable, flowCache.cacheList);
      log + LiveFlows(flowTable, flowCache.cacheList)
    }

    /** At any moment, the packets and bytes in records and stored flows are those inserted. */
    lemma RunningTotals()
      requires Valid()
      ensures Distinct(AllFlows())
      ensures TotalPkts(AllFlows()) + WORD * PktLaps(AllFlows(), hist) == |hist|
      ensures TotalBytes(AllFlows()) + WORD * ByteLaps(AllFlows(), hist) == BytesSeen(hist)
      ensures |hist| < WORD ==> TotalPkts(AllFlows()) == |hist|
      ensures BytesSeen(hist) < WORD ==> TotalBytes(AllFlows()) == BytesSeen(hist)
    {
      hide Linked, Placed, Attributed, Cover, AllRight, Distinct, SerialsBelow;
      var index, cells, next := flowCache.cacheMap, flowCache.cacheList, flowCache.nextId;
      CellsInTable(index, next, flowTable, cells);
      AllFlowsDistinct(index, cells, next, flowTable, log, place);
      AllFlowsCover(index, cells, next, flowTable, log, place, hist);
      AllFlowsRight(cells, flowTable, log, hist);
      Conservation(AllFlows(), hist);
    }

    /** A burst that was taken out: its packets, and then the flows whose time is up. */
    method TakeBurst(frames: seq<Frame>, ghost world: set<FlowKey>)
      requires Valid() && Remembered(flowTable, log, hist)
      requires Rooted(flowTable, hist) && Within(hist, world) && NoCollisions(world)
      requires forall f :: f in frames ==> WellFormed(f) && Meaning(f).key in world
      modifies this`flowTable, this`clock, this`log, this`made, this`place, this`hist, flowCache
      ensures Valid() && Remembered(flowTable, log, hist)
      ensures Rooted(flowTable, hist) && Within(hist, world) && old(log) <= log
      ensures PacketsOf(hist) == PacketsOf(old(hist)) + Meanings(frames)
    {
      hide Sound, Linked, Rooted, Within, NoCollisions, PacketsOf, Meanings, Remembered;
      ghost var was := hist;
      ParseFlow(frames, world);
      PacketsGrow(was, hist, frames);
      ghost var t, log0 := flowTable, log;
      ghost var now, ended := ClearExpiredFlow();
      RootedInFewer(t, flowTable, hist);
      NamedRecords(t, flowTable, log0, ended, hist, now);
    }

    /** The end of a run: all flows end, and every packet and byte is in the record of its flow. */
    method Finish()
      requires Valid() && Remembered(flowTable, log, hist)
      modifies this`flowTable, this`clock, this`log, this`place
      ensures flowTable == map[] && old(log) <= log && AllNamed(log, hist)
      ensures Distinct(log) && Cover(log, hist) && AllRight(log, hist)
      ensures forall s :: 0 <= s < made ==> HasSerial(log, s)
      ensures TotalPkts(log) + WORD * PktLaps(log, hist) == |hist|
      ensures TotalBytes(log) + WORD * ByteLaps(log, hist) == BytesSeen(hist)
    {
      hide Sound, Linked, Distinct, Cover, AllRight, HasSerial, RecordOf, AllNamed, AllTold;
      ghost var t, log0 := flowTable, log;
      ghost var now, ended := DumpAllFlow();
      NamedRecords(t, flowTable, log0, ended, hist, now);
      AllDumped(log, place, hist);
      Conservation(log, hist);
    }

    /** The whole run: bursts from the ring until it is empty, and then the end of all flows. */
    method DecodeProcess(bursts: seq<seq<Frame>>, ghost world: set<FlowKey>)
      requires Valid() && Remembered(flowTable, log, hist)
      requires Rooted(flowTable, hist) && Within(hist, world) && NoCollisions(world)
      requires forall b :: b in bursts ==> BurstIn(b, world)
      modifies this`flowTable, this`clock, this`log, this`made, this`place, this`hist, flowCache
      ensures flowTable == map[] && old(log) <= log
      ensures PacketsOf(hist) == PacketsOf(old(hist)) + MeaningsOf(bursts)
      // each flow has one record, and each record is right
      ensures Distinct(log) && Cover(log, hist) && AllRight(log, hist) && AllNamed(log, hist)
      ensures forall s :: 0 <= s < made ==> HasSerial(log, s)
      // nothing is lost
      ensures TotalPkts(log) + WORD * PktLaps(log, hist) == |hist|
      ensures TotalBytes(log) + WORD * ByteLaps(log, hist) == BytesSeen(hist)
    {
      hide Sound, Linked, Rooted, Within, NoCollisions, Distinct, Cover, AllRight, Remembered, AllNamed;
      ghost var hist0 := hist;
      assert bursts[..0] == [];
      for n := 0 to |bursts|
        invariant Valid() && Remembered(flowTable, log, hist)
        invariant Rooted(flowTable, hist) && Within(hist, world) && old(log) <= log
        invariant PacketsOf(hist) == PacketsOf(hist0) + MeaningsOf(bursts[..n])
      {
        BurstsSoFar(bursts, n, world);
        if bursts[n] != [] {
          TakeBurst(bursts[n], world);
        }
      }
      assert bursts[..|bursts|] == bursts;
      Finish();
    }
  }
}
