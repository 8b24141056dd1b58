/** Flow keys and flow counters. Keys are compared by hash alone, so a hash value stands for a flow. */
module Flow {
  import opened Powers

  datatype FlowKey = FlowKey(ip1: bv32, ip2: bv32, port1: bv16, port2: bv16, proto: bv16)

  type HashValue = U32

  // Exclusive or, by name: its laws are used as laws, and not bit by bit.

  function Xor(a: bv32, b: bv32): bv32 {
    a ^ b
  }

  function Xor16(a: bv16, b: bv16): bv16 {
    a ^ b
  }

  function Wide(a: bv16): bv32 {
    a as bv32
  }

  lemma XorSwaps(a: bv32, b: bv32)
    ensures Xor(a, b) == Xor(b, a)
  {
  }

  lemma XorGroups(a: bv32, b: bv32, c: bv32)
    ensures Xor(Xor(a, b), c) == Xor(a, Xor(b, c))
  {
  }

  lemma XorExchange(a: bv32, b: bv32, c: bv32)
    ensures Xor(Xor(a, b), c) == Xor(Xor(a, c), b)
  {
    hide Xor;
    XorGroups(a, b, c);
    XorSwaps(b, c);
    XorGroups(a, c, b);
  }

  lemma FourXor(a: bv32, b: bv32, c: bv32, d: bv32)
    ensures Xor(Xor(a, b), Xor(c, d)) == Xor(Xor(a, c), Xor(b, d))
  {
    hide Xor;
    XorGroups(Xor(a, b), c, d);
    XorExchange(a, b, c);
    XorGroups(Xor(a, c), b, d);
  }

  lemma WideXor(a: bv16, b: bv16)
    ensures Wide(Xor16(a, b)) == Xor(Wide(a), Wide(b))
  {
  }

  function HashBits(key: FlowKey): bv32 {
    Xor(Xor(Xor(Xor(key.ip1, key.ip2), Wide(key.port1)), Wide(key.port2)), Wide(key.proto))
  }

  function GetHash(key: FlowKey): HashValue {
    HashBits(key) as int
  }

  /** The key of a packet going the other way. */
  function Reversed(key: FlowKey): FlowKey {
    FlowKey(key.ip2, key.ip1, key.port2, key.port1, key.proto)
  }

  /** Both directions of a conversation fall into one flow. */
  lemma HashIsSymmetric(key: FlowKey)
    ensures GetHash(Reversed(key)) == GetHash(key)
  {
    hide Xor, Wide;
    XorSwaps(key.ip1, key.ip2);
    XorExchange(Xor(key.ip1, key.ip2), Wide(key.port1), Wide(key.port2));
  }

  lemma XorPairs(a1: bv32, a2: bv32, a3: bv32, a4: bv32, a5: bv32, b1: bv32, b2: bv32, b3: bv32, b4: bv32, b5: bv32)
    ensures Xor(Xor(Xor(Xor(Xor(a1, b1), Xor(a2, b2)), Xor(a3, b3)), Xor(a4, b4)), Xor(a5, b5))
         == Xor(Xor(Xor(Xor(Xor(a1, a2), a3), a4), a5), Xor(Xor(Xor(Xor(b1, b2), b3), b4), b5))
  {
    hide Xor;
    var p2, q2 := Xor(a1, a2), Xor(b1, b2);
    var p3, q3 := Xor(p2, a3), Xor(q2, b3);
    var p4, q4 := Xor(p3, a4), Xor(q3, b4);
    FourXor(a1, b1, a2, b2);
    FourXor(p2, q2, a3, b3);
    FourXor(p3, q3, a4, b4);
    FourXor(p4, q4, a5, b5);
  }

  /** Two keys combined field by field. */
  function FieldXor(a: FlowKey, b: FlowKey): FlowKey {
    FlowKey(Xor(a.ip1, b.ip1), Xor(a.ip2, b.ip2), Xor16(a.port1, b.port1), Xor16(a.port2, b.port2),
            Xor16(a.proto, b.proto))
  }

  /** The hash takes every combination of keys to the combination of their hashes. */
  lemma HashOfXor(a: FlowKey, b: FlowKey)
    ensures HashBits(FieldXor(a, b)) == HashBits(a) ^ HashBits(b)
  {
    hide HashBits, Xor, FieldXor;
    CombinedHash(a, b);
    XorIsXor(HashBits(a), HashBits(b));
  }

  lemma XorIsXor(a: bv32, b: bv32)
    ensures Xor(a, b) == a ^ b
  {
  }

  lemma CombinedHash(a: FlowKey, b: FlowKey)
    ensures HashBits(FieldXor(a, b)) == Xor(HashBits(a), HashBits(b))
  {
    hide Xor, Xor16, Wide;
    WideXor(a.port1, b.port1);
    WideXor(a.port2, b.port2);
    WideXor(a.proto, b.proto);
    XorPairs(a.ip1, a.ip2, Wide(a.port1), Wide(a.port2), Wide(a.proto),
             b.ip1, b.ip2, Wide(b.port1), Wide(b.port2), Wide(b.proto));
  }

  lemma XorNothing(a: bv32)
    ensures Xor(a, 0) == a && Xor(0, a) == a
  {
  }

  lemma WideNothing()
    ensures Wide(0) == 0
  {
  }

  /** A key with one field that is not zero hashes to that field. */
  lemma HashOfOneField(ip: bv32, port: bv16)
    ensures HashBits(FlowKey(ip, 0, 0, 0, 0)) == HashBits(FlowKey(0, ip, 0, 0, 0)) == ip
    ensures HashBits(FlowKey(0, 0, port, 0, 0)) == HashBits(FlowKey(0, 0, 0, port, 0)) == port as bv32
    ensures HashBits(FlowKey(0, 0, 0, 0, port)) == port as bv32
  {
    hide Xor;
    WideNothing();
    XorNothing(0);
    XorNothing(ip);
    XorNothing(Wide(port));
  }

  /** How many fields two keys differ in. */
  function Differing(a: FlowKey, b: FlowKey): nat {
    (if a.ip1 != b.ip1 then 1 else 0) + (if a.ip2 != b.ip2 then 1 else 0)
    + (if a.port1 != b.port1 then 1 else 0) + (if a.port2 != b.port2 then 1 else 0)
    + (if a.proto != b.proto then 1 else 0)
  }

  lemma XorZero(a: bv32, b: bv32)
    ensures Xor(a, b) == 0 <==> a == b
  {
  }

  lemma XorZero16(a: bv16, b: bv16)
    ensures Xor16(a, b) == 0 <==> a == b
  {
  }

  lemma WideZero(a: bv16)
    ensures Wide(a) == 0 <==> a == 0
  {
  }

  lemma BackAgain(a: bv32)
    ensures (a as int) as bv32 == a
  {
  }

  lemma HashDiffers(a: FlowKey, b: FlowKey)
    requires HashBits(FieldXor(a, b)) != 0
    ensures GetHash(a) != GetHash(b)
  {
    CombinedHash(a, b);
    hide HashBits, Xor, FieldXor;
    XorZero(HashBits(a), HashBits(b));
    BackAgain(HashBits(a));
    BackAgain(HashBits(b));
  }

  /** Every field counts: keys that differ in exactly one field have different hashes. */
  lemma EveryFieldCounts(a: FlowKey, b: FlowKey)
    requires Differing(a, b) == 1
    ensures GetHash(a) != GetHash(b)
  {
    hide HashBits, GetHash, Xor, Xor16, Wide;
    var x := FieldXor(a, b);
    XorZero(a.ip1, b.ip1);
    XorZero(a.ip2, b.ip2);
    XorZero16(a.port1, b.port1);
    XorZero16(a.port2, b.port2);
    XorZero16(a.proto, b.proto);
    if a.ip1 != b.ip1 {
      HashOfOneField(x.ip1, 0);
    } else if a.ip2 != b.ip2 {
      HashOfOneField(x.ip2, 0);
    } else {
      var port := if a.port1 != b.port1 then x.port1 else if a.port2 != b.port2 then x.port2 else x.proto;
      WideZero(port);
      HashOfOneField(0, port);
    }
    HashDiffers(a, b);
  }

  /** The two ends of b may be those of a, in either order, as far as a's sender goes. */
  predicate SenderKnown(ip1: bv32, ip2: bv32, key: FlowKey) {
    ip1 == key.ip1 || ip2 == key.ip1
  }

  /** Equal hashes do not make equal conversations: these two share a flow entry. */
  lemma HashCollision()
    ensures var a, b := FlowKey(1, 2, 0, 0, 6), FlowKey(4, 7, 0, 0, 6);
      GetHash(a) == GetHash(b) && !SenderKnown(a.ip1, a.ip2, b)
  {
    assert HashBits(FlowKey(1, 2, 0, 0, 6)) == 5;
    assert HashBits(FlowKey(4, 7, 0, 0, 6)) == 5;
  }

  /** A stored flow. serial stands for the identity of the heap object. */
  datatype FlowContext = FlowContext(
    serial: nat, ip1: bv32, ip2: bv32, port1: bv16, port2: bv16, proto: bv16,
    bytes12: U32, bytes21: U32, pkts12: U32, pkts21: U32,
    beginTime: nat, endTime: nat,
    synCount: U8, lastIsSyn: bool, finCount: U8, lastIsFin: bool)

  type U8 = x: int | 0 <= x < 0x100

  function Pkts(c: FlowContext): nat {
    c.pkts12 + c.pkts21
  }

  function Bytes(c: FlowContext): nat {
    c.bytes12 + c.bytes21
  }

  /** What one packet contributes. */
  datatype Packet = Packet(key: FlowKey, bytes: U32, isSyn: bool, isFin: bool)
}
