/** The expiry cache: a list in insertion order, and a map from flow to its cell in the list. */
module FlowCaching {
  import opened Flow

  /** A list cell. id stands for the cell's address, which is what a list iterator holds. */
  datatype Cell = Cell(id: nat, key: FlowKey, expire: nat)

  /** The list without the cell an iterator points at. */
  function Erased(cells: seq<Cell>, id: nat): seq<Cell> {
    if cells == [] then []
    else if cells[0].id == id then cells[1..]
    else [cells[0]] + Erased(cells[1..], id)
  }

  ghost predicate Ascending(cells: seq<Cell>) {
    forall i, j :: 0 <= i < j < |cells| ==> cells[i].id < cells[j].id
  }

  /** The hash functor; what follows holds for any. */
  type Hasher = FlowKey -> HashValue

  ghost predicate HasCell(hash: Hasher, cells: seq<Cell>, h: HashValue) {
    exists c :: c in cells && hash(c.key) == h
  }

  /** Every iterator points at the cell of its own flow, and every cell is pointed at. */
  ghost predicate Linked(hash: Hasher, index: map<HashValue, nat>, cells: seq<Cell>, nextId: nat) {
    && Ascending(cells)
    && (forall c :: c in cells ==> c.id < nextId && hash(c.key) in index && index[hash(c.key)] == c.id)
    && (forall h :: h in index ==> HasCell(hash, cells, h))
  }

  lemma AscendingTail(cells: seq<Cell>)
    requires Ascending(cells) && cells != []
    ensures Ascending(cells[1..]) && forall c :: c in cells[1..] ==> cells[0].id < c.id
  {
    var rest := cells[1..];
    forall c | c in rest
      ensures cells[0].id < c.id
    {
      var j :| 0 <= j < |rest| && rest[j] == c;
      assert cells[j + 1] == c;
    }
    forall i, j | 0 <= i < j < |rest|
      ensures rest[i].id < rest[j].id
    {
      assert rest[i] == cells[i + 1] && rest[j] == cells[j + 1];
    }
  }

  lemma AscendingCons(c: Cell, rest: seq<Cell>)
    requires Ascending(rest) && forall d :: d in rest ==> c.id < d.id
    ensures Ascending([c] + rest)
  {
    var all := [c] + rest;
    forall i, j | 0 <= i < j < |all|
      ensures all[i].id < all[j].id
    {
      assert all[j] == rest[j - 1] && rest[j - 1] in rest;
    }
  }

  /** Erasing takes out exactly the one cell and keeps the order of the rest. */
  lemma {:induction false} ErasedAt(cells: seq<Cell>, i: nat)
    requires Ascending(cells) && i < |cells|
    ensures Erased(cells, cells[i].id) == cells[..i] + cells[i + 1..]
  {
    if i > 0 {
      var rest := cells[1..];
      AscendingTail(cells);
      assert rest[i - 1] == cells[i] && rest[i - 1] in rest;
      ErasedAt(rest, i - 1);
      assert cells[..i] == [cells[0]] + rest[..i - 1];
      assert cells[i + 1..] == rest[i..];
    }
  }

  lemma {:induction false} ErasedMembers(cells: seq<Cell>, id: nat)
    requires Ascending(cells)
    ensures Ascending(Erased(cells, id))
    ensures forall c :: c in Erased(cells, id) <==> c in cells && c.id != id
  {
    if cells != [] {
      var first, rest := cells[0], cells[1..];
      assert cells == [first] + rest;
      AscendingTail(cells);
      ErasedMembers(rest, id);
      if first.id != id {
        AscendingCons(first, Erased(rest, id));
      }
    }
  }

  lemma LinkedInsert(hash: Hasher, index: map<HashValue, nat>, cells: seq<Cell>, nextId: nat, key: FlowKey, value: nat)
    requires Linked(hash, index, cells, nextId) && hash(key) !in index
    ensures Linked(hash, index[hash(key) := nextId], cells + [Cell(nextId, key, value)], nextId + 1)
  {
    var last, h := Cell(nextId, key, value), hash(key);
    var now, grown := cells + [last], index[h := nextId];
    AscendingSnoc(cells, last);
    forall g | g in grown
      ensures HasCell(hash, now, g)
    {
      if g == h {
        assert now[|cells|] == last && hash(last.key) == g;
      } else {
        HasCellInLonger(hash, cells, now, g);
      }
    }
  }

  lemma AscendingSnoc(cells: seq<Cell>, last: Cell)
    requires Ascending(cells) && forall c :: c in cells ==> c.id < last.id
    ensures Ascending(cells + [last])
  {
    var now := cells + [last];
    forall i, j | 0 <= i < j < |now|
      ensures now[i].id < now[j].id
    {
      assert now[i] in cells;
    }
  }

  lemma HasCellInLonger(hash: Hasher, cells: seq<Cell>, now: seq<Cell>, g: HashValue)
    requires HasCell(hash, cells, g) && forall c :: c in cells && hash(c.key) == g ==> c in now
    ensures HasCell(hash, now, g)
  {
    var c :| c in cells && hash(c.key) == g;
    assert c in now;
  }

  /** Erasing a flow's cell takes out exactly the cells of its hash class. */
  lemma ErasedClass(hash: Hasher, index: map<HashValue, nat>, cells: seq<Cell>, nextId: nat, h: HashValue)
    requires Linked(hash, index, cells, nextId) && h in index
    ensures Ascending(Erased(cells, index[h]))
    ensures forall c :: c in Erased(cells, index[h]) <==> c in cells && hash(c.key) != h
  {
    ErasedMembers(cells, index[h]);
    OwnIdOnly(hash, index, cells, nextId, h);
  }

  lemma LinkedFewer(hash: Hasher, index: map<HashValue, nat>, cells: seq<Cell>, nextId: nat,
                    h: HashValue, now: seq<Cell>)
    requires Linked(hash, index, cells, nextId) && Ascending(now)
    requires forall c :: c in now <==> c in cells && hash(c.key) != h
    ensures Linked(hash, index - {h}, now, nextId)
  {
    forall g | g in index && g != h
      ensures HasCell(hash, now, g)
    {
      HasCellInLonger(hash, cells, now, g);
    }
  }

  lemma LinkedDelete(hash: Hasher, index: map<HashValue, nat>, cells: seq<Cell>, nextId: nat, h: HashValue)
    requires Linked(hash, index, cells, nextId) && h in index
    ensures Linked(hash, index - {h}, Erased(cells, index[h]), nextId)
    ensures forall c :: c in Erased(cells, index[h]) <==> c in cells && hash(c.key) != h
  {
    ErasedClass(hash, index, cells, nextId, h);
    LinkedFewer(hash, index, cells, nextId, h, Erased(cells, index[h]));
  }

  lemma LinkedUpdate(hash: Hasher, index: map<HashValue, nat>, cells: seq<Cell>, nextId: nat, key: FlowKey, value: nat)
    requires Linked(hash, index, cells, nextId) && hash(key) in index
    ensures Linked(hash, index[hash(key) := nextId],
                   Erased(cells, index[hash(key)]) + [Cell(nextId, key, value)], nextId + 1)
  {
    var h := hash(key);
    LinkedDelete(hash, index, cells, nextId, h);
    LinkedInsert(hash, index - {h}, Erased(cells, index[h]), nextId, key, value);
    assert (index - {h})[h := nextId] == index[h := nextId];
  }

  lemma OwnIdOnly(hash: Hasher, index: map<HashValue, nat>, cells: seq<Cell>, nextId: nat, h: HashValue)
    requires Linked(hash, index, cells, nextId) && h in index
    ensures forall c :: c in cells ==> (c.id == index[h] <==> hash(c.key) == h)
  {
    assert HasCell(hash, cells, h);
    var own :| own in cells && hash(own.key) == h;
    forall c | c in cells && c.id == index[h]
      ensures hash(c.key) == h
    {
      SameIdSameCell(cells, c, own);
    }
  }

  lemma SameIdSameCell(cells: seq<Cell>, a: Cell, b: Cell)
    requires Ascending(cells) && a in cells && b in cells && a.id == b.id
    ensures a == b
  {
    var i :| 0 <= i < |cells| && cells[i] == a;
    var j :| 0 <= j < |cells| && cells[j] == b;
    assert !(i < j) && !(j < i);
  }

  class FlowCache {
    const capacity: nat
    var cacheMap: map<HashValue, nat>
    var cacheList: seq<Cell>
    var nextId: nat

    ghost predicate Valid()
      reads this
    {
      Linked(GetHash, cacheMap, cacheList, nextId)
    }

    constructor (capacity: nat)
      ensures Valid() && cacheMap == map[] && cacheList == [] && this.capacity == capacity
    {
      this.capacity := capacity;
      cacheMap, cacheList, nextId := map[], [], 0;
    }

    /** Moves a flow to the end of the list with a new expiry time. */
    method Update(key: FlowKey, value: nat)
      requires Valid() && GetHash(key) in cacheMap
      modifies this
      ensures Valid() && cacheMap.Keys == old(cacheMap.Keys)
      ensures cacheList == Erased(old(cacheList), old(cacheMap)[GetHash(key)]) + [Cell(old(nextId), key, value)]
    {
      var h := GetHash(key);
      LinkedUpdate(GetHash, cacheMap, cacheList, nextId, key, value);
      cacheList := Erased(cacheList, cacheMap[h]);
      cacheList := cacheList + [Cell(nextId, key, value)];
      cacheMap := cacheMap[h := nextId];
      nextId := nextId + 1;
    }

    method Insert(key: FlowKey, value: nat) returns (ok: bool)
      requires Valid() && GetHash(key) !in cacheMap
      modifies this
      ensures Valid() && ok == (capacity == 0 || |old(cacheMap)| <= capacity)
      ensures !ok ==> cacheMap == old(cacheMap) && cacheList == old(cacheList)
      ensures ok ==> cacheList == old(cacheList) + [Cell(old(nextId), key, value)]
      ensures ok ==> cacheMap == old(cacheMap)[GetHash(key) := old(nextId)]
    {
      if capacity != 0 && |cacheMap| > capacity {
        return false;
      }
      LinkedInsert(GetHash, cacheMap, cacheList, nextId, key, value);
      cacheList := cacheList + [Cell(nextId, key, value)];
      cacheMap := cacheMap[GetHash(key) := nextId];
      nextId := nextId + 1;
      return true;
    }

    method Count(key: FlowKey) returns (r: bool)
      ensures r <==> GetHash(key) in cacheMap
    {
      r := GetHash(key) in cacheMap;
    }

    /** Looks at the front of the list only. */
    method GetExpired(now: nat) returns (found: bool, key: FlowKey)
      requires Valid()
      ensures found <==> cacheList != [] && cacheList[0].expire <= now
      ensures found ==> key == cacheList[0].key && GetHash(key) in cacheMap
    {
      key := FlowKey(0, 0, 0, 0, 0);
      if cacheMap == map[] {
        assert cacheList != [] ==> cacheList[0] in cacheList;
        return false, key;
      }
      assert cacheList != [] by {
        assert cacheMap.Keys != {};
        var h :| h in cacheMap.Keys;
        assert HasCell(GetHash, cacheList, h);
      }
      if cacheList[0].expire <= now {
        return true, cacheList[0].key;
      }
      return false, key;
    }

    method Delete(key: FlowKey)
      requires Valid() && GetHash(key) in cacheMap
      modifies this
      ensures Valid() && cacheMap == old(cacheMap) - {GetHash(key)} && nextId == old(nextId)
      ensures cacheList == Erased(old(cacheList), old(cacheMap)[GetHash(key)])
      ensures forall c :: c in cacheList <==> c in old(cacheList) && GetHash(c.key) != GetHash(key)
    {
      var h := GetHash(key);
      LinkedDelete(GetHash, cacheMap, cacheList, nextId, h);
      cacheList := Erased(cacheList, cacheMap[h]);
      cacheMap := cacheMap - {h};
    }
  }
}
