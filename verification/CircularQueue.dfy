/** The fixed-capacity ring under the logging queue: pushing onto a full ring drops the oldest entry. */
module CircularQueue {

  /** The newest n entries of a history, oldest first. */
  function Newest<T>(s: seq<T>, n: nat): (r: seq<T>)
    ensures |r| == if |s| <= n then |s| else n
  {
    if |s| <= n then s else s[|s| - n..]
  }

  /** Keeping the newest entries step by step or all at once is the same. */
  lemma NewestAfterPush<T>(s: seq<T>, x: T, n: nat)
    ensures Newest(Newest(s, n) + [x], n) == Newest(s + [x], n)
  {
  }

  lemma NewestOfNewest<T>(s: seq<T>, n: nat, m: nat)
    requires m <= n
    ensures Newest(Newest(s, n), m) == Newest(s, m)
  {
  }

  lemma NewestIsAllOrRest<T>(s: seq<T>, n: nat)
    requires |s| <= n + 1
    ensures Newest(s, n) == if |s| <= n then s else s[1..]
  {
  }

  lemma NewestGrows<T>(pushed: seq<T>, contents: seq<T>, x: T, capacity: nat)
    requires |contents| <= capacity && contents == Newest(pushed, |contents|)
    ensures var now := Newest(contents + [x], capacity); now == Newest(pushed + [x], |now|)
  {
    assert |contents| <= |pushed|;
    assert pushed == pushed[..|pushed| - |contents|] + contents;
    var now := Newest(contents + [x], capacity);
    assert pushed + [x] == pushed[..|pushed| - |contents|] + (contents + [x]);
  }

  lemma NewestShrinks<T>(pushed: seq<T>, contents: seq<T>)
    requires contents != [] && contents == Newest(pushed, |contents|)
    ensures contents[1..] == Newest(pushed, |contents| - 1)
  {
  }

  /** i modulo n, for an index at most once around the ring. */
  function Wrap(i: nat, n: nat): (r: nat)
    requires i < 2 * n
    ensures r == if i < n then i else i - n
  {
    WrapOnce(i, n);
    i % n
  }

  lemma WrapOnce(i: nat, n: nat)
    requires i < 2 * n
    ensures i % n == if i < n then i else i - n
  {
    if i < n {
      assert i == 0 * n + i;
    } else {
      assert i == 1 * n + (i - n);
    }
  }

  /** What lies between head and tail, around the end of the buffer if need be. */
  function Ring<T>(v: seq<T>, head: nat, tail: nat): seq<T>
    requires head < |v| && tail < |v|
  {
    if head <= tail then v[head..tail] else v[head..] + v[..tail]
  }

  /** Writing at the tail appends when a slot stays free behind it. */
  lemma RingPush<T>(v: seq<T>, head: nat, tail: nat, item: T)
    requires head < |v| && tail < |v| && Wrap(tail + 1, |v|) != head
    ensures Ring(v[tail := item], head, Wrap(tail + 1, |v|)) == Ring(v, head, tail) + [item]
    ensures |Ring(v, head, tail)| < |v| - 1
  {
    var w, next := v[tail := item], Wrap(tail + 1, |v|);
    if head <= tail && next > tail {
      assert w[head..next] == v[head..tail] + [item];
    } else if head <= tail {
      assert w[head..] == v[head..tail] + [item];
    } else {
      assert w[..next] == v[..tail] + [item];
      assert w[head..] == v[head..];
    }
  }

  /** When the tail meets the head, the head must move on: the oldest entry is gone. */
  lemma RingOverrun<T>(v: seq<T>, head: nat, tail: nat, item: T)
    requires head < |v| && tail < |v| && Wrap(tail + 1, |v|) == head
    ensures Ring(v[tail := item], Wrap(head + 1, |v|), head) == (Ring(v, head, tail) + [item])[1..]
    ensures |Ring(v, head, tail)| == |v| - 1
  {
    var w, all := v[tail := item], Ring(v, head, tail) + [item];
    if head <= tail {
      assert head == 0 && tail == |v| - 1;
      assert all == w;
      if |v| == 1 {
        assert Ring(w, 0, 0) == [] == all[1..];
      } else {
        assert Ring(w, 1, 0) == w[1..] + w[..0] == w[1..];
      }
    } else {
      assert tail == head - 1;
      assert w[..head] == v[..tail] + [item];
      assert all == v[head..] + w[..head];
      OverrunBehind(v, w, head, all);
    }
  }

  lemma OverrunBehind<T>(v: seq<T>, w: seq<T>, head: nat, all: seq<T>)
    requires 0 < head < |v| == |w| && w[head..] == v[head..] && all == v[head..] + w[..head]
    ensures Ring(w, Wrap(head + 1, |w|), head) == all[1..]
  {
    if head + 1 == |v| {
      assert Ring(w, 0, head) == w[0..head] == w[..head];
      assert v[head..] == [v[head]];
    } else {
      assert w[head + 1..] == v[head..][1..];
    }
  }

  /** Both cases in one: what a push does to the ring. */
  lemma RingAfterPush<T>(v: seq<T>, head: nat, tail: nat, item: T)
    requires head < |v| && tail < |v|
    ensures var next := Wrap(tail + 1, |v|);
      && next < |v| && Wrap(head + 1, |v|) < |v|
      && Ring(v[tail := item], if next == head then Wrap(head + 1, |v|) else head, next)
         == Newest(Ring(v, head, tail) + [item], |v| - 1)
      && (next == head <==> |Ring(v, head, tail)| == |v| - 1)
  {
    hide Ring, Newest;
    if Wrap(tail + 1, |v|) == head {
      RingOverrun(v, head, tail, item);
    } else {
      RingPush(v, head, tail, item);
    }
    NewestIsAllOrRest(Ring(v, head, tail) + [item], |v| - 1);
  }

  class CircularQ<T(0)> {
    var maxItems: nat
    var head: nat
    var tail: nat
    var overrunCounter: nat
    var v: array<T>

    /** maxItems is 0 for a disabled queue; otherwise one slot more than the capacity. */
    ghost predicate Valid()
      reads this
    {
      if maxItems == 0 then head == 0 && tail == 0
      else head < maxItems && tail < maxItems && v.Length == maxItems
    }

    ghost function Capacity(): nat
      reads this
    {
      if maxItems == 0 then 0 else maxItems - 1
    }

    /** The entries, oldest first. */
    ghost function Contents(): (s: seq<T>)
      requires Valid()
      reads this, v
    {
      if maxItems == 0 then [] else Ring(v[..], head, tail)
    }

    constructor Disabled()
      ensures Valid() && Capacity() == 0 && Contents() == [] && overrunCounter == 0
      ensures maxItems == 0 && fresh(v)
    {
      maxItems, head, tail, overrunCounter := 0, 0, 0, 0;
      v := new T[0];
    }

    constructor (capacity: nat)
      ensures Valid() && Capacity() == capacity && Contents() == [] && overrunCounter == 0
      ensures maxItems == capacity + 1 && fresh(v)
    {
      maxItems, head, tail, overrunCounter := capacity + 1, 0, 0, 0;
      v := new T[capacity + 1];
    }

    /** Takes over another queue's entries and leaves that one disabled. */
    method MoveFrom(other: CircularQ<T>)
      requires other != this && other.Valid()
      modifies this, other
      ensures Valid() && Contents() == old(other.Contents()) && Capacity() == old(other.Capacity())
      ensures overrunCounter == old(other.overrunCounter)
      ensures other.Valid() && other.maxItems == 0 && other.Contents() == [] && other.overrunCounter == 0
    {
      maxItems := other.maxItems;
      head := other.head;
      tail := other.tail;
      overrunCounter := other.overrunCounter;
      v := other.v;
      other.maxItems := 0;
      other.head, other.tail := 0, 0;
      other.overrunCounter := 0;
      other.v := new T[0];
    }

    method PushBack(item: T)
      requires Valid()
      modifies this, v
      ensures Valid() && v == old(v) && maxItems == old(maxItems)
      ensures Contents() == if maxItems == 0 then [] else Newest(old(Contents()) + [item], Capacity())
      ensures overrunCounter == old(overrunCounter)
        + (if maxItems > 0 && |old(Contents())| == Capacity() then 1 else 0)
    {
      if maxItems > 0 {
        hide Ring, Newest, Wrap;
        ghost var before, after := v[..], v[..][tail := item];
        RingAfterPush(before, head, tail, item);
        v[tail] := item;
        assert v[..] == after;
        tail := Wrap(tail + 1, maxItems);
        if tail == head {
          head := Wrap(head + 1, maxItems);
          overrunCounter := overrunCounter + 1;
        }
      }
    }

    method Front() returns (item: T)
      requires Valid() && Contents() != []
      ensures item == Contents()[0]
    {
      item := v[head];
    }

    function Size(): (n: nat)
      requires Valid()
      reads this, v
      ensures n == |Contents()|
    {
      if tail >= head then tail - head else maxItems - (head - tail)
    }

    function At(i: nat): (item: T)
      requires Valid() && i < Size()
      reads this, v
      ensures item == Contents()[i]
    {
      v[Wrap(head + i, maxItems)]
    }

    method PopFront()
      requires Valid() && Contents() != []
      modifies this
      ensures Valid() && v == old(v) && maxItems == old(maxItems) && overrunCounter == old(overrunCounter)
      ensures Contents() == old(Contents())[1..]
    {
      head := Wrap(head + 1, maxItems);
    }

    predicate Empty()
      requires Valid()
      reads this, v
      ensures Empty() <==> Contents() == []
    {
      tail == head
    }

    predicate Full()
      requires Valid()
      reads this, v
      ensures Full() <==> maxItems > 0 && |Contents()| == Capacity()
    {
      if maxItems > 0 then Wrap(tail + 1, maxItems) == head else false
    }
  }

  datatype Op<T> = Push(item: T) | Pop

  /** A history of operations on a fresh queue, and what it leaves. */
  datatype Trace<T> = Trace(contents: seq<T>, pushed: seq<T>, popped: nat, overruns: nat)

  /** The effect of PushBack and PopFront, as their contracts give it. A pop of nothing is not allowed. */
  ghost function After<T>(capacity: nat, ops: seq<Op<T>>): Trace<T>
    requires Allowed(capacity, ops)
    decreases |ops|, 1
  {
    if ops == [] then Trace([], [], 0, 0)
    else
      var t := After(capacity, ops[..|ops| - 1]);
      match ops[|ops| - 1]
      case Push(x) =>
        Trace(Newest(t.contents + [x], capacity), t.pushed + [x], t.popped,
              t.overruns + (if |t.contents| == capacity then 1 else 0))
      case Pop => Trace(t.contents[1..], t.pushed, t.popped + 1, t.overruns)
  }

  ghost predicate Allowed<T>(capacity: nat, ops: seq<Op<T>>)
    decreases |ops|, 0
  {
    ops != [] ==>
      && Allowed(capacity, ops[..|ops| - 1])
      && (ops[|ops| - 1] == Pop ==> After(capacity, ops[..|ops| - 1]).contents != [])
  }

  /** Nothing is lost: every entry pushed was popped, overrun, or is still there, and what is
      still there is exactly the newest part of what was pushed. */
  lemma {:induction false} Conservation<T>(capacity: nat, ops: seq<Op<T>>)
    requires Allowed(capacity, ops)
    ensures var t := After(capacity, ops);
      && |t.contents| <= capacity
      && |t.pushed| == t.popped + |t.contents| + t.overruns
      && t.contents == Newest(t.pushed, |t.contents|)
  {
    if ops != [] {
      Conservation(capacity, ops[..|ops| - 1]);
      var t := After(capacity, ops[..|ops| - 1]);
      hide Newest;
      match ops[|ops| - 1] {
        case Push(x) => NewestGrows(t.pushed, t.contents, x, capacity);
        case Pop => NewestShrinks(t.pushed, t.contents);
      }
    }
  }

  lemma PrefixStep<T>(capacity: nat, ops: seq<Op<T>>, i: nat)
    requires i < |ops| && Allowed(capacity, ops[..i + 1])
    ensures ops[..i + 1][..i] == ops[..i] && Allowed(capacity, ops[..i])
    ensures ops[i] == Pop ==> After(capacity, ops[..i]).contents != []
  {
    assert ops[..i + 1][..i] == ops[..i];
    assert ops[..i + 1][i] == ops[i];
  }

  lemma {:induction false} AllowedPrefix<T>(capacity: nat, ops: seq<Op<T>>, i: nat)
    requires Allowed(capacity, ops) && i <= |ops|
    ensures Allowed(capacity, ops[..i])
    decreases |ops| - i
  {
    if i == |ops| {
      assert ops[..i] == ops;
    } else {
      AllowedPrefix(capacity, ops, i + 1);
      PrefixStep(capacity, ops, i);
    }
  }

  /** Any history, wherever it wraps around the buffer, leaves in a fresh queue what the history says. */
  method Replay<T(0)>(capacity: nat, ops: seq<Op<T>>) returns (q: CircularQ<T>)
    requires Allowed(capacity, ops)
    ensures q.Valid() && q.Contents() == After(capacity, ops).contents
    ensures q.overrunCounter == After(capacity, ops).overruns
    ensures |After(capacity, ops).pushed| == After(capacity, ops).popped + q.Size() + q.overrunCounter
    ensures q.Contents() == Newest(After(capacity, ops).pushed, q.Size())
  {
    hide Ring, Newest;
    q := new CircularQ<T>(capacity);
    assert ops[..0] == [];
    for i := 0 to |ops|
      invariant Allowed(capacity, ops[..i])
      invariant fresh(q) && fresh(q.v) && q.Valid() && q.maxItems == capacity + 1
      invariant q.Contents() == After(capacity, ops[..i]).contents
      invariant q.overrunCounter == After(capacity, ops[..i]).overruns
    {
      AllowedPrefix(capacity, ops, i + 1);
      PrefixStep(capacity, ops, i);
      Conservation(capacity, ops[..i]);
      match ops[i] {
        case Push(x) => q.PushBack(x);
        case Pop => q.PopFront();
      }
    }
    assert ops[..|ops|] == ops;
    Conservation(capacity, ops);
  }

  /** The sink that remembers the last messages. history is everything it was ever given. */
  class RingbufferSink<T(0)> {
    const q: CircularQ<T>
    ghost var history: seq<T>

    ghost predicate Valid()
      reads this, q, q.v
    {
      q.Valid() && q.maxItems > 0 && q.Contents() == Newest(history, q.Capacity())
    }

    constructor (items: nat)
      ensures Valid() && history == [] && q.Capacity() == items
      ensures fresh(q) && fresh(q.v)
    {
      q := new CircularQ<T>(items);
      history := [];
    }

    method SinkIt(msg: T)
      requires Valid()
      modifies this, q, q.v
      ensures Valid() && history == old(history) + [msg] && q.v == old(q.v) && q.Capacity() == old(q.Capacity())
    {
      NewestAfterPush(history, msg, q.Capacity());
      q.PushBack(msg);
      history := history + [msg];
    }

    /** The newest entries, oldest first: at most lim of them, all that are kept when lim is 0. */
    method LastRaw(lim: nat) returns (ret: seq<T>)
      requires Valid()
      ensures ret == Newest(history, if 0 < lim < q.Capacity() then lim else q.Capacity())
    {
      hide Ring, Newest;
      var available := q.Size();
      var items := if lim > 0 then (if available < lim then available else lim) else available;
      ret := [];
      var i := available - items;
      while i < available
        invariant available - items <= i <= available
        invariant ret == q.Contents()[available - items..i]
      {
        ret := ret + [q.At(i)];
        i := i + 1;
      }
      LastOf(q.Contents(), items);
      CutToLimit(history, q.Capacity(), items, lim);
    }
  }

  lemma LastOf<T>(s: seq<T>, n: nat)
    requires n <= |s|
    ensures s[|s| - n..|s|] == Newest(s, n)
  {
  }

  /** Asking for more than is kept gives all that is kept. */
  lemma CutToLimit<T>(history: seq<T>, capacity: nat, items: nat, lim: nat)
    requires items == if 0 < lim < |Newest(history, capacity)| then lim else |Newest(history, capacity)|
    ensures Newest(Newest(history, capacity), items) ==
            Newest(history, if 0 < lim < capacity then lim else capacity)
  {
    if 0 < lim < capacity {
      NewestOfNewest(history, capacity, lim);
    }
  }
}
