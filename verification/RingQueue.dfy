/** The bounded queue of RopQueue.cpp: a circular buffer that refines a sequence. */
module RingQueue {

  /** Pointers are numbers; 0 is NULL. */
  type Item = nat

  const NULL: Item := 0

  // The abstract queue.

  datatype Queue = Queue(items: seq<Item>, capacity: nat, peak: nat)

  datatype Op = Push(item: Item) | Pop | Extract(item: Item)

  function Without(s: seq<Item>, x: Item): (r: seq<Item>)
    ensures |r| <= |s|
  {
    if s == [] then []
    else Without(s[..|s| - 1], x) + (if s[|s| - 1] == x then [] else [s[|s| - 1]])
  }

  /** The queue after an operation, and what the operation returns. */
  function Apply(q: Queue, op: Op): (Queue, Item) {
    match op
    case Push(x) =>
      if |q.items| == q.capacity then (q, NULL)
      else (Queue(q.items + [x], q.capacity, if |q.items| + 1 > q.peak then |q.items| + 1 else q.peak), x)
    case Pop =>
      if q.items == [] then (q, NULL) else (q.(items := q.items[1..]), q.items[0])
    case Extract(x) =>
      (q.(items := Without(q.items, x)), if x in q.items then x else NULL)
  }

  function ApplyAll(q: Queue, ops: seq<Op>): Queue {
    if ops == [] then q else Apply(ApplyAll(q, ops[..|ops| - 1]), ops[|ops| - 1]).0
  }

  /** The positions of s that do not hold x, in order. */
  function Positions(s: seq<Item>, x: Item): (p: seq<nat>) {
    if s == [] then []
    else Positions(s[..|s| - 1], x) + (if s[|s| - 1] == x then [] else [|s| - 1])
  }

  lemma {:induction false} PositionsOrdered(s: seq<Item>, x: Item)
    ensures forall j :: 0 <= j < |Positions(s, x)| ==> Positions(s, x)[j] < |s|
    ensures forall j, k :: 0 <= j < k < |Positions(s, x)| ==> Positions(s, x)[j] < Positions(s, x)[k]
  {
    if s != [] {
      PositionsOrdered(s[..|s| - 1], x);
    }
  }

  lemma {:induction false} PositionsExact(s: seq<Item>, x: Item, i: nat)
    requires i < |s|
    ensures i in Positions(s, x) <==> s[i] != x
  {
    var n := |s| - 1;
    PositionsOrdered(s[..n], x);
    assert n !in Positions(s[..n], x);
    if i < n {
      PositionsExact(s[..n], x, i);
    }
  }

  /** Without keeps every item that is not x, at its place in the order, and nothing else. */
  lemma {:induction false} WithoutPicks(s: seq<Item>, x: Item)
    ensures |Positions(s, x)| == |Without(s, x)|
    ensures forall j :: 0 <= j < |Positions(s, x)| ==>
              Positions(s, x)[j] < |s| && Without(s, x)[j] == s[Positions(s, x)[j]] != x
  {
    if s != [] {
      WithoutPicks(s[..|s| - 1], x);
    }
  }

  function Start(capacity: nat): Queue {
    Queue([], capacity, 0)
  }

  lemma {:induction false} StepGrowsPeak(q: Queue, op: Op)
    requires |q.items| <= q.peak && |q.items| <= q.capacity
    ensures var q' := Apply(q, op).0;
            && |q'.items| <= q'.peak && |q'.items| <= q'.capacity && q'.capacity == q.capacity
            && (q'.peak == q.peak || (q'.peak == |q'.items| > q.peak))
  {
  }

  lemma WithoutNext(c: seq<Item>, k: nat, x: Item)
    requires k < |c|
    ensures Without(c[..k + 1], x) == Without(c[..k], x) + (if c[k] == x then [] else [c[k]])
    ensures x in c[..k + 1] <==> x in c[..k] || c[k] == x
  {
    assert c[..k + 1][..k] == c[..k];
    assert c[..k + 1] == c[..k] + [c[k]];
  }

  /** peak is the greatest length the queue has had: reached at some point of the run, never exceeded. */
  lemma {:induction false} PeakIsHighWaterMark(capacity: nat, ops: seq<Op>) returns (at: nat)
    ensures at <= |ops| && |ApplyAll(Start(capacity), ops[..at]).items| == ApplyAll(Start(capacity), ops).peak
    ensures forall n :: 0 <= n <= |ops| ==>
              |ApplyAll(Start(capacity), ops[..n]).items| <= ApplyAll(Start(capacity), ops).peak
    ensures |ApplyAll(Start(capacity), ops).items| <= capacity == ApplyAll(Start(capacity), ops).capacity
  {
    hide Apply;
    assert ops[..|ops|] == ops;
    if ops == [] {
      at := 0;
    } else {
      var m := |ops| - 1;
      var before := ops[..m];
      at := PeakIsHighWaterMark(capacity, before);
      assert before[..m] == before;
      var q := ApplyAll(Start(capacity), before);
      var q' := ApplyAll(Start(capacity), ops);
      StepGrowsPeak(q, ops[m]);
      forall n | 0 <= n <= |ops|
        ensures |ApplyAll(Start(capacity), ops[..n]).items| <= q'.peak
      {
        if n <= m {
          assert ops[..n] == before[..n];
        }
      }
      if q'.peak == q.peak {
        assert ops[..at] == before[..at];
      } else {
        at := |ops|;
      }
    }
  }

  // First in, first out.

  /** What was accepted and not extracted, in the order in which it was pushed, and how much of that has been popped. */
  datatype Log = Log(order: seq<Item>, taken: nat)

  function Noted(l: Log, op: Op, capacity: nat): (l': Log)
    requires l.taken <= |l.order|
    ensures l'.taken <= |l'.order|
  {
    match op
    case Push(x) => if |l.order| - l.taken == capacity then l else l.(order := l.order + [x])
    case Pop => if l.taken == |l.order| then l else l.(taken := l.taken + 1)
    case Extract(x) => l.(order := l.order[..l.taken] + Without(l.order[l.taken..], x))
  }

  function Logged(capacity: nat, ops: seq<Op>): (l: Log)
    ensures l.taken <= |l.order|
  {
    if ops == [] then Log([], 0) else Noted(Logged(capacity, ops[..|ops| - 1]), ops[|ops| - 1], capacity)
  }

  /** The items that the pops of a run have returned. */
  function Popped(capacity: nat, ops: seq<Op>): seq<Item> {
    if ops == [] then []
    else
      var before, op := ops[..|ops| - 1], ops[|ops| - 1];
      var q := ApplyAll(Start(capacity), before);
      Popped(capacity, before) + (if op.Pop? && q.items != [] then [Apply(q, op).1] else [])
  }

  lemma NotedStep(q: Queue, l: Log, op: Op)
    requires l.taken <= |l.order| && q.items == l.order[l.taken..]
    ensures var l', (q', r) := Noted(l, op, q.capacity), Apply(q, op);
            && q'.items == l'.order[l'.taken..] && q'.capacity == q.capacity
            && l'.order[..l'.taken] == l.order[..l.taken] + (if op.Pop? && q.items != [] then [r] else [])
  {
    hide Without;
    var l' := Noted(l, op, q.capacity);
    if op.Pop? && q.items != [] {
      assert l.order[..l.taken + 1] == l.order[..l.taken] + [l.order[l.taken]];
    }
    assert l'.order[l'.taken..] == Apply(q, op).0.items;
  }

  /**
   * Over any run, the items popped followed by those still queued are the items that were accepted and not extracted,
   * in the order in which they were pushed.
   */
  lemma {:induction false} FirstInFirstOut(capacity: nat, ops: seq<Op>)
    ensures var l, q := Logged(capacity, ops), ApplyAll(Start(capacity), ops);
            && Popped(capacity, ops) == l.order[..l.taken] && q.items == l.order[l.taken..] && q.capacity == capacity
            && Popped(capacity, ops) + q.items == l.order
  {
    hide Apply, Noted;
    if ops != [] {
      var before := ops[..|ops| - 1];
      FirstInFirstOut(capacity, before);
      NotedStep(ApplyAll(Start(capacity), before), Logged(capacity, before), ops[|ops| - 1]);
    }
  }

  /** The pushes of a run that found room. */
  function Accepted(capacity: nat, ops: seq<Op>): seq<Item> {
    if ops == [] then []
    else
      var before, op := ops[..|ops| - 1], ops[|ops| - 1];
      Accepted(capacity, before)
      + (if op.Push? && |ApplyAll(Start(capacity), before).items| < capacity then [op.item] else [])
  }

  lemma AcceptedStep(l: Log, q: Queue, op: Op)
    requires l.taken <= |l.order| && q.items == l.order[l.taken..] && |q.items| <= q.capacity && !op.Extract?
    ensures Noted(l, op, q.capacity).order
         == l.order + (if op.Push? && |q.items| < q.capacity then [op.item] else [])
  {
  }

  /** Without extractions nothing that was accepted is missing. */
  lemma {:induction false} AllAcceptedKept(capacity: nat, ops: seq<Op>)
    requires forall op <- ops :: !op.Extract?
    ensures Logged(capacity, ops).order == Accepted(capacity, ops)
  {
    hide Apply, Noted;
    if ops != [] {
      var before := ops[..|ops| - 1];
      assert ops[|ops| - 1] in ops && forall op <- before :: op in ops;
      AllAcceptedKept(capacity, before);
      FirstInFirstOut(capacity, before);
      var at := PeakIsHighWaterMark(capacity, before);
      AcceptedStep(Logged(capacity, before), ApplyAll(Start(capacity), before), ops[|ops| - 1]);
    }
  }

  /**
   * What the next operation of a run returns: a push its item unless the queue is full, a pop the oldest item that has
   * neither been popped nor extracted, an extraction its item if that is queued.
   */
  lemma NextResult(capacity: nat, ops: seq<Op>, op: Op)
    ensures var l := Logged(capacity, ops);
            Apply(ApplyAll(Start(capacity), ops), op).1
            == match op
               case Push(x) => if |l.order| - l.taken == capacity then NULL else x
               case Pop => if l.taken == |l.order| then NULL else l.order[l.taken]
               case Extract(x) => if x in l.order[l.taken..] then x else NULL
  {
    FirstInFirstOut(capacity, ops);
    hide ApplyAll, Logged, Popped, Without;
  }

  // The circular buffer.

  class RopQueue {
    var base: nat
    var size: nat
    var maxSize: nat
    const data: array<Item>

    /** QUEUE_ADD_INDEX: one conditional subtraction, no division. */
    function AddIndex(x: nat, inc: nat): nat {
      if x + inc >= data.Length then x + inc - data.Length else x + inc
    }

    /** Offsets from base below the capacity name different slots. */
    lemma SlotsDiffer(b: nat, m: nat)
      requires b < data.Length && m < data.Length
      ensures AddIndex(AddIndex(b, m), 1) == AddIndex(b, m + 1)
      ensures forall i :: 0 <= i < data.Length ==>
                i != m ==> AddIndex(b, i) != AddIndex(b, m)
    {
    }

    lemma SlotsExist(b: nat)
      requires b < data.Length || b == data.Length == 0
      ensures AddIndex(b, 0) == b
      ensures forall i :: 0 <= i < data.Length ==> AddIndex(b, i) < data.Length
    {
    }

    ghost predicate Valid()
      reads this, data
    {
      size <= data.Length && (base < data.Length || base == data.Length == 0) && size <= maxSize
    }

    /** The slots from base on, wrapped around the end of the array. */
    ghost function Contents(): (c: seq<Item>)
      reads this, data
      requires Valid()
      ensures |c| == size && forall i :: 0 <= i < size ==> c[i] == data[AddIndex(base, i)]
    {
      if base + size <= data.Length then data[base..base + size] else data[base..] + data[..base + size - data.Length]
    }

    ghost function Abstract(): Queue
      reads this, data
      requires Valid()
    {
      Queue(Contents(), data.Length, maxSize)
    }

    constructor (capacity: nat)
      ensures Valid() && fresh(data) && Abstract() == Start(capacity)
    {
      base, size, maxSize := 0, 0, 0;
      data := new Item[capacity](_ => NULL);
    }

    method UpdateMaxSize()
      modifies `maxSize
      ensures maxSize == if size > old(maxSize) then size else old(maxSize)
    {
      if size > maxSize {
        maxSize := size;
      }
    }

    method Push(item: Item) returns (r: Item)
      requires Valid()
      modifies this, data
      ensures Valid() && (Abstract(), r) == Apply(old(Abstract()), Op.Push(item))
    {
      if size == data.Length {
        return NULL;
      }
      hide Contents, AddIndex;
      FreeSlot(base, size);
      var dest := AddIndex(base, size);
      data[dest] := item;
      size := size + 1;
      UpdateMaxSize();
      assert Contents() == old(Contents()) + [item];
      return item;
    }

    /** The slot behind the first n is none of them. */
    lemma FreeSlot(b: nat, n: nat)
      requires b < data.Length && n < data.Length
      ensures AddIndex(b, n) < data.Length
      ensures forall i :: 0 <= i < n ==> AddIndex(b, i) < data.Length && AddIndex(b, i) != AddIndex(b, n)
    {
    }

    method Pop() returns (r: Item)
      requires Valid()
      modifies this
      ensures Valid() && (Abstract(), r) == Apply(old(Abstract()), Op.Pop)
    {
      if size == 0 {
        return NULL;
      }
      hide Contents;
      var oldbase := base;
      Following(base);
      base := AddIndex(base, 1);
      size := size - 1;
      UpdateMaxSize();
      assert Contents() == old(Contents())[1..];
      return data[oldbase];
    }

    /** Counting from the next slot. */
    lemma Following(b: nat)
      requires b < data.Length
      ensures AddIndex(b, 0) == b && AddIndex(b, 1) < data.Length
      ensures forall i :: 0 <= i < data.Length - 1 ==> AddIndex(AddIndex(b, 1), i) == AddIndex(b, i + 1)
    {
    }

    /** Compacts in place: the items that stay move towards base, over the wrap-around. */
    method Extract(item: Item) returns (r: Item)
      requires Valid()
      modifies `size, data
      ensures Valid() && (Abstract(), r) == Apply(old(Abstract()), Op.Extract(item))
    {
      hide Without, Contents, AddIndex;
      ghost var c, b := Contents(), base;
      var n := 0;
      var src, dest, count := base, base, size;
      ghost var k, m, kept := 0, 0, [];
      assert c[..0] == [];
      SlotsExist(b);
      while count > 0
        invariant count + k == |c| && k <= |c| && m + n == k && size == |c| - n && base == b && maxSize == old(maxSize)
        invariant forall i :: 0 <= i < data.Length ==> AddIndex(b, i) < data.Length
        invariant src == AddIndex(b, k) && dest == AddIndex(b, m)
        invariant kept == Without(c[..k], item) && |kept| == m && (n > 0 <==> item in c[..k])
        invariant forall i :: 0 <= i < m ==> data[AddIndex(b, i)] == kept[i]
        invariant forall i :: k <= i < |c| ==> data[AddIndex(b, i)] == c[i]
      {
        WithoutNext(c, k, item);
        SlotsDiffer(b, k);
        SlotsDiffer(b, m);
        assert data[src] == c[k];
        if item == data[src] {
          n := n + 1;
          size := size - 1;
        } else {
          kept := kept + [c[k]];
          data[dest] := data[src];
          dest := AddIndex(dest, 1);
          m := m + 1;
        }
        src := AddIndex(src, 1);
        count := count - 1;
        k := k + 1;
      }
      assert c[..k] == c;
      assert Contents() == Without(c, item);
      r := if n > 0 then item else NULL;
    }
  }
}
