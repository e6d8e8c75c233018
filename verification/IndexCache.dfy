/** The cache indexed by id of lib-index-cache.c: an array of slots threaded on a list in order of insertion. */
module IndexCache {
  import opened Options
  import opened LibList

  /** Pointers to cached items are numbers; 0 is NULL. */
  type Data = nat

  const NULL: Data := 0

  const IDX_CACHE_MAX: nat := 10000000

  datatype Status = OK | ERROR | ABORT

  // The cache as a value.

  /** What each slot holds, and the occupied slots in order of insertion. */
  datatype Cache = Cache(slots: seq<Data>, order: seq<nat>)

  /** A slot holds data exactly if it is listed, and it is listed once. */
  ghost predicate Agrees(c: Cache) {
    && Distinct(c.order)
    && (forall j :: 0 <= j < |c.order| ==> c.order[j] < |c.slots|)
    && forall id :: 0 <= id < |c.slots| ==> (c.slots[id] != NULL <==> id in c.order)
  }

  function IndexOf<T(==)>(s: seq<T>, x: T): (k: nat)
    requires x in s
    ensures k < |s| && s[k] == x && x !in s[..k]
  {
    if s[0] == x then 0 else 1 + IndexOf(s[1..], x)
  }

  function Without(c: Cache, id: nat): Cache
    requires id in c.order && id < |c.slots|
  {
    Cache(c.slots[id := NULL], Removed(c.order, IndexOf(c.order, id)))
  }

  /** The items in the order of their insertion. */
  ghost function Items(c: Cache): seq<Data>
    requires Agrees(c)
  {
    seq(|c.order|, j requires 0 <= j < |c.order| => c.slots[c.order[j]])
  }

  /** The items in the order of their slots. */
  function LiveBySlot(slots: seq<Data>): seq<Data> {
    if slots == [] then []
    else LiveBySlot(slots[..|slots| - 1]) + (if slots[|slots| - 1] == NULL then [] else [slots[|slots| - 1]])
  }

  function Inserting(c: Cache, id: nat, data: Data): Cache
    requires id < |c.slots|
  {
    Cache(c.slots[id := data], c.order + [id])
  }

  lemma InsertingAgrees(c: Cache, id: nat, data: Data)
    requires Agrees(c) && id < |c.slots| && id !in c.order
    ensures Agrees(Inserting(c, id, data)) <==> data != NULL
  {
    var d := Inserting(c, id, data);
    assert id in d.order && d.slots[id] == data;
  }

  /** A new item comes last in a walk, and deleting it again gives the old cache back. */
  lemma PutThenDelete(c: Cache, id: nat, data: Data)
    requires Agrees(c) && id < |c.slots| && id !in c.order && data != NULL
    ensures Agrees(Inserting(c, id, data))
    ensures Items(Inserting(c, id, data)) == Items(c) + [data]
    ensures Without(Inserting(c, id, data), id) == c
  {
    InsertingAgrees(c, id, data);
    var d := Inserting(c, id, data);
    forall j | 0 <= j < |c.order|
      ensures d.slots[c.order[j]] == c.slots[c.order[j]]
    {
      assert c.order[j] in c.order;
    }
    assert d.order[|c.order|] == id;
    assert IndexOf(d.order, id) == |c.order| by {
      assert c.order == d.order[..|c.order|];
    }
    assert d.slots[id := NULL] == c.slots;
  }

  lemma UpdatingAgrees(c: Cache, id: nat, data: Data)
    requires Agrees(c) && id < |c.slots|
    ensures Agrees(Cache(c.slots[id := data], c.order)) <==> (data != NULL <==> id in c.order)
  {
    assert c.slots[id := data][id] == data;
  }

  lemma FirstListed(c: Cache)
    requires Agrees(c) && c.order != []
    ensures c.slots[c.order[0]] != NULL
  {
    assert c.order[0] in c.order;
  }

  lemma NothingListed(c: Cache)
    requires Agrees(c) && forall id :: 0 <= id < |c.slots| ==> c.slots[id] == NULL
    ensures c.order == []
  {
    if c.order != [] {
      FirstListed(c);
      assert false;
    }
  }

  lemma WithoutAgrees(c: Cache, id: nat)
    requires Agrees(c) && id in c.order
    ensures Agrees(Without(c, id)) && |Without(c, id).order| == |c.order| - 1
  {
    var d := Without(c, id);
    forall x: nat
      ensures x in d.order <==> x in c.order && x != id
    {
      RemovedKeeps(c.order, IndexOf(c.order, id), x);
    }
    RemovedKeeps(c.order, IndexOf(c.order, id), id);
  }

  /** Deleting takes one item out of the walk and leaves the others in their order. */
  lemma DeletedOne(c: Cache, id: nat)
    requires Agrees(c) && id in c.order && Agrees(Without(c, id))
    ensures var k := IndexOf(c.order, id);
            Items(c)[k] == c.slots[id] && Items(Without(c, id)) == Items(c)[..k] + Items(c)[k + 1..]
  {
    hide IndexOf;
    var k := IndexOf(c.order, id);
    var d := Without(c, id);
    var i := Items(c);
    forall j | 0 <= j < |d.order|
      ensures Items(d)[j] == i[if j < k then j else j + 1]
    {
      var at := if j < k then j else j + 1;
      assert d.order[j] == c.order[at] && c.order[at] != c.order[k];
    }
    hide Items;
    assert Items(d) == Removed(i, k);
  }

  lemma ItemsWithout(c: Cache, id: nat)
    requires Agrees(c) && id in c.order && Agrees(Without(c, id))
    ensures multiset(Items(c)) == multiset(Items(Without(c, id))) + multiset{c.slots[id]}
  {
    hide IndexOf, Without;
    DeletedOne(c, id);
    TakenOut(Items(c), IndexOf(c.order, id));
  }

  lemma TakenOut<T>(s: seq<T>, k: nat)
    requires k < |s|
    ensures multiset(s) == multiset(Removed(s, k)) + multiset{s[k]}
  {
    assert s == s[..k] + [s[k]] + s[k + 1..];
  }

  /** A last slot that is empty can be left out. */
  lemma DropEmptySlot(c: Cache, n: nat)
    requires Agrees(c) && |c.slots| == n + 1 && n !in c.order
    ensures Agrees(Cache(c.slots[..n], c.order)) && Items(Cache(c.slots[..n], c.order)) == Items(c)
  {
    forall j | 0 <= j < |c.order|
      ensures c.order[j] < n
    {
      assert c.order[j] in c.order;
    }
  }

  /** Walking the list and scanning the slots meet the same items, each as often. */
  lemma {:induction false} SameItems(c: Cache)
    requires Agrees(c)
    ensures multiset(Items(c)) == multiset(LiveBySlot(c.slots))
    decreases |c.slots|
  {
    if |c.slots| == 0 {
      assert Items(c) == [];
    } else {
      var n := |c.slots| - 1;
      var e := c;
      if n in c.order {
        WithoutAgrees(c, n);
        ItemsWithout(c, n);
        e := Without(c, n);
      }
      DropEmptySlot(e, n);
      assert e.slots[..n] == c.slots[..n];
      SameItems(Cache(c.slots[..n], e.order));
    }
  }

  lemma LiveNone(slots: seq<Data>)
    ensures LiveBySlot(slots[..0]) == []
  {
  }

  lemma LiveNext(slots: seq<Data>, i: nat)
    requires i < |slots|
    ensures LiveBySlot(slots[..i + 1]) == LiveBySlot(slots[..i]) + (if slots[i] == NULL then [] else [slots[i]])
  {
    assert slots[..i + 1][..i] == slots[..i];
  }

  /** The items by slot are met from the first slot on. */
  lemma {:induction false} FirstSlotFirst(x: Data, slots: seq<Data>)
    ensures LiveBySlot([x] + slots) == (if x == NULL then [] else [x]) + LiveBySlot(slots)
  {
    var all, n := [x] + slots, |slots|;
    if n > 0 {
      assert all[..n] == [x] + slots[..n - 1];
      FirstSlotFirst(x, slots[..n - 1]);
    } else {
      assert all[..n] == [];
    }
  }

  // A walk over the list. The callbacks share the caller's data, of any type S, and may change it.

  type Test<!S> = (Data, S) -> (bool, S)

  type Job<!S> = (Data, S) -> S

  /** What the comparison says, true when it is missing, and the caller's data after it. */
  function Tested<S>(cmp: Option<Test<S>>, x: Data, caller: S): (bool, S) {
    if cmp.Some? then cmp.value(x, caller) else (true, caller)
  }

  function Visited<S>(cmp: Option<Test<S>>, job: Option<Job<S>>, x: Data, caller: S): S {
    var (found, after) := Tested(cmp, x, caller);
    if found && job.Some? then job.value(x, after) else after
  }

  /** The caller's data after a walk. */
  function Walked<S>(items: seq<Data>, cmp: Option<Test<S>>, job: Option<Job<S>>, once: bool, caller: S): S {
    if items == [] then caller
    else
      var after := Visited(cmp, job, items[0], caller);
      if Tested(cmp, items[0], caller).0 && once then after else Walked(items[1..], cmp, job, once, after)
  }

  lemma WalkedNone<S>(cmp: Option<Test<S>>, job: Option<Job<S>>, once: bool, caller: S)
    ensures Walked([], cmp, job, once, caller) == caller
  {
  }

  lemma WalkedNext<S>(items: seq<Data>, j: nat, cmp: Option<Test<S>>, job: Option<Job<S>>, once: bool, caller: S)
    requires j < |items|
    ensures var after := Visited(cmp, job, items[j], caller);
            Walked(items[j..], cmp, job, once, caller)
            == if Tested(cmp, items[j], caller).0 && once then after else Walked(items[j + 1..], cmp, job, once, after)
  {
    hide Visited, Tested;
    assert items[j..][1..] == items[j + 1..];
  }

  /** A full walk without a comparison calls the job on every item, in order of insertion. */
  lemma {:induction false} FullWalk<S>(items: seq<Data>, x: Data, job: Job<S>, caller: S)
    ensures Walked(items + [x], None, Some(job), false, caller) == job(x, Walked(items, None, Some(job), false, caller))
  {
    if items == [] {
      assert [] + [x] == [x] && [x][1..] == [];
    } else {
      FullWalk(items[1..], x, job, job(items[0], caller));
      assert (items + [x])[1..] == items[1..] + [x];
    }
  }

  /**
   * Each item in turn: the comparison sees the caller's data as the items before left them, and the job, if the item
   * matches, sees them as the comparison left them.
   */
  lemma {:induction false} ComparisonThenJob<S>(items: seq<Data>, x: Data, cmp: Test<S>, job: Job<S>, caller: S)
    ensures Walked(items + [x], Some(cmp), Some(job), false, caller)
         == var (found, after) := cmp(x, Walked(items, Some(cmp), Some(job), false, caller));
            if found then job(x, after) else after
  {
    if items == [] {
      assert [] + [x] == [x] && [x][1..] == [];
    } else {
      ComparisonThenJob(items[1..], x, cmp, job, Visited(Some(cmp), Some(job), items[0], caller));
      assert (items + [x])[1..] == items[1..] + [x];
    }
  }

  /** With once set it ends with the first item that matches; what the comparisons did before it stays done. */
  lemma {:induction false} OnceEnds<S>(items: seq<Data>, rest: seq<Data>, x: Data, cmp: Test<S>, job: Job<S>, caller: S)
    requires forall j :: 0 <= j < |items| ==> !cmp(items[j], Compared(items[..j], cmp, caller)).0
    ensures var (found, after) := cmp(x, Compared(items, cmp, caller));
            found ==> Walked(items + [x] + rest, Some(cmp), Some(job), true, caller) == job(x, after)
    ensures Walked(items, Some(cmp), Some(job), true, caller) == Compared(items, cmp, caller)
  {
    if items == [] {
      assert ([] + [x] + rest)[0] == x;
    } else {
      var after := cmp(items[0], caller).1;
      assert items[..0] == [];
      assert (items + [x] + rest)[1..] == items[1..] + [x] + rest && (items + [x] + rest)[0] == items[0];
      forall j | 0 <= j < |items| - 1
        ensures !cmp(items[1..][j], Compared(items[1..][..j], cmp, after)).0
      {
        assert items[..j + 1][1..] == items[1..][..j] && items[..j + 1][0] == items[0];
      }
      OnceEnds(items[1..], rest, x, cmp, job, after);
    }
  }

  /** The caller's data after some comparisons. */
  function Compared<S>(items: seq<Data>, cmp: Test<S>, caller: S): S {
    if items == [] then caller else Compared(items[1..], cmp, cmp(items[0], caller).1)
  }

  // The items a job meets, when the comparison depends on nothing but the item.

  type Match = Data -> bool

  function Plain(c: Match): Test<seq<Data>> {
    (x: Data, met: seq<Data>) => (c(x), met)
  }

  function Collect(): Job<seq<Data>> {
    (x: Data, met: seq<Data>) => met + [x]
  }

  function Met(items: seq<Data>, c: Match, once: bool, before: seq<Data>): seq<Data> {
    Walked(items, Some(Plain(c)), Some(Collect()), once, before)
  }

  lemma {:induction false} MetBehind(items: seq<Data>, c: Match, once: bool, before: seq<Data>)
    ensures Met(items, c, once, before) == before + Met(items, c, once, [])
  {
    if items != [] {
      var x := items[0];
      if !c(x) {
        MetBehind(items[1..], c, once, before);
      } else if once {
        assert [] + [x] == [x];
      } else {
        assert [] + [x] == [x];
        MetBehind(items[1..], c, once, before + [x]);
        MetBehind(items[1..], c, once, [x]);
      }
    }
  }

  lemma MetNext(items: seq<Data>, c: Match, once: bool)
    requires items != []
    ensures Met(items, c, once, [])
         == if !c(items[0]) then Met(items[1..], c, once, [])
            else if once then [items[0]] else [items[0]] + Met(items[1..], c, once, [])
  {
    assert [] + [items[0]] == [items[0]];
    MetBehind(items[1..], c, once, [items[0]]);
  }

  /** A walk that stops once calls its job on the first match only, if there is one. */
  lemma {:induction false} FirstMatch(items: seq<Data>, c: Match)
    ensures (forall x <- items :: !c(x)) ==> Met(items, c, true, []) == []
    ensures forall k :: 0 <= k < |items| && c(items[k]) && (forall j :: 0 <= j < k ==> !c(items[j])) ==>
              Met(items, c, true, []) == [items[k]]
  {
    if items != [] {
      MetNext(items, c, true);
    }
    if items != [] && !c(items[0]) {
      FirstMatch(items[1..], c);
      forall k | 0 <= k < |items| && c(items[k]) && (forall j :: 0 <= j < k ==> !c(items[j]))
        ensures Met(items, c, true, []) == [items[k]]
      {
        assert items[1..][k - 1] == items[k];
      }
    }
  }

  /** A walk that does not stop calls its job on exactly the matching items. */
  lemma {:induction false} AllMatches(items: seq<Data>, c: Match, x: Data)
    ensures multiset(Met(items, c, false, []))[x] == if c(x) then multiset(items)[x] else 0
  {
    if items != [] {
      MetNext(items, c, false);
      AllMatches(items[1..], c, x);
      assert items == [items[0]] + items[1..];
    }
  }

  // The cache as the source keeps it.

  class IdxCache {
    const max: nat
    const ary: seq<Node<Data>>
    const list: Node<Data>
    const onDelete: bool
    var cur: int
    ghost var ring: seq<Node<Data>>
    ghost var order: seq<nat>

    ghost function Abstract(): (c: Cache)
      reads `order, ary
      ensures c.order == order && |c.slots| == |ary|
    {
      Cache(seq(|ary|, i requires 0 <= i < |ary| reads ary => ary[i].item), order)
    }

    /** The list runs through the slots of order; a slot outside it has no links. */
    ghost predicate Linked()
      reads `ring, `order, ary, ring
    {
      && |ary| == max && Distinct(ary) && list !in ary
      && (forall j :: 0 <= j < |order| ==> order[j] < max)
      && |ring| == |order| + 1 && ring[0] == list && Ring(ring)
      && (forall j :: 0 <= j < |order| ==> ring[j + 1] == ary[order[j]])
      && forall id :: 0 <= id < max && id !in order ==> ary[id].next == null && ary[id].prev == null
    }

    ghost predicate Valid()
      reads this, ary, ring
    {
      Linked() && Agrees(Abstract()) && cur == |order|
    }

    ghost function Nodes(): set<Node<Data>> {
      {list} + NodesOf(ary)
    }

    /** The slots are zeroed, hence empty and in no list. */
    constructor (max: nat, onDelete: bool)
      ensures Valid() && this.max == max && this.onDelete == onDelete && fresh(Nodes())
      ensures Abstract() == Cache(seq(max, i => NULL), [])
    {
      this.max, this.onDelete, cur, order := max, onDelete, 0, [];
      var head := new Node.Head(NULL);
      var a: seq<Node<Data>> := [];
      while |a| < max
        invariant |a| <= max && Distinct(a) && head !in a && fresh(a) && fresh(head) && Ring([head])
        invariant forall n <- a :: n.next == null && n.prev == null && n.item == NULL
      {
        var n := new Node.Zeroed(NULL);
        a := a + [n];
      }
      list, ary, ring := head, a, [head];
    }

    /** idx_cache_init; there may be no memory for the cache itself or for its slots. */
    static method Init(max: nat, onDelete: bool, memory: bool, slotMemory: bool) returns (ic: IdxCache?)
      ensures ic != null <==> max <= 10000000 && memory && slotMemory
      ensures ic != null ==> fresh(ic) && fresh(ic.Nodes()) && ic.Valid() && ic.max == max && ic.onDelete == onDelete
      ensures ic != null ==> ic.Abstract() == Cache(seq(max, i => NULL), [])
    {
      ic := null;
      if max > IDX_CACHE_MAX || !memory || !slotMemory {
        return;
      }
      ic := new IdxCache(max, onDelete);
    }

    /** Which nodes are in the ring, and where. */
    lemma RingInside()
      requires Linked()
      ensures |ary| == max && Distinct(ary) && list !in ary && Ring(ring)
      ensures |ring| == |order| + 1 && ring[0] == list
      ensures forall id :: 0 <= id < max && id !in order ==> ary[id].next == null && ary[id].prev == null
      ensures NodesOf(ring) <= Nodes()
      ensures forall j :: 0 <= j < |order| ==> order[j] < max && ary[order[j]] == ring[j + 1]
      ensures forall j :: 0 < j < |ring| ==> ring[j].next != null && ring[j].prev != null
      ensures forall id :: 0 <= id < max ==> (id in order <==> ary[id] in ring)
      ensures Distinct(order)
    {
      forall n | n in NodesOf(ring)
        ensures n in Nodes()
      {
        var j :| 0 <= j < |ring| && ring[j] == n;
        if j > 0 {
          assert ring[j] == ary[order[j - 1]];
        }
      }
      forall j | 0 < j < |ring|
        ensures ring[j].next != null && ring[j].prev != null
      {
        Neighbours(ring, j);
      }
      forall id | 0 <= id < max
        ensures id in order <==> ary[id] in ring
      {
        if ary[id] in ring {
          var j :| 0 <= j < |ring| && ring[j] == ary[id];
          assert j > 0 && ary[order[j - 1]] == ary[id];
        }
        if id in order {
          var j :| 0 <= j < |order| && order[j] == id;
          assert ring[j + 1] == ary[id];
        }
      }
      forall i, j | 0 <= i < j < |order|
        ensures order[i] != order[j]
      {
        assert ring[i + 1] != ring[j + 1];
      }
    }

    /** The list without position k of order o and of ring r. */
    ghost method Relist(k: nat)
      requires k < |order| && Distinct(order)
      requires |ary| == max && Distinct(ary) && list !in ary
      requires forall j :: 0 <= j < |order| ==> order[j] < max
      requires |ring| == |order| + 1 && ring[0] == list && Ring(Removed(ring, k + 1))
      requires forall j :: 0 <= j < |order| ==> ring[j + 1] == ary[order[j]]
      requires forall id :: 0 <= id < max && id !in order ==> ary[id].next == null && ary[id].prev == null
      requires ary[order[k]].next == null && ary[order[k]].prev == null
      modifies `ring, `order
      ensures Linked() && order == Removed(old(order), k)
    {
      var o, r := order, ring;
      order, ring := Removed(o, k), Removed(r, k + 1);
      forall j | 0 <= j < |order|
        ensures ring[j + 1] == ary[order[j]] && order[j] < max
      {
        var i := if j < k then j else j + 1;
        assert order[j] == o[i] && ring[j + 1] == r[i + 1];
      }
      forall i | 0 <= i < max && i !in order
        ensures ary[i].next == null && ary[i].prev == null
      {
        RemovedKeeps(o, k, i);
      }
    }

    lemma SlotsAre()
      requires Valid()
      ensures |ary| == max && Distinct(ary) && list !in ary
      ensures forall id :: 0 <= id < max ==> ary[id].item == Abstract().slots[id] && (ary[id].item != NULL <==> id in order)
      ensures forall id <- order :: id < max
    {
      forall id | 0 <= id < max
        ensures ary[id].item == Abstract().slots[id] && (ary[id].item != NULL <==> id in order)
      {
      }
    }

    /** lib_list_del on the node of a slot. */
    method Unlist(id: nat)
      requires Linked() && id < max
      modifies `ring, `order, Nodes()`next, Nodes()`prev
      ensures Linked()
      ensures order == if id in old(order) then Removed(old(order), IndexOf(old(order), id)) else old(order)
      ensures Abstract().slots == old(Abstract().slots)
    {
      hide Ring, Removed, Distinct;
      RingInside();
      ghost var k := if id in order then IndexOf(order, id) else 0;
      ghost var r := ring;
      Del(ary[id], ring, if id in order then k + 1 else 0);
      if id in order {
        Relist(k);
      }
    }

    /** Storing in a slot does not touch the links. */
    method SetData(id: nat, data: Data)
      requires Linked() && id < max
      modifies Nodes()`item
      ensures Linked()
      ensures Abstract() == Cache(old(Abstract().slots)[id := data], order)
    {
      ary[id].item := data;
      assert forall i :: 0 <= i < max && i != id ==> ary[i] != ary[id];
      assert Abstract().slots == old(Abstract().slots)[id := data];
    }

    /** The three assignments that delete, clear and flush make. */
    method EmptySlot(id: nat) returns (p: Data)
      requires Valid() && id < max
      modifies this, Nodes()
      ensures Linked() && p == old(ary[id].item)
      ensures Valid() <==> p != NULL
      ensures p != NULL <==> id in old(order)
      ensures cur == old(cur) - 1
      ensures Abstract() == if p != NULL then Without(old(Abstract()), id) else old(Abstract())
    {
      hide Linked, Agrees, Removed, IndexOf, Distinct, Abstract;
      SlotsAre();
      ghost var before := Abstract();
      p := ary[id].item;
      SetData(id, NULL);
      Unlist(id);
      cur := cur - 1;
      if p != NULL {
        WithoutAgrees(before, id);
        assert Abstract() == Without(before, id);
      } else {
        assert before.slots[id] == NULL;
        assert Abstract() == before;
      }
    }

    /**
     * idx_cache_delete and idx_cache_delete_internal. Deleting from an empty slot still counts
     * cur down, after which cur is no longer the length of the list.
     */
    method Delete(id: nat) returns (calls: seq<Data>)
      requires Valid()
      modifies this, Nodes()
      ensures Linked()
      ensures Valid() <==> id >= max || old(ary[id].item) != NULL
      ensures cur == old(cur) - if id < max then 1 else 0
      ensures Abstract() == if id in old(order) then Without(old(Abstract()), id) else old(Abstract())
      ensures calls == if onDelete && id in old(order) then [old(ary[id].item)] else []
    {
      calls := [];
      if id >= max {
        return;
      }
      var p := EmptySlot(id);
      if p != NULL && onDelete {
        calls := [p];
      }
    }

    /** idx_cache_clear: the id is taken modulo the capacity, an empty slot is left alone, and nothing is called back. */
    method Clear(id: nat)
      requires Valid() && max > 0
      modifies this, Nodes()
      ensures Valid()
      ensures Abstract() == if id % max in old(order) then Without(old(Abstract()), id % max) else old(Abstract())
    {
      SlotsAre();
      if ary[id % max].item != NULL {
        var p := EmptySlot(id % max);
      }
    }

    method Enlist(id: nat)
      requires Linked() && id < max && id !in order
      modifies `ring, `order, Nodes()`next, Nodes()`prev
      ensures Linked() && order == old(order) + [id] && Abstract().slots == old(Abstract().slots)
    {
      RingInside();
      ghost var o, r := order, ring;
      hide Linked, Ring, Distinct;
      AddTail(ary[id], list, ring);
      ring := r + [ary[id]];
      order := o + [id];
      RelistedAfterInsertion(o, r, id);
    }

    lemma RelistedAfterInsertion(o: seq<nat>, r: seq<Node<Data>>, id: nat)
      requires |ary| == max && Distinct(ary) && list !in ary
      requires id < max && order == o + [id] && ring == r + [ary[id]] && Ring(ring)
      requires |r| == |o| + 1 && r[0] == list
      requires forall j :: 0 <= j < |o| ==> o[j] < max && ary[o[j]] == r[j + 1]
      requires forall i :: 0 <= i < max && i !in o && i != id ==> ary[i].next == null && ary[i].prev == null
      ensures Linked()
    {
      hide Ring, Distinct;
      forall j | 0 <= j < |order|
        ensures ring[j + 1] == ary[order[j]] && order[j] < max
      {
        assert j < |o| ==> order[j] == o[j] && ring[j + 1] == r[j + 1];
      }
      forall i | 0 <= i < max && i !in order
        ensures ary[i].next == null && ary[i].prev == null
      {
        assert order[|o|] == id;
        assert forall j :: 0 <= j < |o| ==> order[j] == o[j];
      }
    }

    /** idx_cache_put. The last free slot can be filled only at the price of a failed assertion. */
    method Put(id: nat, param: Data) returns (status: Status)
      requires Valid()
      modifies this, Nodes()
      ensures Linked() && cur == |order|
      ensures var inserted := id < max && id !in old(order);
              && Abstract() == (if inserted then Inserting(old(Abstract()), id, param) else old(Abstract()))
              && (Valid() <==> !inserted || param != NULL)
              && (status == ERROR <==> !inserted)
              && (status == ABORT <==> inserted && |old(order)| + 1 >= max)
    {
      if id >= max {
        return ERROR;
      }
      hide Linked, Agrees, Distinct, Abstract;
      SlotsAre();
      if ary[id].item != NULL {
        return ERROR;
      }
      ghost var before := Abstract();
      SetData(id, param);
      Enlist(id);
      cur := cur + 1;
      assert Abstract() == Inserting(before, id, param);
      InsertingAgrees(before, id, param);
      status := if cur < max then OK else ABORT;
    }

    /** idx_cache_update: reports success even for an id beyond the capacity, because NULL is OK. */
    method Update(id: nat, data: Data) returns (status: Status)
      requires Valid()
      modifies Nodes()`item
      ensures Linked() && cur == |order| && status == OK
      ensures var o := old(Abstract());
              Abstract() == if id < max then Cache(o.slots[id := data], o.order) else o
      ensures Valid() <==> id >= max || (data != NULL <==> id in order)
    {
      if id < max {
        hide Linked, Agrees;
        ghost var before := Abstract();
        SetData(id, data);
        UpdatingAgrees(before, id, data);
      }
      return OK;
    }

    /** idx_cache_flush: one call for every item, in the order of the slots, and nothing is left. */
    method Flush() returns (calls: seq<Data>)
      requires Valid()
      modifies this, Nodes()
      ensures Valid() && cur == 0
      ensures Abstract() == Cache(seq(max, i => NULL), [])
      ensures calls == if onDelete then LiveBySlot(old(Abstract().slots)) else []
    {
      hide Linked, Agrees, Without, Abstract, Valid, LiveBySlot;
      calls := [];
      ghost var before := Abstract().slots;
      ghost var now := before;
      ValidMeans();
      LiveNone(before);
      var i := 0;
      while i < max
        invariant 0 <= i <= max && Valid() && Abstract().slots == now && |now| == max
        invariant forall k :: 0 <= k < max ==> now[k] == if k < i then NULL else before[k]
        invariant calls == if onDelete then LiveBySlot(before[..i]) else []
      {
        LiveNext(before, i);
        var p := FlushSlot(i);
        if p != NULL && onDelete {
          calls := calls + [p];
        }
        now := now[i := NULL];
        i := i + 1;
      }
      assert before[..max] == before;
      ValidMeans();
      NothingListed(Abstract());
      assert now == seq(max, i => NULL);
    }

    lemma ValidMeans()
      requires Valid()
      ensures Agrees(Abstract()) && cur == |Abstract().order| && |Abstract().slots| == max
    {
    }

    method FlushSlot(i: nat) returns (p: Data)
      requires Valid() && i < max
      modifies this, Nodes()
      ensures Valid() && |old(Abstract().slots)| == max && p == old(Abstract().slots)[i]
      ensures Abstract().slots == old(Abstract().slots)[i := NULL]
    {
      hide Linked, Agrees, Removed, IndexOf, Abstract;
      SlotsAre();
      p := ary[i].item;
      if p != NULL {
        p := EmptySlot(i);
      }
    }

    /** idx_cache_get: NULL for an empty slot and for an id beyond the capacity. */
    method Get(id: nat) returns (p: Data)
      requires Valid()
      ensures p == if id < max then Abstract().slots[id] else NULL
      ensures p != NULL <==> id in order
    {
      SlotsAre();
      p := if id >= max then NULL else ary[id].item;
    }

    /** idx_cache_walk; the comparison and the job may be missing. */
    method Walk<S>(cmp: Option<Test<S>>, job: Option<Job<S>>, caller0: S, once: bool) returns (caller: S)
      requires Valid()
      ensures caller == Walked(Items(Abstract()), cmp, job, once, caller0)
    {
      hide Linked, Agrees, Items, Abstract, Walked, Valid;
      ValidMeans();
      ghost var items := Items(Abstract());
      OnTheList(0);
      OnTheList(if |order| > 0 then 1 else 0);
      var pnode := list.next;
      var found := true;
      caller := caller0;
      ghost var j := 0;
      assert items[0..] == items;
      while pnode != list
        invariant 0 <= j <= |items| && pnode == ring[if j < |items| then j + 1 else 0]
        invariant j < |items| ==> pnode != list
        invariant cmp.None? ==> found
        invariant Walked(items[j..], cmp, job, once, caller) == Walked(items, cmp, job, once, caller0)
        decreases |items| - j
      {
        OnTheList(j + 1);
        WalkedNext(items, j, cmp, job, once, caller);
        if cmp.Some? {
          var result := cmp.value(pnode.item, caller);
          found, caller := result.0, result.1;
        }
        if found && job.Some? {
          caller := job.value(pnode.item, caller);
        }
        if found && once {
          return;
        }
        if j + 1 < |items| {
          OnTheList(j + 2);
        }
        pnode := pnode.next;
        j := j + 1;
      }
      assert items[j..] == [];
      WalkedNone(cmp, job, once, caller);
    }

    lemma OnTheList(j: nat)
      requires Valid() && j <= |order|
      ensures |ring| == |order| + 1 == |Items(Abstract())| + 1 && ring[0] == list
      ensures ring[j].next == ring[if j < |order| then j + 1 else 0]
      ensures j > 0 ==> ring[j] != list && ring[j].item == Items(Abstract())[j - 1]
    {
      Neighbours(ring, j);
      if j > 0 {
        assert ring[j] == ary[order[j - 1]];
      }
    }
  }
}
