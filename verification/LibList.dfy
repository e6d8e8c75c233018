/** The intrusive circular doubly linked list of lib-list.h. */
module LibList {

  /** A lib_list_node together with the rest of the structure that contains it: lib_list_entry(n) is n.item. */
  class Node<T> {
    var next: Node?<T>
    var prev: Node?<T>
    var item: T

    /** A zeroed structure, in no list. */
    constructor Zeroed(item: T)
      ensures next == null && prev == null && this.item == item
    {
      next, prev, this.item := null, null, item;
    }

    /** INIT_LIB_LIST: an empty list, which is a ring of the head alone. */
    constructor Head(item: T)
      ensures Ring([this]) && this.item == item
    {
      next, prev, this.item := this, this, item;
    }
  }

  function Succ(i: nat, n: nat): nat
    requires i < n
  {
    if i + 1 == n then 0 else i + 1
  }

  ghost predicate Distinct<T>(r: seq<T>) {
    forall i, j :: 0 <= i < j < |r| ==> r[i] != r[j]
  }

  /** r is a ring: next runs through it forwards and prev backwards. The list head is r[0]. */
  ghost predicate Ring<T>(r: seq<Node<T>>)
    reads r
  {
    && |r| > 0
    && Distinct(r)
    && forall i :: 0 <= i < |r| ==> r[i].next == r[Succ(i, |r|)] && r[Succ(i, |r|)].prev == r[i]
  }

  ghost function NodesOf<T>(r: seq<Node<T>>): (s: set<Node<T>>)
    ensures forall i :: 0 <= i < |r| ==> r[i] in s
  {
    assert forall i :: 0 <= i < |r| ==> r[i] in r;
    set n <- r :: n
  }

  /** The node before and the node after position i; both are r[0] when r is a single node. */
  lemma Neighbours<T>(r: seq<Node<T>>, i: nat)
    requires Ring(r) && i < |r|
    ensures r[i].next == r[if i + 1 < |r| then i + 1 else 0]
    ensures r[i].prev == r[if i > 0 then i - 1 else |r| - 1]
  {
    var p := if i > 0 then i - 1 else |r| - 1;
    assert Succ(p, |r|) == i;
  }

  /** Where a traversal is after j nodes: at the end it is back at the head. */
  function At<T>(r: seq<T>, j: nat): T
    requires |r| > 0 && j <= |r|
  {
    if j < |r| then r[j] else r[0]
  }

  /** lib_list_for_each takes every node behind the head once and stops after the last. */
  lemma Traversal<T>(r: seq<Node<T>>, j: nat)
    requires Ring(r) && j <= |r|
    ensures j < |r| ==> r[j].next == At(r, j + 1) && r[j] in r && r[j] !in r[..j]
    ensures 0 < j ==> (At(r, j) == r[0] <==> j == |r|)
  {
    if j < |r| {
      Neighbours(r, j);
      assert forall i :: 0 <= i < j ==> r[i] != r[j];
    }
  }

  function Inserted<T>(r: seq<T>, k: nat, x: T): seq<T>
    requires k <= |r|
  {
    r[..k] + [x] + r[k..]
  }

  function Removed<T>(r: seq<T>, k: nat): seq<T>
    requires k < |r|
  {
    r[..k] + r[k + 1..]
  }

  /** __lib_list_add: links entry between two neighbours. */
  method LinkBetween<T>(entry: Node<T>, prev: Node<T>, next: Node<T>, ghost r: seq<Node<T>>, ghost k: nat)
    requires Ring(r) && entry !in r && 0 < k <= |r|
    requires prev == r[k - 1] && next == r[if k == |r| then 0 else k]
    modifies entry`next, entry`prev, prev`next, next`prev
    ensures Ring(Inserted(r, k, entry))
  {
    entry.next := next;
    entry.prev := prev;
    prev.next := entry;
    next.prev := entry;
    ghost var s := Inserted(r, k, entry);
    forall i | 0 <= i < |s|
      ensures s[i].next == s[Succ(i, |s|)] && s[Succ(i, |s|)].prev == s[i]
    {
      if i < k - 1 {
        assert r[i].next == old(r[i].next) && r[i + 1].prev == old(r[i + 1].prev);
        assert Succ(i, |r|) == i + 1;
      } else if i > k {
        assert s[i] == r[i - 1] && s[Succ(i, |s|)] == r[Succ(i - 1, |r|)];
      }
    }
  }

  /** lib_list_add: directly behind the head. */
  method Add<T>(entry: Node<T>, head: Node<T>, ghost r: seq<Node<T>>)
    requires Ring(r) && head == r[0] && entry !in r
    modifies entry`next, entry`prev, NodesOf(r)`next, NodesOf(r)`prev
    ensures Ring([head, entry] + r[1..])
  {
    Neighbours(r, 0);
    LinkBetween(entry, head, head.next, r, 1);
    assert Inserted(r, 1, entry) == [head, entry] + r[1..];
  }

  /** lib_list_add_tail: directly before the head, which is the end of the list. */
  method AddTail<T>(entry: Node<T>, head: Node<T>, ghost r: seq<Node<T>>)
    requires Ring(r) && head == r[0] && entry !in r
    modifies entry`next, entry`prev, NodesOf(r)`next, NodesOf(r)`prev
    ensures Ring(r + [entry])
  {
    Neighbours(r, 0);
    LinkBetween(entry, head.prev, head, r, |r|);
    assert Inserted(r, |r|, entry) == r + [entry];
  }

  /** The ring closes over position k when p, the position before it, is linked to the one behind it. */
  lemma Bypassed<T>(r: seq<Node<T>>, k: nat, p: nat)
    requires Distinct(r) && k < |r| && p < |r| && Succ(p, |r|) == k && |r| > 1
    requires r[p].next == r[Succ(k, |r|)] && r[Succ(k, |r|)].prev == r[p]
    requires forall i :: 0 <= i < |r| && i != k && i != p ==> r[i].next == r[Succ(i, |r|)] && r[Succ(i, |r|)].prev == r[i]
    ensures Ring(Removed(r, k))
  {
    var s := Removed(r, k);
    forall i | 0 <= i < |s|
      ensures s[i].next == s[Succ(i, |s|)] && s[Succ(i, |s|)].prev == s[i]
    {
      var at := if i < k then i else i + 1;
      assert s[i] == r[at];
      assert s[Succ(i, |s|)] == if at == p then r[Succ(k, |r|)] else r[Succ(at, |r|)];
    }
  }

  /** __lib_list_del. */
  method Unlink<T>(prev: Node?<T>, next: Node?<T>, ghost r: seq<Node<T>>, ghost k: nat)
    requires prev != null && next != null ==> Ring(r) && k < |r| && r[k].prev == prev && r[k].next == next
    modifies NodesOf(r)`next, NodesOf(r)`prev
    ensures prev == null || next == null ==> forall n <- r :: n.next == old(n.next) && n.prev == old(n.prev)
    ensures prev != null && next != null ==>
              && (|r| > 1 ==> Ring(Removed(r, k)) && r[k].next == old(r[k].next) && r[k].prev == old(r[k].prev))
              && (|r| == 1 ==> Ring(r))
  {
    if prev == null || next == null {
      return;
    }
    Neighbours(r, k);
    next.prev := prev;
    prev.next := next;
    if |r| > 1 {
      Bypassed(r, k, if k > 0 then k - 1 else |r| - 1);
    }
  }

  /**
   * lib_list_del: the links of a removed entry are cleared. An entry in no list is left as it was, be it zeroed
   * or a ring of itself.
   */
  method Del<T>(entry: Node<T>, ghost r: seq<Node<T>>, ghost k: nat)
    requires entry.next == null <==> entry.prev == null
    requires entry.next != null ==> Ring(r) && k < |r| && r[k] == entry
    modifies entry`next, entry`prev, NodesOf(r)`next, NodesOf(r)`prev
    ensures entry.next == null && entry.prev == null
    ensures old(entry.next) != null && |r| > 1 ==> Ring(Removed(r, k))
    ensures old(entry.next) == null ==>
              forall n <- r :: n != entry ==> n.next == old(n.next) && n.prev == old(n.prev)
  {
    if entry.next == null {
      Unlink(entry.prev, entry.next, [], 0);
      entry.next := null;
      entry.prev := null;
    } else {
      Unlink(entry.prev, entry.next, r, k);
      assert |r| > 1 ==> entry !in Removed(r, k);
      entry.next := null;
      entry.prev := null;
    }
  }

  method Empty<T>(head: Node<T>, ghost r: seq<Node<T>>) returns (e: bool)
    requires Ring(r) && head == r[0]
    ensures e <==> r == [head]
  {
    Neighbours(r, 0);
    e := head.next == head;
  }

  lemma SplicedDistinct<T>(l: seq<T>, h: seq<T>)
    requires Distinct(l) && Distinct(h) && |l| > 0 && |h| > 0
    requires forall a <- l :: a !in h
    ensures Distinct([h[0]] + l[1..] + h[1..])
  {
    var s := [h[0]] + l[1..] + h[1..];
    var n := |l| - 1;
    forall i, j | 0 <= i < j < |s|
      ensures s[i] != s[j]
    {
      assert s[j] == if j <= n then l[j] else h[j - n];
      assert s[i] == if i == 0 then h[0] else if i <= n then l[i] else h[i - n];
      assert j <= n ==> l[j] in l;
      assert 0 < i <= n ==> l[i] in l;
    }
  }

  /** Two rings of which only the four links at the seams were changed. */
  ghost predicate Seamed<T>(l: seq<Node<T>>, h: seq<Node<T>>)
    requires |l| > 1 && |h| > 0
    reads l, h
  {
    var at := h[Succ(0, |h|)];
    && h[0].next == l[1] && l[1].prev == h[0] && l[|l| - 1].next == at && at.prev == l[|l| - 1]
    && (forall j :: 1 <= j < |l| - 1 ==> l[j].next == l[j + 1] && l[j + 1].prev == l[j])
    && (forall j :: 1 <= j < |h| ==> h[j].next == h[Succ(j, |h|)] && h[Succ(j, |h|)].prev == h[j])
  }

  lemma SeamedRing<T>(l: seq<Node<T>>, h: seq<Node<T>>)
    requires |l| > 1 && |h| > 0 && Seamed(l, h)
    requires Distinct(l) && Distinct(h) && forall a <- l :: a !in h
    ensures Ring([h[0]] + l[1..] + h[1..])
  {
    SplicedDistinct(l, h);
    var s := [h[0]] + l[1..] + h[1..];
    var n := |l| - 1;
    forall i | 0 <= i < |s|
      ensures s[i].next == s[Succ(i, |s|)] && s[Succ(i, |s|)].prev == s[i]
    {
      if 0 < i < n {
        assert s[i] == l[i] && s[i + 1] == l[i + 1];
      } else if i > n {
        assert s[i] == h[i - n] && s[Succ(i, |s|)] == h[Succ(i - n, |h|)];
      } else if i == n {
        assert s[Succ(i, |s|)] == h[Succ(0, |h|)];
      }
    }
  }

  /** __lib_list_splice: the entries of list go, in their order, between head and its first entry. */
  method SpliceLinks<T>(list: Node<T>, head: Node<T>, ghost l: seq<Node<T>>, ghost h: seq<Node<T>>)
    requires Ring(l) && Ring(h) && l[0] == list && h[0] == head && |l| > 1
    requires forall a <- l :: a !in h
    modifies NodesOf(l)`next, NodesOf(l)`prev, NodesOf(h)`next, NodesOf(h)`prev
    ensures Ring([head] + l[1..] + h[1..])
    ensures list.next == old(list.next) && list.prev == old(list.prev)
  {
    Neighbours(l, 0);
    Neighbours(h, 0);
    var first := list.next;
    var last := list.prev;
    var at := head.next;
    assert first in l && last in l && list in l;
    first.prev := head;
    head.next := first;
    last.next := at;
    at.prev := last;
    forall j | 1 <= j < |l| - 1
      ensures l[j].next == l[j + 1] && l[j + 1].prev == l[j]
    {
      assert Succ(j, |l|) == j + 1;
      assert l[j] in l && l[j + 1] in l;
    }
    forall j | 1 <= j < |h|
      ensures h[j].next == h[Succ(j, |h|)] && h[Succ(j, |h|)].prev == h[j]
    {
      assert h[j] in h && h[Succ(j, |h|)] in h;
    }
    SeamedRing(l, h);
  }

  /** lib_list_splice_init: also leaves list empty. */
  method SpliceInit<T>(list: Node<T>, head: Node<T>, ghost l: seq<Node<T>>, ghost h: seq<Node<T>>)
    requires Ring(l) && Ring(h) && l[0] == list && h[0] == head
    requires forall a <- l :: a !in h
    modifies NodesOf(l)`next, NodesOf(l)`prev, NodesOf(h)`next, NodesOf(h)`prev
    ensures Ring([head] + l[1..] + h[1..]) && Ring([list])
  {
    var empty := Empty(list, l);
    if !empty {
      SpliceLinks(list, head, l, h);
      assert forall i :: 0 < i < |l| ==> l[i] != l[0];
      assert list !in l[1..] && list in l && list !in h;
      assert list !in [head] + l[1..] + h[1..];
      list.next, list.prev := list, list;
    } else {
      assert [head] + l[1..] + h[1..] == h;
    }
  }

  lemma RemovedKeeps<T>(s: seq<T>, k: nat, x: T)
    requires k < |s| && Distinct(s)
    ensures Distinct(Removed(s, k))
    ensures x in Removed(s, k) <==> x in s && x != s[k]
  {
    if x in s && x != s[k] {
      var j :| 0 <= j < |s| && s[j] == x;
      assert Removed(s, k)[if j < k then j else j - 1] == x;
    }
  }
}
